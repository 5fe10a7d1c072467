/** What the users of the disk driver see: their calls are read off the events of a run and the memory at
    that moment, not off what the driver writes down. */
module DiskUsers {
  import opened Queues
  import opened DiskDrive
  import opened DiskDriver
  import opened DiskLaws

  /** The calls of block_read and block_write in a run, in the order in which they were made: the arguments
      as they were passed, and for a write what was in the buffer. */
  function Calls(s: Driver, es: seq<Event>): seq<Entry>
    decreases |es|
  {
    if |es| == 0 then []
    else if es[0].Called? && MayCall(s, es[0].task, es[0].buffer) then
      [Entry(es[0].task, es[0].kind, es[0].block, es[0].buffer, s.memory[es[0].buffer])] +
      Calls(Step(s, es[0]), es[1..])
    else Calls(Step(s, es[0]), es[1..])
  }

  lemma {:induction false} LogIsCalls(s: Driver, es: seq<Event>)
    ensures Run(s, es).log == s.log + Calls(s, es)
    decreases |es|
  {
    if |es| > 0 {
      LogIsCalls(Step(s, es[0]), es[1..]);
    }
  }

  /** entries points at each task's latest call. */
  ghost predicate Latests(s: Driver) {
    |s.entries| == |s.tasks| &&
    forall j :: 0 <= j < |s.log| ==> s.log[j].task < |s.entries| && s.entries[s.log[j].task] >= j
  }

  lemma {:induction false} RunLatests(s: Driver, es: seq<Event>)
    requires Latests(s)
    ensures Latests(Run(s, es))
    decreases |es|
  {
    if |es| > 0 {
      StepLatests(s, es[0]);
      RunLatests(Step(s, es[0]), es[1..]);
    }
  }

  lemma StepLatests(s: Driver, e: Event)
    requires Latests(s)
    ensures Latests(Step(s, e))
  {
  }

  /** The entry a task's record points at is its latest call, and has its arguments. */
  lemma LatestCall(s: Driver, c: nat)
    requires Inv(s) && Latests(s) && c < |s.tasks| && s.tasks[c].place == Awake
    ensures c < |s.entries| && s.entries[c] < s.completed <= |s.log|
    ensures var n := s.entries[c];
      && s.log[n].task == c && (forall k :: n < k < |s.log| ==> s.log[k].task != c)
      && s.log[n].buffer == s.tasks[c].request.buffer
  {
    assert CallInv(s, c);
  }

  /** From boot, end to end: when a task is about to return from block_read or block_write, with NOERROR,
      its latest call has been served; if that was block_read(b, p), then p holds what the latest
      block_write(b, ..) called before it passed in, or the initial contents if there is none. */
  lemma ReadsWhatWasWritten(s0: Driver, es: seq<Event>, c: nat, j: int) returns (n: nat)
    requires Booted(s0) && s0.request < |s0.tasks|
    requires var s := Run(s0, es); c < |s.tasks| && s.tasks[c].place == Awake
    ensures var s, calls := Run(s0, es), Calls(s0, es);
      && n < s.completed <= |calls|
      && calls[n].task == c && (forall k :: n < k < |calls| ==> calls[k].task != c)
      && s.tasks[c].request.returnValue == DiskDrive.NOERROR
      && 0 <= calls[n].block < |s0.content| && calls[n].buffer < |s.memory|
      && (calls[n].kind == Read && Latest(calls[..n], calls[n].block, j) ==> s.memory[calls[n].buffer] == calls[j].data)
      && (calls[n].kind == Read && (forall k :: 0 <= k < n ==> !WritesTo(calls[k], calls[n].block)) ==>
            s.memory[calls[n].buffer] == s0.content[calls[n].block])
  {
    var s := Run(s0, es);
    LogIsCalls(s0, es);
    assert s.log == Calls(s0, es);
    RunLatests(s0, es);
    BootedInv(s0);
    EveryRunInv(s0, es);
    LatestCall(s, c);
    CallDelivers(s0, es, c, j);
    n := s.entries[c];
  }

  /** The disk holds the writes among the first completed calls, in the order of the calls, and the queue
      holds the tasks of the rest. */
  lemma ServedInOrderOfCalls(s0: Driver, es: seq<Event>)
    requires Booted(s0) && s0.request < |s0.tasks|
    ensures var s, calls := Run(s0, es), Calls(s0, es);
      && s.deleted <= s.completed <= |calls|
      && s.content == Apply(s0.content, calls[..s.completed])
      && |s.requests.items| == |calls| - s.deleted
      && (forall i :: 0 <= i < |s.requests.items| ==> s.requests.items[i] == calls[s.deleted + i].task)
  {
    LogIsCalls(s0, es);
    assert Run(s0, es).log == Calls(s0, es);
    FirstComeFirstServed(s0, es);
  }

  /** The driver leaves the memory of its users alone, but for the buffer of the read that the signal of
      the disk completes, which gets the block that was asked for. */
  lemma MemoryStep(s: Driver, e: Event, a: nat)
    requires Inv(s) && a < |s.memory|
    ensures |Step(s, e).memory| == |s.memory|
    ensures Step(s, e).memory[a] ==
      if e.Stored? && e.address == a && Unused(s, a) then e.data
      else if e == Interrupted && s.completed < |s.log| && s.disk.status != Idle &&
              s.log[s.completed].kind == Read && s.log[s.completed].buffer == a &&
              InRange(s.log[s.completed].block, |s.content|)
        then s.content[s.log[s.completed].block]
      else s.memory[a]
  {
    if s.disk.status != Idle {
      BusyTransfers(s);
      BusyWithHead(s);
      assert CallInv(s, s.request);
    }
  }

  /** A task goes into the driver by its call, suspends itself, is awakened by the manager when its request
      is the one just served, and returns. */
  function NextPlace(s: Driver, e: Event, c: nat): Place
    requires c < |s.tasks|
  {
    match s.tasks[c].place
    case Outside => if e.Called? && e.task == c && MayCall(s, c, e.buffer) then Queued else Outside
    case Queued => if e == Suspended(c) then Waiting else Queued
    case Waiting => if e == Managed && s.pc == AtAwake && s.request == c then Awake else Waiting
    case Awake => if e == Returned(c) then Outside else Awake
  }

  lemma PlaceAfter(s: Driver, e: Event, c: nat)
    requires s.request < |s.tasks| && c < |s.tasks|
    ensures |Step(s, e).tasks| == |s.tasks| && Step(s, e).tasks[c].place == NextPlace(s, e, c)
  {
  }
}
