/** The disk driver of kernel/block.c: any number of tasks that call block_read and block_write, the
    manager task, and the disk, as a state machine with one step per kernel or hardware call. */
module DiskDriver {
  import opened Queues
  import opened DiskDrive

  /** The struct request on the stack of the calling task. */
  datatype Request = Request(kind: Kind, block: int, buffer: nat, returnValue: int)

  /** Where a task is: outside the driver, after queue_add, suspended, or woken and about to return. */
  datatype Place = Outside | Queued | Waiting | Awake

  datatype Task = Task(place: Place, request: Request)

  /** Where disk_manager is: at the status command, at queue_item, at the read or write command, before
      the suspension, suspended, at task_awake, at queue_del, or suspended because the disk was busy. */
  datatype Pc = AtStatus | AtItem | AtCommand | AtSuspend | Asleep | AtAwake | AtDelete | Parked | Gone

  /** A call as history records it; data is what a write was to store. */
  datatype Entry = Entry(task: nat, kind: Kind, block: int, buffer: nat, data: Data)

  /** A request is named by its task, on whose stack it lives, so a later call reuses the address.
      The last five fields are history: the first contents, the calls in the order they were queued,
      each task's latest call in that order, the number of transfers done and of requests taken off the
      queue. */
  datatype Driver = Driver(
    disk: State,
    content: seq<Data>,
    memory: seq<Data>,
    requests: QState,
    pc: Pc,
    request: nat,
    tasks: seq<Task>,
    initial: seq<Data>,
    log: seq<Entry>,
    entries: seq<nat>,
    completed: nat,
    deleted: nat
  )

  /** After boot: the disk idle, no request yet, every task outside. */
  predicate Booted(s: Driver) {
    && s.disk.status == Idle && s.disk.numBlocks == |s.content| && s.content == s.initial
    && s.requests == EmptyQueue() && s.pc == AtStatus
    && (forall c :: 0 <= c < |s.tasks| ==> s.tasks[c].place == Outside)
    && s.log == [] && |s.entries| == |s.tasks| && s.completed == 0 && s.deleted == 0
  }

  // ----- the steps -----

  /** Buffers are private: no other call uses this one. */
  predicate Unused(s: Driver, buffer: nat) {
    forall c :: 0 <= c < |s.tasks| && s.tasks[c].place != Outside ==> s.tasks[c].request.buffer != buffer
  }

  predicate MayCall(s: Driver, c: nat, buffer: nat) {
    && 1 <= c < |s.tasks| == |s.entries| && s.tasks[c].place == Outside
    && 1 <= buffer < |s.memory| && Unused(s, buffer)
  }

  /** block_read and block_write up to queue_add. */
  function Call(s: Driver, c: nat, kind: Kind, block: int, buffer: nat): Driver
    requires MayCall(s, c, buffer)
  {
    s.(requests := s.requests.Add(c),
       tasks := s.tasks[c := Task(Queued, Request(kind, block, buffer, 0))],
       entries := s.entries[c := |s.log|],
       log := s.log + [Entry(c, kind, block, buffer, s.memory[buffer])])
  }

  /** task_awake on a task of the driver. */
  function Awaken(tasks: seq<Task>, c: nat): (r: seq<Task>)
    requires c < |tasks|
  {
    if tasks[c].place == Waiting then tasks[c := tasks[c].(place := Awake)] else tasks
  }

  /** The read or write command of the manager. */
  function Command(s: Driver): Driver
    requires s.request < |s.tasks|
  {
    var q := s.tasks[s.request].request;
    var ok := Accepts(s.disk, q.block, q.buffer);
    s.(disk := if ok then Started(s.disk, q.kind, q.block, q.buffer) else s.disk,
       tasks := s.tasks[s.request := s.tasks[s.request].(
         request := q.(returnValue := if ok then DiskDrive.NOERROR else DiskDrive.ERROR))],
       pc := AtSuspend)
  }

  /** queue_del of the request just served. */
  function Deleted(s: Driver): Driver {
    s.(requests := s.requests.Del(s.request), pc := AtStatus, deleted := s.deleted + 1)
  }

  /** One step of the loop of disk_manager. */
  function Manage(s: Driver): Driver
    requires s.request < |s.tasks|
  {
    match s.pc
    case AtStatus =>
      s.(pc := if s.disk.status == Unknown then Gone else if s.disk.status == Idle then AtItem else Parked)
    case AtItem =>
      if s.requests.Item() == Queues.NULL then s.(pc := AtStatus)
      else s.(request := s.requests.Item(), pc := AtCommand)
    case AtCommand => Command(s)
    case AtSuspend => s.(pc := Asleep)
    case AtAwake => s.(tasks := Awaken(s.tasks, s.request), pc := AtDelete)
    case AtDelete => Deleted(s)
    case _ => s
  }

  predicate Transferring(s: Driver) {
    && (s.disk.status == Reading || s.disk.status == Writing)
    && 0 <= s.disk.nextBlock < |s.content| && s.disk.buffer < |s.memory|
  }

  /** disk_sighandle, then handle_disk_signal, which wakes the manager only if it is suspended. */
  function Interrupt(s: Driver): Driver
    requires Transferring(s)
  {
    var b, m := s.disk.nextBlock, s.disk.buffer;
    s.(memory := if s.disk.status == Reading then s.memory[m := s.content[b]] else s.memory,
       content := if s.disk.status == Writing then s.content[b := s.memory[m]] else s.content,
       disk := s.disk.(status := Idle, prevBlock := b),
       pc := if s.pc == Asleep then AtAwake else if s.pc == Parked then AtStatus else s.pc,
       completed := s.completed + 1)
  }

  datatype Event =
    | Called(task: nat, kind: Kind, block: int, buffer: nat)
    | Suspended(task: nat)
    | Returned(task: nat)
    | Stored(address: nat, data: Data)
    | Managed
    | Interrupted

  /** Events that cannot happen leave no trace. Stored is a task writing to its own memory. */
  function Step(s: Driver, e: Event): Driver {
    match e
    case Called(c, kind, block, buffer) => if MayCall(s, c, buffer) then Call(s, c, kind, block, buffer) else s
    case Suspended(c) =>
      if c < |s.tasks| && s.tasks[c].place == Queued then s.(tasks := s.tasks[c := s.tasks[c].(place := Waiting)]) else s
    case Returned(c) =>
      if c < |s.tasks| && s.tasks[c].place == Awake then s.(tasks := s.tasks[c := s.tasks[c].(place := Outside)]) else s
    case Stored(a, data) => if a < |s.memory| && Unused(s, a) then s.(memory := s.memory[a := data]) else s
    case Managed => if s.request < |s.tasks| then Manage(s) else s
    case Interrupted => if Transferring(s) then Interrupt(s) else s
  }

  function Run(s: Driver, es: seq<Event>): Driver
    decreases |es|
  {
    if |es| == 0 then s else Run(Step(s, es[0]), es[1..])
  }

  // ----- the plain array of blocks -----

  predicate InRange(block: int, n: nat) {
    0 <= block < n
  }

  /** The contents after the writes of the log, in order; the disk has no other blocks. */
  function Apply(initial: seq<Data>, log: seq<Entry>): (r: seq<Data>)
    ensures |r| == |initial|
  {
    if |log| == 0 then initial
    else
      var r, e := Apply(initial, log[..|log| - 1]), log[|log| - 1];
      if e.kind == Write && InRange(e.block, |r|) then r[e.block := e.data] else r
  }

  predicate WritesTo(e: Entry, b: nat) {
    e.kind == Write && e.block == b
  }

  /** Entry j is the last write to block b in the log. */
  predicate Latest(log: seq<Entry>, b: nat, j: int) {
    0 <= j < |log| && WritesTo(log[j], b) && forall k :: j < k < |log| ==> !WritesTo(log[k], b)
  }

  /** Block b holds what the latest write to it stored, or the initial contents. */
  lemma {:induction false} LatestWrite(initial: seq<Data>, log: seq<Entry>, b: nat, j: int)
    requires b < |initial|
    requires Latest(log, b, j) || forall k :: 0 <= k < |log| ==> !WritesTo(log[k], b)
    ensures Apply(initial, log)[b] == if Latest(log, b, j) then log[j].data else initial[b]
    decreases |log|
  {
    if |log| > 0 && !WritesTo(log[|log| - 1], b) {
      var front := log[..|log| - 1];
      assert Latest(log, b, j) <==> Latest(front, b, j);
      LatestWrite(initial, front, b, j);
    }
  }

  lemma ApplyNext(initial: seq<Data>, log: seq<Entry>, n: nat)
    requires n < |log|
    ensures var r, e := Apply(initial, log[..n]), log[n];
      Apply(initial, log[..n + 1]) == if e.kind == Write && InRange(e.block, |r|) then r[e.block := e.data] else r
  {
    assert log[..n + 1][..n] == log[..n];
  }

  // ----- the invariant -----

  /** Calls whose tasks the manager has not awakened yet start at this position of the history. */
  function Released(s: Driver): nat {
    if s.pc == AtDelete then s.deleted + 1 else s.deleted
  }

  /** The queue holds the calls that are not deleted, in the order they were made. */
  ghost predicate QueueInv(s: Driver) {
    && s.deleted <= s.completed <= |s.log| && s.requests.cursor == 0
    && |s.requests.items| == |s.log| - s.deleted
    && forall i :: 0 <= i < |s.requests.items| ==> s.requests.items[i] == s.log[s.deleted + i].task
  }

  /** The disk is busy only with the request at the head, and only until the manager is awakened. */
  ghost predicate ManagerInv(s: Driver) {
    && s.deleted <= |s.log| && s.request < |s.tasks|
    && s.disk.status != Unknown && s.pc != Parked && s.pc != Gone
    && (s.pc == AtStatus || s.pc == AtItem ==> s.disk.status == Idle && s.completed == s.deleted)
    && (s.pc != AtStatus && s.pc != AtItem ==> s.deleted < |s.log| && s.request == s.log[s.deleted].task)
    && (s.pc == AtCommand ==> s.disk.status == Idle && s.completed == s.deleted)
    && (s.pc == AtSuspend || s.pc == Asleep ==> Working(s))
    && (s.pc == AtAwake ==> s.tasks[s.request].request.returnValue == 0)
    && (s.pc == AtAwake || s.pc == AtDelete ==> s.disk.status == Idle && s.completed == s.deleted + 1)
  }

  /** The transfer is under way, or its signal has come, or the command has been refused. */
  ghost predicate Working(s: Driver)
    requires s.request < |s.tasks|
  {
    var q := s.tasks[s.request].request;
    if s.disk.status == Idle then
      || (s.completed == s.deleted + 1 && q.returnValue == 0)
      || (s.completed == s.deleted && !InRange(q.block, |s.content|))
    else
      && q.returnValue == 0 && s.completed == s.deleted && s.disk.status == q.kind.Busy()
      && s.disk.nextBlock == q.block && s.disk.buffer == q.buffer && InRange(q.block, |s.content|)
  }

  /** The disk holds the result of the completed writes in the order they were queued. */
  ghost predicate ContentInv(s: Driver) {
    && s.disk.numBlocks == |s.content| && s.completed <= |s.log|
    && (forall j :: 0 <= j < s.completed ==> InRange(s.log[j].block, |s.initial|))
    && s.content == Apply(s.initial, s.log[..s.completed])
  }

  /** What is known of a call in progress; after completion a read's buffer holds the block as the
      writes queued before the call left it. */
  ghost predicate CallInv(s: Driver, c: nat)
    requires c < |s.tasks| == |s.entries|
  {
    var t, j := s.tasks[c], s.entries[c];
    var q := t.request;
    t.place != Outside ==>
      && j < |s.log| && 1 <= q.buffer < |s.memory|
      && s.log[j].task == c && q.kind == s.log[j].kind && q.block == s.log[j].block && q.buffer == s.log[j].buffer
      && (q.kind == Write ==> s.memory[q.buffer] == s.log[j].data)
      && (t.place == Awake ==> j < s.completed)
      && (j < s.completed ==> Delivered(s, c))
  }

  ghost predicate Delivered(s: Driver, c: nat)
    requires c < |s.tasks| == |s.entries| && s.entries[c] < |s.log|
    requires s.tasks[c].request.buffer < |s.memory|
  {
    var q, j := s.tasks[c].request, s.entries[c];
    && q.returnValue == 0
    && (q.kind == Read && InRange(q.block, |s.initial|) ==> s.memory[q.buffer] == Apply(s.initial, s.log[..j])[q.block])
  }

  /** Call j is the one its task is in, and that task has not been awakened. */
  ghost predicate Pending(s: Driver, j: nat)
    requires j < |s.log|
  {
    var c := s.log[j].task;
    1 <= c < |s.tasks| == |s.entries| && (s.tasks[c].place == Queued || s.tasks[c].place == Waiting) && s.entries[c] == j
  }

  ghost predicate Private(s: Driver, c: nat, d: nat)
    requires c < |s.tasks| && d < |s.tasks|
  {
    c != d && s.tasks[c].place != Outside && s.tasks[d].place != Outside ==>
      s.tasks[c].request.buffer != s.tasks[d].request.buffer
  }

  ghost predicate Inv(s: Driver) {
    && QueueInv(s) && ManagerInv(s) && ContentInv(s) && |s.entries| == |s.tasks|
    && (forall c :: 0 <= c < |s.tasks| ==> CallInv(s, c))
    && (forall j :: Released(s) <= j < |s.log| ==> Pending(s, j))
    && (forall c, d :: 0 <= c < |s.tasks| && 0 <= d < |s.tasks| ==> Private(s, c, d))
    && (forall j :: 0 <= j < |s.log| ==> s.log[j].task >= 1)
  }

  lemma BootedInv(s: Driver)
    requires Booted(s) && s.request < |s.tasks|
    ensures Inv(s)
  {
  }

  // ----- every step keeps it -----

  /** A call in progress is not affected by what happens elsewhere. */
  lemma CallFrame(s: Driver, s1: Driver, c: nat)
    requires c < |s.tasks| == |s.entries| && c < |s1.tasks| == |s1.entries|
    requires CallInv(s, c) && s1.tasks[c] == s.tasks[c] && s1.entries[c] == s.entries[c] && s1.initial == s.initial
    requires |s1.log| >= |s.log| && s1.log[..|s.log|] == s.log
    requires s1.completed == s.completed || (s1.completed == s.completed + 1 && s.entries[c] != s.completed)
    requires |s1.memory| == |s.memory|
    requires s.tasks[c].place != Outside && s.tasks[c].request.buffer < |s.memory| ==>
               s1.memory[s.tasks[c].request.buffer] == s.memory[s.tasks[c].request.buffer]
    ensures CallInv(s1, c)
  {
    if s.tasks[c].place != Outside {
      var j := s.entries[c];
      assert s1.log[j] == s1.log[..|s.log|][j] == s.log[j];
      assert s1.log[..j] == s.log[..j];
    }
  }

  lemma CallKeepsOrder(s: Driver, c: nat, kind: Kind, block: int, buffer: nat)
    requires Inv(s) && MayCall(s, c, buffer)
    ensures var s1 := Call(s, c, kind, block, buffer); QueueInv(s1) && ManagerInv(s1) && ContentInv(s1)
  {
    var s1 := Call(s, c, kind, block, buffer);
    assert s1.log[..s.completed] == s.log[..s.completed];
    assert s.pc != AtStatus && s.pc != AtItem && s.pc != AtDelete ==> Pending(s, s.deleted);
  }

  lemma CallKeeps(s: Driver, c: nat, kind: Kind, block: int, buffer: nat)
    requires Inv(s) && MayCall(s, c, buffer)
    ensures Inv(Call(s, c, kind, block, buffer))
  {
    var s1 := Call(s, c, kind, block, buffer);
    assert s1.log[..|s.log|] == s.log;
    CallKeepsOrder(s, c, kind, block, buffer);
    forall d | 0 <= d < |s1.tasks|
      ensures CallInv(s1, d)
    {
      if d != c {
        assert CallInv(s, d);
        CallFrame(s, s1, d);
      }
    }
    forall j | Released(s1) <= j < |s1.log|
      ensures Pending(s1, j)
    {
      assert j < |s.log| ==> Pending(s, j);
    }
    forall d, e | 0 <= d < |s1.tasks| && 0 <= e < |s1.tasks|
      ensures Private(s1, d, e)
    {
      assert Private(s, d, e);
    }
  }

  lemma PlaceCall(s: Driver, c: nat, place: Place, d: nat)
    requires c < |s.tasks| == |s.entries| && d < |s.tasks| && CallInv(s, d)
    requires place == Waiting || place == Outside
    requires s.tasks[c].place != Outside
    ensures CallInv(s.(tasks := s.tasks[c := s.tasks[c].(place := place)]), d)
  {
  }

  /** A task's own progress from queue_add to its return. */
  lemma PlaceKeeps(s: Driver, c: nat, place: Place)
    requires Inv(s) && c < |s.tasks|
    requires (s.tasks[c].place == Queued && place == Waiting) || (s.tasks[c].place == Awake && place == Outside)
    ensures Inv(s.(tasks := s.tasks[c := s.tasks[c].(place := place)]))
  {
    var s1 := s.(tasks := s.tasks[c := s.tasks[c].(place := place)]);
    forall d | 0 <= d < |s1.tasks|
      ensures CallInv(s1, d)
    {
      PlaceCall(s, c, place, d);
    }
    forall j | Released(s1) <= j < |s1.log|
      ensures Pending(s1, j)
    {
      assert Pending(s, j);
    }
    forall d, e | 0 <= d < |s1.tasks| && 0 <= e < |s1.tasks|
      ensures Private(s1, d, e)
    {
      assert Private(s, d, e);
    }
  }

  lemma StoreKeeps(s: Driver, a: nat, data: Data)
    requires Inv(s) && a < |s.memory| && Unused(s, a)
    ensures Inv(s.(memory := s.memory[a := data]))
  {
    var s1 := s.(memory := s.memory[a := data]);
    forall d | 0 <= d < |s1.tasks|
      ensures CallInv(s1, d)
    {
      assert CallInv(s, d);
      CallFrame(s, s1, d);
    }
    forall j | Released(s1) <= j < |s1.log|
      ensures Pending(s1, j)
    {
      assert Pending(s, j);
    }
    forall d, e | 0 <= d < |s1.tasks| && 0 <= e < |s1.tasks|
      ensures Private(s1, d, e)
    {
      assert Private(s, d, e);
    }
  }

  /** The command of the manager always finds the disk idle, and is accepted exactly when the block
      exists. */
  lemma CommandAccepted(s: Driver)
    requires Inv(s) && s.pc == AtCommand
    ensures var q := s.tasks[s.request].request;
      s.disk.status == Idle && (Accepts(s.disk, q.block, q.buffer) <==> InRange(q.block, |s.content|))
  {
    assert Pending(s, s.deleted) && CallInv(s, s.request);
  }

  lemma CommandKeeps(s: Driver)
    requires Inv(s) && s.pc == AtCommand
    ensures Inv(Command(s))
  {
    var s1, c := Command(s), s.request;
    CommandAccepted(s);
    assert Pending(s, s.deleted);
    forall d | 0 <= d < |s1.tasks|
      ensures CallInv(s1, d)
    {
      assert CallInv(s, d);
    }
    forall j | Released(s1) <= j < |s1.log|
      ensures Pending(s1, j)
    {
      assert Pending(s, j);
    }
    forall d, e | 0 <= d < |s1.tasks| && 0 <= e < |s1.tasks|
      ensures Private(s1, d, e)
    {
      assert Private(s, d, e);
    }
  }

  lemma AwakenKeeps(s: Driver)
    requires Inv(s) && s.pc == AtAwake
    ensures Inv(s.(tasks := Awaken(s.tasks, s.request), pc := AtDelete))
  {
    var s1 := s.(tasks := Awaken(s.tasks, s.request), pc := AtDelete);
    assert Pending(s, s.deleted);
    forall d | 0 <= d < |s1.tasks|
      ensures CallInv(s1, d)
    {
      assert CallInv(s, d);
    }
    forall j | Released(s1) <= j < |s1.log|
      ensures Pending(s1, j)
    {
      assert Pending(s, j);
    }
    forall d, e | 0 <= d < |s1.tasks| && 0 <= e < |s1.tasks|
      ensures Private(s1, d, e)
    {
      assert Private(s, d, e);
    }
  }

  /** queue_del takes out the first occurrence of the address, which is the head, even when the task
      has returned meanwhile and queued a new request at the same address. */
  lemma DeletesHead(s: Driver)
    requires QueueInv(s) && ManagerInv(s) && s.pc == AtDelete
    ensures |s.requests.items| > 0 && s.requests.Del(s.request) == QState(s.requests.items[1..], 0)
  {
    assert s.requests.items[0] == s.request;
    DelHead(s.requests);
  }

  lemma DeleteKeepsQueue(s: Driver)
    requires QueueInv(s) && ManagerInv(s) && s.pc == AtDelete
    ensures QueueInv(Deleted(s))
  {
    DeletesHead(s);
    var s1 := Deleted(s);
    forall i | 0 <= i < |s1.requests.items|
      ensures s1.requests.items[i] == s1.log[s1.deleted + i].task
    {
      assert s1.requests.items[i] == s.requests.items[i + 1];
    }
  }

  lemma DeleteKeeps(s: Driver)
    requires Inv(s) && s.pc == AtDelete
    ensures Inv(Deleted(s))
  {
    var s1 := Deleted(s);
    DeleteKeepsQueue(s);
    forall d | 0 <= d < |s1.tasks|
      ensures CallInv(s1, d)
    {
      assert CallInv(s, d);
    }
    forall j | Released(s1) <= j < |s1.log|
      ensures Pending(s1, j)
    {
      assert Pending(s, j);
    }
    forall d, e | 0 <= d < |s1.tasks| && 0 <= e < |s1.tasks|
      ensures Private(s1, d, e)
    {
      assert Private(s, d, e);
    }
  }

  /** The steps of the manager that only move it. */
  lemma MoveKeeps(s: Driver, s1: Driver)
    requires Inv(s) && s1 == s.(pc := s1.pc, request := s1.request) && ManagerInv(s1) && Released(s1) == Released(s)
    ensures Inv(s1)
  {
    forall d | 0 <= d < |s1.tasks|
      ensures CallInv(s1, d)
    {
      assert CallInv(s, d);
    }
    forall j | Released(s1) <= j < |s1.log|
      ensures Pending(s1, j)
    {
      assert Pending(s, j);
    }
    forall d, e | 0 <= d < |s1.tasks| && 0 <= e < |s1.tasks|
      ensures Private(s1, d, e)
    {
      assert Private(s, d, e);
    }
  }

  /** queue_item gives the oldest request, or none when there is none. */
  lemma ItemIsOldest(s: Driver)
    requires Inv(s)
    ensures s.requests.Item() == if s.deleted < |s.log| then s.log[s.deleted].task else Queues.NULL
    ensures s.deleted < |s.log| && s.pc == AtItem ==> s.log[s.deleted].task < |s.tasks|
  {
    if s.deleted < |s.log| {
      assert s.requests.items[0] == s.log[s.deleted].task;
      assert s.pc == AtItem ==> Pending(s, s.deleted);
    }
  }

  lemma ManageKeeps(s: Driver)
    requires Inv(s)
    ensures Inv(Manage(s))
  {
    match s.pc
    case AtStatus => MoveKeeps(s, Manage(s));
    case AtItem =>
      ItemIsOldest(s);
      MoveKeeps(s, Manage(s));
    case AtCommand => CommandKeeps(s);
    case AtSuspend => MoveKeeps(s, Manage(s));
    case AtAwake => AwakenKeeps(s);
    case AtDelete => DeleteKeeps(s);
    case _ =>
  }

  /** The signal of the disk serves the request at the head. */
  lemma BusyWithHead(s: Driver)
    requires Inv(s) && Transferring(s)
    ensures s.pc == AtSuspend || s.pc == Asleep
    ensures s.completed == s.deleted < |s.log| && Pending(s, s.completed) && s.request == s.log[s.completed].task
    ensures var q, e := s.tasks[s.request].request, s.log[s.completed];
      && q.returnValue == 0 && q.buffer == s.disk.buffer && q.kind == e.kind && s.disk.nextBlock == e.block
      && s.disk.status == e.kind.Busy() && (e.kind == Write ==> s.memory[q.buffer] == e.data)
  {
    assert Pending(s, s.completed) && CallInv(s, s.request);
  }

  lemma BusyTransfers(s: Driver)
    requires Inv(s) && s.disk.status != Idle
    ensures Transferring(s)
  {
    assert Pending(s, s.deleted) && CallInv(s, s.request);
  }

  lemma {:induction false} InterruptContent(s: Driver)
    requires Inv(s) && Transferring(s)
    ensures ContentInv(Interrupt(s))
  {
    BusyWithHead(s);
    ContentAfter(s, s.log[s.completed]);
  }

  lemma {:induction false} ContentAfter(s: Driver, e: Entry)
    requires ContentInv(s) && Transferring(s) && s.completed < |s.log| && e == s.log[s.completed]
    requires s.disk.nextBlock == e.block && s.disk.status == e.kind.Busy()
    requires e.kind == Write ==> s.memory[s.disk.buffer] == e.data
    ensures ContentInv(Interrupt(s))
  {
    ApplyNext(s.initial, s.log, s.completed);
  }

  lemma InterruptCall(s: Driver, d: nat)
    requires Inv(s) && Transferring(s) && d < |s.tasks|
    ensures CallInv(Interrupt(s), d)
  {
    var s1, c := Interrupt(s), s.request;
    BusyWithHead(s);
    assert CallInv(s, d) && CallInv(s, c) && Private(s, c, d);
    if d != c {
      assert s1.log[..|s.log|] == s.log;
      if s.tasks[d].place != Outside {
        CallFrame(s, s1, d);
      }
    }
  }

  lemma InterruptKeeps(s: Driver)
    requires Inv(s) && Transferring(s)
    ensures Inv(Interrupt(s))
  {
    var s1 := Interrupt(s);
    BusyWithHead(s);
    InterruptContent(s);
    forall d | 0 <= d < |s1.tasks|
      ensures CallInv(s1, d)
    {
      InterruptCall(s, d);
    }
    forall j | Released(s1) <= j < |s1.log|
      ensures Pending(s1, j)
    {
      assert Pending(s, j);
    }
    forall d, e | 0 <= d < |s1.tasks| && 0 <= e < |s1.tasks|
      ensures Private(s1, d, e)
    {
      assert Private(s, d, e);
    }
  }

  lemma StepInv(s: Driver, e: Event)
    requires Inv(s)
    ensures Inv(Step(s, e))
  {
    match e
    case Called(c, kind, block, buffer) => if MayCall(s, c, buffer) { CallKeeps(s, c, kind, block, buffer); }
    case Suspended(c) => if c < |s.tasks| && s.tasks[c].place == Queued { PlaceKeeps(s, c, Waiting); }
    case Returned(c) => if c < |s.tasks| && s.tasks[c].place == Awake { PlaceKeeps(s, c, Outside); }
    case Stored(a, data) => if a < |s.memory| && Unused(s, a) { StoreKeeps(s, a, data); }
    case Managed => ManageKeeps(s);
    case Interrupted => if Transferring(s) { InterruptKeeps(s); }
  }

  lemma {:induction false} EveryRunInv(s: Driver, es: seq<Event>)
    requires Inv(s)
    ensures Inv(Run(s, es))
    decreases |es|
  {
    if |es| > 0 {
      StepInv(s, es[0]);
      EveryRunInv(Step(s, es[0]), es[1..]);
    }
  }
}
