/** What the driver of kernel/block.c guarantees over whole runs: an array of blocks, first come first
    served, and exactly when a wake-up is lost. */
module DiskLaws {
  import opened Queues
  import opened DiskDrive
  import opened DiskDriver

  /** From boot, whatever happens: when a task is about to return from block_read or block_write its
      own transfer is done and succeeded, and a read finds in its buffer what the latest write to that
      block queued before it stored, or the initial contents if there is none. */
  lemma CallDelivers(s0: Driver, es: seq<Event>, c: nat, j: int)
    requires Booted(s0) && s0.request < |s0.tasks|
    requires var s := Run(s0, es); c < |s.tasks| && s.tasks[c].place == Awake
    ensures var s := Run(s0, es);
      && c < |s.entries|
      && var q, n := s.tasks[c].request, s.entries[c];
      && s.initial == s0.content && n < s.completed <= |s.log|
      && s.log[n].task == c && q.kind == s.log[n].kind && q.block == s.log[n].block
      && q.returnValue == DiskDrive.NOERROR && 0 <= q.block < |s.initial| && q.buffer < |s.memory|
      && (q.kind == Read && Latest(s.log[..n], q.block, j) ==> s.memory[q.buffer] == s.log[j].data)
      && (q.kind == Read && (forall k :: 0 <= k < n ==> !WritesTo(s.log[k], q.block)) ==>
            s.memory[q.buffer] == s.initial[q.block])
  {
    var s := Run(s0, es);
    BootedInv(s0);
    EveryRunInv(s0, es);
    InitialStays(s0, es);
    assert CallInv(s, c);
    var q, n := s.tasks[c].request, s.entries[c];
    if Latest(s.log[..n], q.block, j) || forall k :: 0 <= k < n ==> !WritesTo(s.log[k], q.block) {
      LatestWrite(s.initial, s.log[..n], q.block, j);
    }
  }

  /** Requests are served in the order they were queued: the disk holds the writes among the first
      completed calls, applied in order, and the queue holds the rest. */
  lemma FirstComeFirstServed(s0: Driver, es: seq<Event>)
    requires Booted(s0) && s0.request < |s0.tasks|
    ensures var s := Run(s0, es);
      && s.deleted <= s.completed <= |s.log|
      && (forall i :: 0 <= i < s.completed ==> InRange(s.log[i].block, |s0.content|))
      && s.content == Apply(s0.content, s.log[..s.completed])
      && |s.requests.items| == |s.log| - s.deleted
      && (forall i :: 0 <= i < |s.requests.items| ==> s.requests.items[i] == s.log[s.deleted + i].task)
  {
    BootedInv(s0);
    EveryRunInv(s0, es);
    InitialStays(s0, es);
  }

  /** History is never rewritten. */
  lemma HistoryGrows(s: Driver, e: Event)
    ensures s.log <= Step(s, e).log && Step(s, e).deleted >= s.deleted && Step(s, e).completed >= s.completed
    ensures Step(s, e).initial == s.initial
  {
  }

  lemma {:induction false} InitialStays(s: Driver, es: seq<Event>)
    ensures Run(s, es).initial == s.initial
    decreases |es|
  {
    if |es| > 0 {
      HistoryGrows(s, es[0]);
      InitialStays(Step(s, es[0]), es[1..]);
    }
  }

  /** The manager never finds the disk busy or uninitialised, its commands are accepted whenever the
      block exists, and a signal only comes while a request of the queue is being served. */
  lemma NeverBusy(s0: Driver, es: seq<Event>)
    requires Booted(s0) && s0.request < |s0.tasks|
    ensures var s := Run(s0, es);
      && s.pc != Parked && s.pc != Gone
      && (s.pc == AtStatus || s.pc == AtItem || s.pc == AtCommand ==> s.disk.status == Idle)
      && (s.pc == AtCommand ==>
            s.request < |s.tasks| &&
            var q := s.tasks[s.request].request;
            Accepts(s.disk, q.block, q.buffer) <==> InRange(q.block, |s.content|))
      && (s.disk.status != Idle ==> (s.pc == AtSuspend || s.pc == Asleep) && Transferring(s))
  {
    var s := Run(s0, es);
    BootedInv(s0);
    EveryRunInv(s0, es);
    if s.pc == AtCommand {
      CommandAccepted(s);
    }
    if s.disk.status != Idle {
      BusyTransfers(s);
    }
  }

  // ----- lost wake-ups -----

  /** No transfer is under way and yet the manager is suspended, or about to be. */
  predicate Stuck(s: Driver) {
    s.disk.status == Idle && (s.pc == AtSuspend || s.pc == Asleep)
  }

  /** The signal comes although the manager is not suspended yet. */
  predicate TooEarly(s: Driver, e: Event) {
    e == Interrupted && s.pc == AtSuspend && Transferring(s)
  }

  /** The manager passes on a request for a block that does not exist. */
  predicate Refused(s: Driver, e: Event) {
    e == Managed && s.pc == AtCommand && s.request < |s.tasks| &&
    !InRange(s.tasks[s.request].request.block, |s.content|)
  }

  /** The manager gets stuck by a signal between its command and its suspension, and by a command that
      the disk refuses; by nothing else. Then nothing is served any more. */
  lemma StuckStep(s: Driver, e: Event)
    requires Inv(s)
    ensures Stuck(Step(s, e)) <==> Stuck(s) || TooEarly(s, e) || Refused(s, e)
    ensures Stuck(s) ==> Step(s, e).completed == s.completed && Step(s, e).deleted == s.deleted
  {
    if e == Managed && s.pc == AtCommand {
      CommandAccepted(s);
    }
    if e == Interrupted && Transferring(s) {
      BusyWithHead(s);
    }
  }

  predicate SomeMishap(s: Driver, es: seq<Event>)
    decreases |es|
  {
    |es| > 0 && (TooEarly(s, es[0]) || Refused(s, es[0]) || SomeMishap(Step(s, es[0]), es[1..]))
  }

  lemma {:induction false} StuckIff(s: Driver, es: seq<Event>)
    requires Inv(s)
    ensures Stuck(Run(s, es)) <==> Stuck(s) || SomeMishap(s, es)
    decreases |es|
  {
    if |es| > 0 {
      StepInv(s, es[0]);
      StuckStep(s, es[0]);
      StuckIff(Step(s, es[0]), es[1..]);
    }
  }

  /** A task whose transfer is served before it has suspended itself is not awakened then ... */
  lemma WokenIffWaiting(s: Driver)
    requires Inv(s) && s.pc == AtAwake
    ensures var c, s1 := s.request, Step(s, Managed);
      && c < |s.entries| && s.entries[c] < s.completed
      && (s.tasks[c].place == Waiting <==> s1.tasks[c].place == Awake)
      && (s.tasks[c].place == Queued <==> Forgotten(s1, c))
  {
    assert Pending(s, s.deleted);
  }

  ghost predicate Forgotten(s: Driver, c: nat) {
    c < |s.tasks| == |s.entries| && (s.tasks[c].place == Queued || s.tasks[c].place == Waiting) &&
    s.entries[c] < Released(s)
  }

  /** ... and never after. */
  lemma ForgottenForEver(s: Driver, e: Event, c: nat)
    requires Inv(s) && Forgotten(s, c)
    ensures Forgotten(Step(s, e), c)
  {
    if e == Managed && s.pc == AtAwake {
      assert Pending(s, s.deleted);
    }
    if e == Interrupted && Transferring(s) {
      BusyWithHead(s);
    }
  }

  // ----- progress -----

  function Rank(pc: Pc): nat {
    match pc
    case AtStatus => 0
    case AtItem => 1
    case AtCommand => 2
    case AtSuspend => 3
    case Asleep => 4
    case AtAwake => 5
    case AtDelete => 6
    case _ => 0
  }

  function Progress(s: Driver): nat {
    7 * s.deleted + Rank(s.pc)
  }

  /** A step of the manager, or of the disk while the manager waits for it. */
  predicate Turn(s: Driver, e: Event) {
    (e == Managed && s.pc != Asleep) || (e == Interrupted && s.pc == Asleep && Transferring(s))
  }

  function Turns(s: Driver, es: seq<Event>): nat
    decreases |es|
  {
    if |es| == 0 then 0 else (if Turn(s, es[0]) then 1 else 0) + Turns(Step(s, es[0]), es[1..])
  }

  lemma TurnAdvances(s: Driver, e: Event)
    requires Inv(s) && s.deleted < |s.log| && !Stuck(s) && !TooEarly(s, e) && !Refused(s, e)
    ensures Progress(Step(s, e)) == Progress(s) + if Turn(s, e) then 1 else 0
  {
    ItemIsOldest(s);
    assert s.pc == AtItem ==> Pending(s, s.deleted);
    if e == Managed && s.pc == AtItem {
      assert s.log[s.deleted].task >= 1;
    }
    if e == Interrupted && Transferring(s) {
      BusyWithHead(s);
    }
  }

  /** Unless the manager gets stuck, the call at position p of the queue has been transferred after
      at most 7 p + 5 turns, whatever the other tasks do in between. */
  lemma {:induction false} ServedInTurn(s: Driver, es: seq<Event>, j: nat)
    requires Inv(s) && s.deleted <= j < |s.log| && !Stuck(s) && !SomeMishap(s, es)
    requires Progress(s) + Turns(s, es) >= 7 * j + 5
    ensures j < Run(s, es).completed
    decreases |es|
  {
    if j < s.completed {
      CompletedStays(s, es, j);
    } else if |es| > 0 {
      var s1 := Step(s, es[0]);
      StepInv(s, es[0]);
      StuckStep(s, es[0]);
      TurnAdvances(s, es[0]);
      HistoryGrows(s, es[0]);
      if j < s1.deleted {
        CompletedStays(s1, es[1..], j);
      } else {
        ServedInTurn(s1, es[1..], j);
      }
    }
  }

  lemma {:induction false} CompletedStays(s: Driver, es: seq<Event>, j: nat)
    requires j < s.completed
    ensures j < Run(s, es).completed
    decreases |es|
  {
    if |es| > 0 {
      HistoryGrows(s, es[0]);
      CompletedStays(Step(s, es[0]), es[1..], j);
    }
  }
}
