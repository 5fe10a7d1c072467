/** Runs of the disk driver from boot on which a wake-up is lost. */
module DiskWitnesses {
  import opened Queues
  import opened DiskDrive
  import opened DiskDriver
  import opened DiskLaws

  /** A disk of one block and one user task with one buffer. */
  function SmallDisk(d: Data): (s: Driver)
    ensures Booted(s) && s.request < |s.tasks|
  {
    var idle := Task(Outside, Request(Read, 0, 0, 0));
    Driver(State(Idle, 1, 0, 0, 0), [d], [d, d], EmptyQueue(), AtStatus, 0, [idle, idle], [d], [], [0, 0], 0, 0)
  }

  lemma {:induction false} RunFour(s: Driver, a: Event, b: Event, c: Event, e: Event, rest: seq<Event>)
    ensures Run(s, [a, b, c, e] + rest) == Run(Step(Step(Step(Step(s, a), b), c), e), rest)
  {
    RunTwo(s, a, b, [c, e] + rest);
    RunTwo(Step(Step(s, a), b), c, e, rest);
    assert [a, b, c, e] + rest == [a, b] + ([c, e] + rest);
  }

  lemma {:induction false} RunTwo(s: Driver, a: Event, b: Event, rest: seq<Event>)
    ensures Run(s, [a, b] + rest) == Run(Step(Step(s, a), b), rest)
  {
    RunCons(s, a, [b] + rest);
    RunCons(Step(s, a), b, rest);
    assert [a, b] + rest == [a] + ([b] + rest);
  }

  lemma RunCons(s: Driver, a: Event, rest: seq<Event>)
    ensures Run(s, [a] + rest) == Run(Step(s, a), rest)
  {
    assert ([a] + rest)[1..] == rest;
  }

  /** The call up to the manager's command, for the block given. */
  function Commanded(d: Data, block: int): Driver {
    var s := SmallDisk(d);
    Step(Step(Step(Step(s, Called(1, Read, block, 1)), Managed), Managed), Managed)
  }

  lemma CommandedState(d: Data, block: int)
    ensures var s := Commanded(d, block);
      && s.pc == AtSuspend && s.request == 1 && |s.tasks| == |s.entries| == 2 && s.entries[1] == 0
      && s.tasks[1].place == Queued && s.completed == 0 && s.deleted == 0
      && (if block == 0 then Transferring(s) && s.disk.status == Reading else s.disk.status == Idle)
  {
    var s1 := Step(SmallDisk(d), Called(1, Read, block, 1));
    assert s1.requests == QState([1], 0);
  }

  /** The signal comes before the manager has suspended itself. */
  lemma EarlySignal(d: Data)
    ensures Stuck(Run(SmallDisk(d), [Called(1, Read, 0, 1), Managed, Managed, Managed, Interrupted]))
  {
    CommandedState(d, 0);
    RunFour(SmallDisk(d), Called(1, Read, 0, 1), Managed, Managed, Managed, [Interrupted]);
    RunCons(Commanded(d, 0), Interrupted, []);
    assert [Called(1, Read, 0, 1), Managed, Managed, Managed, Interrupted] ==
           [Called(1, Read, 0, 1), Managed, Managed, Managed] + [Interrupted];
    assert [Interrupted] + [] == [Interrupted];
  }

  /** The disk of one block has no block 1. */
  lemma RefusedBlock(d: Data)
    ensures Stuck(Run(SmallDisk(d), [Called(1, Read, 1, 1), Managed, Managed, Managed]))
  {
    CommandedState(d, 1);
    RunFour(SmallDisk(d), Called(1, Read, 1, 1), Managed, Managed, Managed, []);
    assert [Called(1, Read, 1, 1), Managed, Managed, Managed] + [] == [Called(1, Read, 1, 1), Managed, Managed, Managed];
  }

  /** The request is served before its caller has suspended itself. */
  lemma ForgottenCaller(d: Data)
    ensures var es := [Called(1, Read, 0, 1), Managed, Managed, Managed, Managed, Interrupted, Managed];
      Forgotten(Run(SmallDisk(d), es), 1)
  {
    CommandedState(d, 0);
    var s := Commanded(d, 0);
    RunFour(SmallDisk(d), Called(1, Read, 0, 1), Managed, Managed, Managed, [Managed, Interrupted, Managed]);
    RunCons(s, Managed, [Interrupted, Managed]);
    RunCons(Step(s, Managed), Interrupted, [Managed]);
    RunCons(Step(Step(s, Managed), Interrupted), Managed, []);
    assert [Called(1, Read, 0, 1), Managed, Managed, Managed, Managed, Interrupted, Managed] ==
           [Called(1, Read, 0, 1), Managed, Managed, Managed] + [Managed, Interrupted, Managed];
    assert [Managed, Interrupted, Managed] == [Managed] + [Interrupted, Managed];
    assert [Interrupted, Managed] == [Interrupted] + [Managed] && [Managed] + [] == [Managed];
  }
}
