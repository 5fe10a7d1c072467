/** Runs from boot on which the tempting claims about task_wait and task_exit fail. */
module DispatcherWitnesses {
  import opened Queues
  import opened Sweeps
  import opened Dispatcher
  import opened DispatcherLaws

  /** Task 1 waits for task 2 and is awakened while task 2 has not finished. */
  lemma CutShort()
    ensures Placed(Boot())
    ensures var r := Run(Boot(), [Created, Dispatched(0, 0), Waited(2), Awoken(1)]);
      r.tasks[1].status == Ready && r.tasks[1].call == InWait(2) && r.tasks[2].status == Ready && !Promises(r)
  {
    BootPlaced();
    assert !Promise(Run(Boot(), [Created, Dispatched(0, 0), Waited(2), Awoken(1)]), 1);
  }

  /** Five tasks, of which the first n wait for task 4. */
  function Waiters(n: nat): Kernel
    requires n <= 2
  {
    var other, waiting := NewTcb(), Tcb(Suspended, false, 0, 4, 0, 0, 1, QUANTUM, InWait(4));
    Kernel([NewTcb().(activations := n + 1, quantum := QUANTUM), if n > 0 then waiting else other,
            if n > 1 then waiting else other, other, other],
           if n == 0 then [1, 2, 3, 4] else if n == 1 then [2, 3, 4] else [3, 4],
           if n == 0 then [] else if n == 1 then [1] else [1, 2], [], [], 0, 0, Choosing, false)
  }

  lemma {:induction false} RunBoth(k: Kernel, a: seq<Event>, b: seq<Event>)
    requires Placed(k)
    ensures Run(k, a + b) == Run(Run(k, a), b)
    decreases |a|
  {
    if |a| == 0 {
      assert a + b == b;
    } else {
      StepPlaced(k, a[0]);
      assert (a + b)[1..] == a[1..] + b;
      RunBoth(Step(k, a[0]), a[1..], b);
    }
  }

  lemma RunTwo(k: Kernel, a: Event, b: Event)
    requires Placed(k)
    ensures Placed(Step(k, a)) && Run(k, [a, b]) == Step(Step(k, a), b)
  {
    StepPlaced(k, a);
    StepPlaced(Step(k, a), b);
    assert [a, b][1..] == [b];
    RunLast(Step(k, a), b);
  }

  lemma RunLast(k: Kernel, e: Event)
    requires Placed(k)
    ensures Run(k, [e]) == Step(k, e)
  {
    StepPlaced(k, e);
    assert [e][1..] == [];
  }

  lemma RunThree(k: Kernel, a: Event, b: Event, c: Event)
    requires Placed(k)
    ensures Placed(Step(k, a)) && Placed(Step(Step(k, a), b))
    ensures Run(k, [a, b, c]) == Step(Step(Step(k, a), b), c)
  {
    StepPlaced(k, a);
    RunTwo(Step(k, a), b, c);
    assert [a, b, c][1..] == [b, c];
  }

  lemma AllCreated()
    ensures Placed(Boot()) && Run(Boot(), [Created, Created, Created]) == Waiters(0)
  {
    BootPlaced();
    RunThree(Boot(), Created, Created, Created);
    var r := Step(Step(Step(Boot(), Created), Created), Created);
    assert r.tasks == Waiters(0).tasks && r.ready == Waiters(0).ready;
    assert r.suspended == Waiters(0).suspended && r.sleeping == Waiters(0).sleeping && r.finished == Waiters(0).finished;
    assert r == Waiters(0);
  }

  /** Task n + 1 runs. */
  function Chosen(n: nat): Kernel
    requires n <= 1
  {
    Waiters(n).(ready := Waiters(n + 1).ready, current := n + 1, phase := Sweeping(n + 1),
                tasks := Waiters(n).tasks[n + 1 := NewTcb().(quantum := QUANTUM, activations := 1, status := Running)])
  }

  lemma TakesFirst(k: Kernel, t: Ptr, rest: seq<Ptr>)
    requires Placed(k) && k.current == 0 && k.phase == Choosing && k.ready == [t] + rest && |rest| > 0
    ensures 0 < t < |k.tasks|
    ensures Step(k, Dispatched(0, 0)) == k.(ready := rest, current := t, phase := Sweeping(t),
      tasks := k.tasks[t := k.tasks[t].(quantum := QUANTUM, activations := k.tasks[t].activations + 1,
                                        status := Running, call := NoCall)])
  {
    assert t in k.ready;
    RemoveFirst(t, rest);
  }

  lemma RemoveFirst(x: Ptr, rest: seq<Ptr>)
    ensures Remove([x] + rest, x) == rest
  {
    assert IndexOf([x] + rest, x) == 0;
  }

  lemma FirstSuspends(n: nat)
    requires n <= 1 && Placed(Chosen(n))
    ensures Step(Chosen(n), Waited(4)) == Waiters(n + 1).(phase := Sweeping(n + 1))
  {
    var r := Step(Chosen(n), Waited(4));
    assert r.tasks == Waiters(n + 1).tasks;
    assert r.suspended == Waiters(n + 1).suspended;
  }

  lemma NobodyAsleep(n: nat)
    requires n <= 2 && n > 0 && Placed(Waiters(n).(phase := Sweeping(n)))
    ensures Step(Waiters(n).(phase := Sweeping(n)), Swept) == Waiters(n)
  {
    assert ReleaseSleepers(Waiters(n).tasks, []) == Waiters(n).tasks;
    assert Waiters(n).ready + [] == Waiters(n).ready;
  }

  lemma FirstWaits(n: nat)
    requires n <= 1 && Placed(Waiters(n))
    ensures Run(Waiters(n), [Dispatched(0, 0), Waited(4), Swept]) == Waiters(n + 1)
  {
    RunThree(Waiters(n), Dispatched(0, 0), Waited(4), Swept);
    assert Waiters(n).ready == [n + 1] + Waiters(n + 1).ready;
    TakesFirst(Waiters(n), n + 1, Waiters(n + 1).ready);
    FirstSuspends(n);
    NobodyAsleep(n + 1);
  }

  lemma LastRuns()
    requires Placed(Waiters(2))
    ensures var k := Step(Waiters(2), Dispatched(1, 0));
      && k.phase == Sweeping(4) && k.current == 4 && k.suspended == [1, 2]
      && k.tasks == Waiters(2).tasks[4 := NewTcb().(quantum := QUANTUM, activations := 1, status := Running)]
  {
    assert Waiters(2).ready[1] == 4;
  }

  lemma LastExits(k: Kernel)
    requires Placed(k) && k.phase != Stopped && k.current == 4 && k.suspended == [1, 2] && |k.tasks| == 5
    requires k.tasks[1].target == 4 && k.tasks[2].target == 4
    ensures var r := Step(k, Exited(7));
      && r.suspended == [2] && |r.tasks| == 5 && r.tasks[2] == k.tasks[2]
      && r.tasks[4].status == Finished && r.tasks[4].exitCode == 7
  {
    assert 4 !in k.suspended;
    var tasks := k.tasks[4 := k.tasks[4].(status := Finished, exitCode := 7)];
    MiddleKept(WaitersOf(tasks, 4));
  }

  lemma MiddleKept(hit: set<Ptr>)
    requires 1 in hit && 2 in hit
    ensures Woken([1, 2], hit) == [1] && Kept([1, 2], hit) == [2]
  {
    assert [1, 2][2..] == [];
  }

  /** Tasks 1 and 2 wait for task 4, which exits: task 2 is left behind without the exit code, so that its
      target has finished does not make it safe to wake. */
  lemma WaiterLeftBehind() returns (es: seq<Event>)
    ensures Placed(Boot())
    ensures var r := Run(Boot(), es);
      && r.suspended == [2] && |r.tasks| == 5 && r.tasks[2].call == InWait(4)
      && r.tasks[4].status == Finished && r.tasks[2].targetExit != r.tasks[4].exitCode
  {
    var turn := [Dispatched(0, 0), Waited(4), Swept];
    AllCreated();
    FirstWaits(0);
    RunBoth(Waiters(0), turn, turn);
    FirstWaits(1);
    RunBoth(Waiters(0), turn + turn, [Dispatched(1, 0), Exited(7)]);
    RunTwo(Waiters(2), Dispatched(1, 0), Exited(7));
    LastRuns();
    LastExits(Step(Waiters(2), Dispatched(1, 0)));
    es := [Created, Created, Created] + (turn + turn + [Dispatched(1, 0), Exited(7)]);
    RunBoth(Boot(), [Created, Created, Created], turn + turn + [Dispatched(1, 0), Exited(7)]);
  }
}
