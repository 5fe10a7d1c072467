/** The task life cycle of kernel/dispatcher.c as a state machine. Every kernel call is one step;
    ticks and interrupts arrive between steps. Task 0 is the kernel, which is in no queue. */
module Dispatcher {
  import opened Queues
  import opened Sweeps

  const QUANTUM: nat := 10

  datatype Status = Ready | Running | Suspended | Finished

  /** The call a task is inside of. The code does not store it: it is the task's program point. */
  datatype Call = NoCall | InWait(target: nat) | InSleep(until: int) | InBlock

  datatype Tcb = Tcb(
    status: Status,
    sleeping: bool,
    wakeUp: int,
    target: nat,
    targetExit: int,
    exitCode: int,
    activations: nat,
    quantum: int,
    call: Call
  )

  /** Where the dispatcher loop is: about to choose a task, about to sweep the sleepers after the
      chosen task (0 for none) gave the processor back, or past the loop. */
  datatype Phase = Choosing | Sweeping(chosen: nat) | Stopped

  /** fault records a failed assertion of the code. */
  datatype Kernel = Kernel(
    tasks: seq<Tcb>,
    ready: seq<Ptr>,
    suspended: seq<Ptr>,
    sleeping: seq<Ptr>,
    finished: seq<Ptr>,
    current: nat,
    clock: int,
    phase: Phase,
    fault: bool
  )

  function NewTcb(): Tcb {
    Tcb(Ready, false, 0, 0, 0, 0, 0, 0, NoCall)
  }

  /** After dispatcher has created the user task. */
  function Boot(): Kernel {
    Kernel([NewTcb().(activations := 1, quantum := QUANTUM), NewTcb()], [1], [], [], [], 0, 0, Choosing, false)
  }

  // ----- the calls -----

  function TaskRun(k: Kernel, t: nat): Kernel
    requires t < |k.tasks|
  {
    if t !in k.ready then k
    else
      var tcb := k.tasks[t];
      k.(ready := Remove(k.ready, t),
         tasks := k.tasks[t := tcb.(quantum := QUANTUM, activations := tcb.activations + 1,
                                    status := Running, call := NoCall)],
         current := t)
  }

  /** One more activation of the kernel, which becomes the current task. */
  function ToKernel(k: Kernel): Kernel
    requires |k.tasks| > 0
  {
    k.(tasks := k.tasks[0 := k.tasks[0].(activations := k.tasks[0].activations + 1)], current := 0)
  }

  function TaskYield(k: Kernel): Kernel
    requires k.current < |k.tasks|
  {
    var c := k.current;
    var k1 := k.(tasks := k.tasks[c := k.tasks[c].(quantum := QUANTUM, status := Ready)]);
    if c == 0 then k1 else ToKernel(k1.(ready := k1.ready + [c]))
  }

  function TaskSuspend(k: Kernel, asleep: bool, call: Call): Kernel
    requires k.current < |k.tasks|
  {
    var c := k.current;
    var k1 := k.(tasks := k.tasks[c := k.tasks[c].(status := Suspended, call := call)]);
    ToKernel(if asleep then k1.(sleeping := k1.sleeping + [c]) else k1.(suspended := k1.suspended + [c]))
  }

  function TaskAwake(k: Kernel, t: nat): Kernel
    requires t < |k.tasks|
  {
    var tcb := k.tasks[t];
    if t == NULL || tcb.status != Suspended then k
    else if tcb.sleeping then
      k.(sleeping := Remove(k.sleeping, t), fault := k.fault || t !in k.sleeping, ready := k.ready + [t],
         tasks := k.tasks[t := tcb.(sleeping := false, status := Ready)])
    else
      k.(suspended := Remove(k.suspended, t), fault := k.fault || t !in k.suspended, ready := k.ready + [t],
         tasks := k.tasks[t := tcb.(status := Ready)])
  }

  /** task_wait up to the point where the caller is suspended. */
  function TaskWait(k: Kernel, g: nat): Kernel
    requires k.current < |k.tasks| && g < |k.tasks|
  {
    if g == NULL || k.tasks[g].status == Finished then k
    else
      TaskSuspend(k.(tasks := k.tasks[k.current := k.tasks[k.current].(target := g)]), false, InWait(g))
  }

  function TaskSleep(k: Kernel, t: int): Kernel
    requires k.current < |k.tasks|
  {
    var c := k.current;
    TaskSuspend(k.(tasks := k.tasks[c := k.tasks[c].(sleeping := true, wakeUp := k.clock + t)]),
                true, InSleep(k.clock + t))
  }

  function WaitersOf(tasks: seq<Tcb>, g: nat): set<Ptr> {
    set t | 0 <= t < |tasks| && tasks[t].target == g
  }

  function ReleaseWaiters(tasks: seq<Tcb>, woken: seq<Ptr>, code: int): (r: seq<Tcb>)
    ensures |r| == |tasks| && forall t {:trigger r[t]} :: 0 <= t < |r| ==>
      r[t] == if t in woken then tasks[t].(status := Ready, targetExit := code) else tasks[t]
  {
    seq(|tasks|, t requires 0 <= t < |tasks| =>
      if t in woken then tasks[t].(status := Ready, targetExit := code) else tasks[t])
  }

  function TaskExit(k: Kernel, code: int): Kernel
    requires k.current < |k.tasks|
  {
    var c := k.current;
    var tasks := k.tasks[c := k.tasks[c].(status := Finished, exitCode := code)];
    var hit := WaitersOf(tasks, c);
    var woken := Woken(k.suspended, hit);
    ToKernel(k.(tasks := ReleaseWaiters(tasks, woken, code), ready := k.ready + woken,
                suspended := Kept(k.suspended, hit), finished := k.finished + [c]))
  }

  function TaskCreate(k: Kernel): Kernel {
    k.(tasks := k.tasks + [NewTcb()], ready := k.ready + [|k.tasks|])
  }

  /** The timer interrupt, which preempts whoever is running, the kernel included. */
  function Tick(k: Kernel): Kernel
    requires k.current < |k.tasks|
  {
    var c := k.current;
    var left := k.tasks[c].quantum - 1;
    var k1 := k.(clock := k.clock + 1, tasks := k.tasks[c := k.tasks[c].(quantum := left)]);
    if left == 0 then TaskYield(k1) else k1
  }

  /** The loop head and the call of task_run; the scheduler's answer is the choice-th ready task. */
  function Dispatch(k: Kernel, choice: nat, requests: nat): Kernel
    requires forall t :: t in k.ready ==> t < |k.tasks|
  {
    if |k.ready| <= 1 && |k.sleeping| == 0 && requests == 0 then k.(phase := Stopped)
    else if |k.ready| == 0 then k.(phase := Sweeping(0))
    else if choice >= |k.ready| then k
    else
      assert k.ready[choice] in k.ready;
      TaskRun(k, k.ready[choice]).(phase := Sweeping(k.ready[choice]))
  }

  function Expired(tasks: seq<Tcb>, clock: int): set<Ptr> {
    set t | 0 <= t < |tasks| && clock >= tasks[t].wakeUp
  }

  function ReleaseSleepers(tasks: seq<Tcb>, woken: seq<Ptr>): (r: seq<Tcb>)
    ensures |r| == |tasks| && forall t {:trigger r[t]} :: 0 <= t < |r| ==>
      r[t] == if t in woken then tasks[t].(status := Ready, sleeping := false) else tasks[t]
  {
    seq(|tasks|, t requires 0 <= t < |tasks| =>
      if t in woken then tasks[t].(status := Ready, sleeping := false) else tasks[t])
  }

  /** What follows task_run in the loop: the status switch and the sweep of the sleeping queue. */
  function SweepPass(k: Kernel, chosen: nat): Kernel
    requires chosen < |k.tasks|
  {
    var hit := Expired(k.tasks, k.clock);
    var woken := Woken(k.sleeping, hit);
    k.(tasks := ReleaseSleepers(k.tasks, woken), ready := k.ready + woken, sleeping := Kept(k.sleeping, hit),
       phase := Choosing, fault := k.fault || (chosen != NULL && k.tasks[chosen].status == Running))
  }

  // ----- runs -----

  datatype Event =
    | Ticked
    | Awoken(task: nat)
    | Created
    | Dispatched(choice: nat, requests: nat)
    | Swept
    | Yielded
    | Blocked
    | Waited(target: nat)
    | Slept(time: int)
    | Exited(code: int)

  /** Kernel-only events need the kernel current, task events a task; others leave no trace. */
  function Step(k: Kernel, e: Event): Kernel
    requires Placed(k)
  {
    if k.phase == Stopped then k
    else
      match e
      case Ticked => Tick(k)
      case Awoken(t) => if t < |k.tasks| then TaskAwake(k, t) else k
      case Created => TaskCreate(k)
      case Dispatched(choice, requests) =>
        if k.current == 0 && k.phase == Choosing then Dispatch(k, choice, requests) else k
      case Swept =>
        if k.current == 0 && k.phase.Sweeping? then SweepPass(k, k.phase.chosen) else k
      case Yielded => if k.current != 0 then TaskYield(k) else k
      case Blocked => if k.current != 0 then TaskSuspend(k, false, InBlock) else k
      case Waited(g) => if k.current != 0 && g < |k.tasks| then TaskWait(k, g) else k
      case Slept(t) => if k.current != 0 then TaskSleep(k, t) else k
      case Exited(code) => if k.current != 0 then TaskExit(k, code) else k
  }

  // ----- every task is in exactly one place -----

  ghost predicate Members(s: seq<Ptr>, n: nat) {
    Distinct(s) && forall t :: t in s ==> 1 <= t < n
  }

  /** The queue that holds a task is the one its status names; a running task is in none. */
  ghost predicate InPlace(k: Kernel, t: nat)
    requires t < |k.tasks|
  {
    var tcb := k.tasks[t];
    && (t in k.ready <==> tcb.status == Ready)
    && (t in k.suspended <==> tcb.status == Suspended && !tcb.sleeping)
    && (t in k.sleeping <==> tcb.status == Suspended && tcb.sleeping)
    && (t in k.finished <==> tcb.status == Finished)
    && (t == k.current <==> tcb.status == Running)
    && (tcb.sleeping ==> tcb.status == Suspended)
  }

  ghost predicate Placed(k: Kernel) {
    && k.current < |k.tasks|
    && Members(k.ready, |k.tasks|)
    && Members(k.suspended, |k.tasks|)
    && Members(k.sleeping, |k.tasks|)
    && Members(k.finished, |k.tasks|)
    && (forall t :: 1 <= t < |k.tasks| ==> InPlace(k, t))
    && k.tasks[0].status == Ready && !k.tasks[0].sleeping && k.tasks[0].quantum >= 1
    && k.tasks[k.current].quantum >= 1
    && (k.current != 0 ==> k.phase == Sweeping(k.current))
    && (k.phase.Sweeping? ==> k.phase.chosen < |k.tasks|)
    && !k.fault
  }

  lemma BootPlaced()
    ensures Placed(Boot())
  {
  }

  lemma ToKernelPlaced(k: Kernel)
    requires |k.tasks| > 0 && k.tasks[0].status == Ready && !k.tasks[0].sleeping && k.tasks[0].quantum >= 1
    requires Members(k.ready, |k.tasks|) && Members(k.suspended, |k.tasks|)
    requires Members(k.sleeping, |k.tasks|) && Members(k.finished, |k.tasks|)
    requires forall t :: 1 <= t < |k.tasks| ==> InPlace(k.(current := 0), t)
    requires (k.phase.Sweeping? ==> k.phase.chosen < |k.tasks|) && !k.fault
    ensures Placed(ToKernel(k))
  {
    var k1 := ToKernel(k);
    forall t | 1 <= t < |k1.tasks|
      ensures InPlace(k1, t)
    {
      assert InPlace(k.(current := 0), t);
    }
  }

  lemma TaskRunPlaced(k: Kernel, t: nat)
    requires Placed(k) && k.current == 0 && t in k.ready
    ensures Placed(TaskRun(k, t).(phase := Sweeping(t)))
  {
    RemoveMembers(k.ready, t);
    var k1 := TaskRun(k, t).(phase := Sweeping(t));
    assert InPlace(k, t);
    forall u | 1 <= u < |k1.tasks|
      ensures InPlace(k1, u)
    {
      assert InPlace(k, u);
    }
  }

  lemma TaskYieldPlaced(k: Kernel)
    requires k.current < |k.tasks| && Placed(k.(tasks := k.tasks[k.current := k.tasks[k.current].(quantum := 1)]))
    ensures Placed(TaskYield(k))
  {
    var c := k.current;
    var was := k.(tasks := k.tasks[c := k.tasks[c].(quantum := 1)]);
    if c == 0 {
      var k1 := TaskYield(k);
      forall u | 1 <= u < |k1.tasks|
        ensures InPlace(k1, u)
      {
        assert InPlace(was, u);
      }
    } else {
      assert InPlace(was, c);
      AppendMembers(k.ready, c);
      var k1 := k.(tasks := k.tasks[c := k.tasks[c].(quantum := QUANTUM, status := Ready)], ready := k.ready + [c]);
      forall u | 1 <= u < |k1.tasks|
        ensures InPlace(k1.(current := 0), u)
      {
        assert InPlace(was, u);
      }
      ToKernelPlaced(k1);
    }
  }

  /** The caller may have set the fields that do not place a task, and its sleeping flag. */
  lemma TaskSuspendPlaced(k: Kernel, asleep: bool, call: Call)
    requires k.current < |k.tasks| && k.current != 0 && k.tasks[k.current].sleeping == asleep
    requires Placed(k.(tasks := k.tasks[k.current := k.tasks[k.current].(sleeping := false)]))
    ensures Placed(TaskSuspend(k, asleep, call))
  {
    var c := k.current;
    var was := k.(tasks := k.tasks[c := k.tasks[c].(sleeping := false)]);
    assert InPlace(was, c);
    AppendMembers(k.suspended, c);
    AppendMembers(k.sleeping, c);
    var tasks := k.tasks[c := k.tasks[c].(status := Suspended, call := call)];
    var k1 := if asleep then k.(tasks := tasks, sleeping := k.sleeping + [c])
      else k.(tasks := tasks, suspended := k.suspended + [c]);
    forall u | 1 <= u < |k1.tasks|
      ensures InPlace(k1.(current := 0), u)
    {
      assert InPlace(was, u);
    }
    ToKernelPlaced(k1);
  }

  lemma TaskAwakePlaced(k: Kernel, t: nat)
    requires Placed(k) && t < |k.tasks|
    ensures Placed(TaskAwake(k, t))
  {
    if t != 0 && k.tasks[t].status == Suspended {
      assert InPlace(k, t);
      RemoveMembers(k.suspended, t);
      RemoveMembers(k.sleeping, t);
      AppendMembers(k.ready, t);
      var k1 := TaskAwake(k, t);
      forall u | 1 <= u < |k1.tasks|
        ensures InPlace(k1, u)
      {
        assert InPlace(k, u);
      }
    }
  }

  lemma AppendAllMembers(s: seq<Ptr>, w: seq<Ptr>)
    requires Distinct(s) && Distinct(w) && forall x :: x in w ==> x !in s
    ensures Distinct(s + w) && forall x :: x in s + w <==> x in s || x in w
  {
    forall i, j | 0 <= i < j < |s + w|
      ensures (s + w)[i] != (s + w)[j]
    {
      assert j >= |s| ==> (s + w)[j] in w;
      assert i < |s| ==> (s + w)[i] in s;
    }
  }

  /** A sweep of a queue moves what it deletes to the ready queue. */
  lemma SweepMembers(q: seq<Ptr>, hit: set<Ptr>, ready: seq<Ptr>, n: nat)
    requires Members(q, n) && Members(ready, n) && forall x :: x in q ==> x !in ready
    ensures Members(Kept(q, hit), n) && Members(ready + Woken(q, hit), n)
    ensures forall x :: x in q <==> x in Kept(q, hit) || x in Woken(q, hit)
    ensures forall x :: !(x in Kept(q, hit) && x in Woken(q, hit))
    ensures forall x :: x in ready + Woken(q, hit) <==> x in ready || x in Woken(q, hit)
  {
    SweepDistinct(q, hit);
    forall x
      ensures x in q <==> x in Kept(q, hit) || x in Woken(q, hit)
      ensures !(x in Kept(q, hit) && x in Woken(q, hit))
    {
      MemberOfSweep(q, hit, x);
    }
    AppendAllMembers(ready, Woken(q, hit));
  }

  lemma TaskExitPlaced(k: Kernel, code: int)
    requires Placed(k) && k.current != 0
    ensures Placed(TaskExit(k, code))
  {
    var c := k.current;
    assert InPlace(k, c);
    var tasks := k.tasks[c := k.tasks[c].(status := Finished, exitCode := code)];
    var hit := WaitersOf(tasks, c);
    var woken := Woken(k.suspended, hit);
    forall x | x in k.suspended
      ensures x !in k.ready
    {
      assert InPlace(k, x);
    }
    SweepMembers(k.suspended, hit, k.ready, |k.tasks|);
    AppendMembers(k.finished, c);
    var k1 := k.(tasks := ReleaseWaiters(tasks, woken, code), ready := k.ready + woken,
                 suspended := Kept(k.suspended, hit), finished := k.finished + [c]);
    forall u | 1 <= u < |k1.tasks|
      ensures InPlace(k1.(current := 0), u)
    {
      assert InPlace(k, u);
    }
    assert 0 !in woken;
    ToKernelPlaced(k1);
  }

  lemma SweepPassPlaced(k: Kernel)
    requires Placed(k) && k.current == 0 && k.phase.Sweeping?
    ensures Placed(SweepPass(k, k.phase.chosen))
  {
    var hit := Expired(k.tasks, k.clock);
    forall x | x in k.sleeping
      ensures x !in k.ready
    {
      assert InPlace(k, x);
    }
    SweepMembers(k.sleeping, hit, k.ready, |k.tasks|);
    var chosen := k.phase.chosen;
    assert chosen != 0 ==> InPlace(k, chosen);
    var k1 := SweepPass(k, chosen);
    forall u | 1 <= u < |k1.tasks|
      ensures InPlace(k1, u)
    {
      assert InPlace(k, u);
    }
    assert 0 !in Woken(k.sleeping, hit);
  }

  lemma TaskCreatePlaced(k: Kernel)
    requires Placed(k)
    ensures Placed(TaskCreate(k))
  {
    AppendMembers(k.ready, |k.tasks|);
    var k1 := TaskCreate(k);
    forall u | 1 <= u < |k1.tasks|
      ensures InPlace(k1, u)
    {
      assert u < |k.tasks| ==> InPlace(k, u);
    }
  }

  lemma TickPlaced(k: Kernel)
    requires Placed(k)
    ensures Placed(Tick(k))
  {
    var c := k.current;
    var left := k.tasks[c].quantum - 1;
    var k1 := k.(clock := k.clock + 1, tasks := k.tasks[c := k.tasks[c].(quantum := left)]);
    var k2 := k1.(tasks := k1.tasks[c := k1.tasks[c].(quantum := if left == 0 then 1 else left)]);
    forall u | 1 <= u < |k2.tasks|
      ensures InPlace(k2, u)
    {
      assert InPlace(k, u);
    }
    if left == 0 {
      TaskYieldPlaced(k1);
    } else {
      assert k2.tasks == k1.tasks;
    }
  }

  /** No step misplaces a task or fails one of the code's assertions. */
  lemma StepPlaced(k: Kernel, e: Event)
    requires Placed(k)
    ensures Placed(Step(k, e))
  {
    if k.phase != Stopped {
      var c := k.current;
      assert c != 0 ==> InPlace(k, c);
      match e
      case Ticked => TickPlaced(k);
      case Awoken(t) => if t < |k.tasks| { TaskAwakePlaced(k, t); }
      case Created => TaskCreatePlaced(k);
      case Dispatched(choice, requests) => DispatchPlaced(k, choice, requests);
      case Swept => if c == 0 && k.phase.Sweeping? { SweepPassPlaced(k); }
      case Yielded => if c != 0 { QuantumFree(k, c); TaskYieldPlaced(k); }
      case Blocked => if c != 0 { SetNonPlacing(k, c, k.tasks[c]); TaskSuspendPlaced(k, false, InBlock); }
      case Waited(g) => if c != 0 && g < |k.tasks| { TaskWaitPlaced(k, g); }
      case Slept(t) => if c != 0 { TaskSleepPlaced(k, t); }
      case Exited(code) => if c != 0 { TaskExitPlaced(k, code); }
    }
  }

  lemma DispatchPlaced(k: Kernel, choice: nat, requests: nat)
    requires Placed(k) && k.phase != Stopped
    ensures k.current == 0 && k.phase == Choosing ==> Placed(Dispatch(k, choice, requests))
  {
    if k.current == 0 && k.phase == Choosing {
      var k1 := Dispatch(k, choice, requests);
      if k1.current != 0 {
        TaskRunPlaced(k, k.ready[choice]);
      } else if choice < |k.ready| && k1.phase.Sweeping? {
        TaskRunPlaced(k, k.ready[choice]);
      } else {
        forall u | 1 <= u < |k1.tasks|
          ensures InPlace(k1, u)
        {
          assert InPlace(k, u);
        }
      }
    }
  }

  /** Fields that place nobody may change freely. */
  lemma SetNonPlacing(k: Kernel, c: nat, tcb: Tcb)
    requires Placed(k) && c < |k.tasks| && tcb.status == k.tasks[c].status
    requires tcb.sleeping == k.tasks[c].sleeping && tcb.quantum >= 1
    ensures Placed(k.(tasks := k.tasks[c := tcb]))
  {
    var k1 := k.(tasks := k.tasks[c := tcb]);
    forall u | 1 <= u < |k1.tasks|
      ensures InPlace(k1, u)
    {
      assert InPlace(k, u);
    }
  }

  lemma QuantumFree(k: Kernel, c: nat)
    requires Placed(k) && c < |k.tasks|
    ensures Placed(k.(tasks := k.tasks[c := k.tasks[c].(quantum := 1)]))
  {
    SetNonPlacing(k, c, k.tasks[c].(quantum := 1));
  }

  lemma TaskWaitPlaced(k: Kernel, g: nat)
    requires Placed(k) && k.current != 0 && g < |k.tasks|
    ensures Placed(TaskWait(k, g))
  {
    if g != 0 && k.tasks[g].status != Finished {
      var c := k.current;
      assert InPlace(k, c);
      var tcb := k.tasks[c].(target := g);
      SetNonPlacing(k, c, tcb);
      var k1 := k.(tasks := k.tasks[c := tcb]);
      assert k1.tasks[c := k1.tasks[c].(sleeping := false)] == k1.tasks;
      TaskSuspendPlaced(k1, false, InWait(g));
    }
  }

  lemma TaskSleepPlaced(k: Kernel, t: int)
    requires Placed(k) && k.current != 0
    ensures Placed(TaskSleep(k, t))
  {
    var c := k.current;
    assert InPlace(k, c);
    var tcb := k.tasks[c].(wakeUp := k.clock + t);
    SetNonPlacing(k, c, tcb);
    var k1 := k.(tasks := k.tasks[c := tcb.(sleeping := true)]);
    assert k1.tasks[c := k1.tasks[c].(sleeping := false)] == k.tasks[c := tcb];
    TaskSuspendPlaced(k1, true, InSleep(k.clock + t));
  }

  function Run(k: Kernel, es: seq<Event>): (r: Kernel)
    requires Placed(k)
    ensures Placed(r)
    decreases |es|
  {
    if |es| == 0 then k
    else
      StepPlaced(k, es[0]);
      Run(Step(k, es[0]), es[1..])
  }
}
