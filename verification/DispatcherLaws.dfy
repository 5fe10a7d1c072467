/** What every run of the dispatcher keeps: activation counts, finality of task_exit, the value of
    task_wait, the wake-up time of task_sleep and the bound on how long a sleeper is passed over. */
module DispatcherLaws {
  import opened Queues
  import opened Sweeps
  import opened Dispatcher

  // ----- activation counts -----

  /** Activations of all tasks but the kernel. */
  function Activations(tasks: seq<Tcb>): nat {
    if |tasks| <= 1 then 0
    else Activations(tasks[..|tasks| - 1]) + tasks[|tasks| - 1].activations
  }

  lemma {:induction false} ActivationsUpdate(tasks: seq<Tcb>, t: nat, tcb: Tcb)
    requires t < |tasks|
    ensures t == 0 ==> Activations(tasks[t := tcb]) == Activations(tasks)
    ensures t != 0 ==> Activations(tasks[t := tcb]) == Activations(tasks) - tasks[t].activations + tcb.activations
    decreases |tasks|
  {
    if |tasks| > 1 {
      var n := |tasks| - 1;
      if t == n {
        assert tasks[t := tcb][..n] == tasks[..n];
      } else {
        assert tasks[t := tcb][..n] == tasks[..n][t := tcb];
        ActivationsUpdate(tasks[..n], t, tcb);
      }
    }
  }

  lemma {:induction false} ActivationsSame(a: seq<Tcb>, b: seq<Tcb>)
    requires |a| == |b| && forall t :: 0 <= t < |a| ==> a[t].activations == b[t].activations
    ensures Activations(a) == Activations(b)
    decreases |a|
  {
    if |a| > 1 {
      ActivationsSame(a[..|a| - 1], b[..|b| - 1]);
    }
  }

  /** The kernel is one activation ahead of the tasks while it runs, and level while a task runs. */
  ghost predicate Balanced(k: Kernel) {
    && |k.tasks| > 0
    && Activations(k.tasks) + (if k.current == 0 then 1 else 0) == k.tasks[0].activations
  }

  lemma ToKernelBalanced(k: Kernel)
    requires |k.tasks| > 0 && Activations(k.tasks) == k.tasks[0].activations
    ensures Balanced(ToKernel(k))
  {
    ActivationsUpdate(k.tasks, 0, k.tasks[0].(activations := k.tasks[0].activations + 1));
  }

  lemma TaskYieldBalanced(k: Kernel)
    requires k.current < |k.tasks| && Balanced(k)
    ensures Balanced(TaskYield(k))
  {
    var c := k.current;
    var tasks := k.tasks[c := k.tasks[c].(quantum := QUANTUM, status := Ready)];
    ActivationsSame(k.tasks, tasks);
    if c != 0 {
      ToKernelBalanced(k.(tasks := tasks, ready := k.ready + [c]));
    }
  }

  lemma TaskSuspendBalanced(k: Kernel, asleep: bool, call: Call)
    requires 0 < k.current < |k.tasks| && Balanced(k)
    ensures Balanced(TaskSuspend(k, asleep, call))
  {
    var c := k.current;
    var k1 := k.(tasks := k.tasks[c := k.tasks[c].(status := Suspended, call := call)]);
    ActivationsSame(k.tasks, k1.tasks);
    ToKernelBalanced(if asleep then k1.(sleeping := k1.sleeping + [c]) else k1.(suspended := k1.suspended + [c]));
  }

  lemma TickBalanced(k: Kernel)
    requires k.current < |k.tasks| && Balanced(k)
    ensures Balanced(Tick(k))
  {
    var c := k.current;
    var left := k.tasks[c].quantum - 1;
    var k1 := k.(clock := k.clock + 1, tasks := k.tasks[c := k.tasks[c].(quantum := left)]);
    ActivationsSame(k.tasks, k1.tasks);
    if left == 0 {
      TaskYieldBalanced(k1);
    }
  }

  lemma DispatchBalanced(k: Kernel, choice: nat, requests: nat)
    requires Placed(k) && Balanced(k) && k.current == 0
    ensures Balanced(Dispatch(k, choice, requests))
  {
    if choice < |k.ready| {
      var t := k.ready[choice];
      assert t in k.ready;
      ActivationsUpdate(k.tasks, t, k.tasks[t].(quantum := QUANTUM, activations := k.tasks[t].activations + 1,
                                               status := Running, call := NoCall));
    }
  }

  lemma WaitBalanced(k: Kernel, g: nat)
    requires 0 < k.current < |k.tasks| && g < |k.tasks| && Balanced(k)
    ensures Balanced(TaskWait(k, g))
  {
    var c := k.current;
    var tasks := k.tasks[c := k.tasks[c].(target := g)];
    ActivationsSame(k.tasks, tasks);
    TaskSuspendBalanced(k.(tasks := tasks), false, InWait(g));
  }

  lemma SleepBalanced(k: Kernel, t: int)
    requires 0 < k.current < |k.tasks| && Balanced(k)
    ensures Balanced(TaskSleep(k, t))
  {
    var c := k.current;
    var tasks := k.tasks[c := k.tasks[c].(sleeping := true, wakeUp := k.clock + t)];
    ActivationsSame(k.tasks, tasks);
    TaskSuspendBalanced(k.(tasks := tasks), true, InSleep(k.clock + t));
  }

  lemma ExitBalanced(k: Kernel, code: int)
    requires 0 < k.current < |k.tasks| && Balanced(k)
    ensures Balanced(TaskExit(k, code))
  {
    var c := k.current;
    var tasks := k.tasks[c := k.tasks[c].(status := Finished, exitCode := code)];
    var hit := WaitersOf(tasks, c);
    var woken := Woken(k.suspended, hit);
    var k1 := k.(tasks := ReleaseWaiters(tasks, woken, code), ready := k.ready + woken,
                 suspended := Kept(k.suspended, hit), finished := k.finished + [c]);
    ActivationsSame(k.tasks, k1.tasks);
    ToKernelBalanced(k1);
  }

  lemma StepBalanced(k: Kernel, e: Event)
    requires Placed(k) && Balanced(k)
    ensures Balanced(Step(k, e))
  {
    if k.phase != Stopped {
      var c := k.current;
      match e
      case Ticked => TickBalanced(k);
      case Awoken(t) => if t < |k.tasks| { ActivationsSame(k.tasks, TaskAwake(k, t).tasks); }
      case Created => assert (k.tasks + [NewTcb()])[..|k.tasks|] == k.tasks;
      case Dispatched(choice, requests) => if c == 0 { DispatchBalanced(k, choice, requests); }
      case Swept =>
        if c == 0 && k.phase.Sweeping? { ActivationsSame(k.tasks, SweepPass(k, k.phase.chosen).tasks); }
      case Yielded => if c != 0 { TaskYieldBalanced(k); }
      case Blocked => if c != 0 { TaskSuspendBalanced(k, false, InBlock); }
      case Waited(g) => if c != 0 && g < |k.tasks| { WaitBalanced(k, g); }
      case Slept(t) => if c != 0 { SleepBalanced(k, t); }
      case Exited(code) => if c != 0 { ExitBalanced(k, code); }
    }
  }

  /** Over every run from boot, each task is in the one place its status names, no assertion of the
      code fails, and the activation counts balance. */
  lemma {:induction false} EveryRunPlacedAndBalanced(k: Kernel, es: seq<Event>)
    requires Placed(k) && Balanced(k)
    ensures Placed(Run(k, es)) && Balanced(Run(k, es))
    decreases |es|
  {
    if |es| > 0 {
      StepPlaced(k, es[0]);
      StepBalanced(k, es[0]);
      EveryRunPlacedAndBalanced(Step(k, es[0]), es[1..]);
    }
  }

  lemma RunFromBoot(es: seq<Event>)
    ensures Placed(Boot()) && Balanced(Boot())
    ensures Placed(Run(Boot(), es)) && Balanced(Run(Boot(), es)) && !Run(Boot(), es).fault
  {
    BootPlaced();
    assert Boot().tasks[..1] == [Boot().tasks[0]];
    EveryRunPlacedAndBalanced(Boot(), es);
  }

  // ----- a finished task -----

  lemma FinishedStays(k: Kernel, e: Event, t: nat)
    requires Placed(k) && 0 < t < |k.tasks| && k.tasks[t].status == Finished
    ensures var k1 := Step(k, e);
      t < |k1.tasks| && k1.tasks[t].status == Finished && k1.tasks[t].exitCode == k.tasks[t].exitCode &&
      k1.current != t
  {
    assert InPlace(k, t);
    StepPlaced(k, e);
    if k.phase != Stopped {
      match e
      case Exited(code) =>
        if k.current != 0 {
          var hit := WaitersOf(k.tasks[k.current := k.tasks[k.current].(status := Finished, exitCode := code)], k.current);
          MemberOfSweep(k.suspended, hit, t);
        }
      case Swept => MemberOfSweep(k.sleeping, Expired(k.tasks, k.clock), t);
      case Dispatched(choice, requests) =>
        assert choice < |k.ready| ==> k.ready[choice] in k.ready;
      case _ =>
    }
  }

  /** Once finished, a task never runs again and its exit code never changes. */
  lemma {:induction false} FinishedForEver(k: Kernel, es: seq<Event>, t: nat)
    requires Placed(k) && 0 < t < |k.tasks| && k.tasks[t].status == Finished
    ensures var r := Run(k, es);
      t < |r.tasks| && r.tasks[t].status == Finished && r.tasks[t].exitCode == k.tasks[t].exitCode &&
      r.current != t
    decreases |es|
  {
    assert InPlace(k, t);
    if |es| > 0 {
      StepPlaced(k, es[0]);
      FinishedStays(k, es[0], t);
      FinishedForEver(Step(k, es[0]), es[1..], t);
    }
  }

  // ----- task_wait and task_sleep -----

  /** What the call a task is inside of says about the state. */
  ghost predicate CallOk(k: Kernel, t: nat)
    requires t < |k.tasks|
  {
    var tcb := k.tasks[t];
    && (match tcb.call
        case NoCall => true
        case InBlock => !tcb.sleeping
        case InWait(g) =>
          && tcb.target == g && 0 < g < |k.tasks| && !tcb.sleeping
          && (tcb.status == Suspended ||
              (tcb.status == Ready && k.tasks[g].status == Finished && tcb.targetExit == k.tasks[g].exitCode))
        case InSleep(until) =>
          && tcb.wakeUp == until
          && ((tcb.status == Suspended && tcb.sleeping) || (tcb.status == Ready && k.clock >= until)))
    && (tcb.status == Suspended ==> tcb.call != NoCall)
    && (tcb.sleeping ==> tcb.call.InSleep?)
    && (tcb.status == Running ==> tcb.call == NoCall)
    && (tcb.target != 0 ==> tcb.target < |k.tasks| && (tcb.call == InWait(tcb.target) || HasResult(k, t)))
  }

  /** The task last waited for has finished, and target_exit_code is its exit code. */
  predicate HasResult(k: Kernel, t: nat)
    requires t < |k.tasks|
  {
    var g := k.tasks[t].target;
    g < |k.tasks| && k.tasks[g].status == Finished && k.tasks[t].targetExit == k.tasks[g].exitCode
  }

  ghost predicate CallsOk(k: Kernel) {
    forall t :: 1 <= t < |k.tasks| ==> CallOk(k, t)
  }

  /** What a caller of task_awake can see in the records of a suspended task and of the task it last
      waited for: a sleeper whose time has come; or a task that has waited for nobody, or that has
      been handed the result of its last wait, which is also what a task blocked elsewhere looks like. */
  predicate MayWake(k: Kernel, t: nat)
    requires t < |k.tasks|
  {
    if k.tasks[t].sleeping then k.clock >= k.tasks[t].wakeUp else k.tasks[t].target == 0 || HasResult(k, t)
  }

  /** The event is not a task_awake that cuts a task_wait or a task_sleep short. */
  predicate Timely(k: Kernel, e: Event) {
    k.phase != Stopped && e.Awoken? && 0 < e.task < |k.tasks| && k.tasks[e.task].status == Suspended ==>
      MayWake(k, e.task)
  }

  /** What a task that is ready to return from its call has been promised: the exit code of a finished
      target, or that its wake-up time has come. */
  ghost predicate Promise(k: Kernel, t: nat)
    requires t < |k.tasks|
  {
    k.tasks[t].status == Ready ==>
      match k.tasks[t].call
      case InWait(g) => g < |k.tasks| && k.tasks[g].status == Finished && k.tasks[t].targetExit == k.tasks[g].exitCode
      case InSleep(until) => k.clock >= until
      case _ => true
  }

  ghost predicate Promises(k: Kernel) {
    forall t :: 1 <= t < |k.tasks| ==> Promise(k, t)
  }

  ghost predicate FinalityKept(k: Kernel, k1: Kernel) {
    && |k.tasks| <= |k1.tasks| && k.clock <= k1.clock
    && (forall g :: 0 < g < |k.tasks| && k.tasks[g].status == Finished ==>
          k1.tasks[g].status == Finished && k1.tasks[g].exitCode == k.tasks[g].exitCode)
  }

  lemma StepKeepsFinality(k: Kernel, e: Event)
    requires Placed(k)
    ensures FinalityKept(k, Step(k, e))
  {
    forall g | 0 < g < |k.tasks| && k.tasks[g].status == Finished
      ensures Step(k, e).tasks[g].status == Finished && Step(k, e).tasks[g].exitCode == k.tasks[g].exitCode
    {
      FinishedStays(k, e, g);
    }
    if k.phase != Stopped && e.Dispatched? && e.choice < |k.ready| {
      assert k.ready[e.choice] in k.ready;
    }
  }

  /** A task whose call-related fields do not change keeps its part of the invariant. */
  lemma CallOkFrame(k: Kernel, k1: Kernel, u: nat)
    requires u < |k.tasks| && FinalityKept(k, k1) && CallOk(k, u)
    requires k1.tasks[u] == k.tasks[u].(quantum := k1.tasks[u].quantum, activations := k1.tasks[u].activations)
    ensures CallOk(k1, u)
  {
  }

  /** A step that changes the call-related fields of at most one task, c. */
  lemma OneTaskCallsOk(k: Kernel, k1: Kernel, c: nat)
    requires CallsOk(k) && FinalityKept(k, k1) && |k1.tasks| == |k.tasks| && c < |k.tasks|
    requires forall u :: 1 <= u < |k.tasks| && u != c ==> k1.tasks[u] == k.tasks[u]
    requires c != 0 ==> CallOk(k1, c)
    ensures CallsOk(k1)
  {
    forall u | 1 <= u < |k1.tasks|
      ensures CallOk(k1, u)
    {
      if u != c {
        CallOkFrame(k, k1, u);
      }
    }
  }

  lemma TickCallsOk(k: Kernel)
    requires Placed(k) && CallsOk(k) && FinalityKept(k, Tick(k))
    ensures CallsOk(Tick(k))
  {
    var c := k.current;
    assert c != 0 ==> CallOk(k, c) && InPlace(k, c);
    OneTaskCallsOk(k, Tick(k), c);
  }

  lemma CreateCallsOk(k: Kernel)
    requires Placed(k) && CallsOk(k) && FinalityKept(k, TaskCreate(k))
    ensures CallsOk(TaskCreate(k))
  {
    var k1 := TaskCreate(k);
    forall u | 1 <= u < |k1.tasks|
      ensures CallOk(k1, u)
    {
      if u < |k.tasks| {
        CallOkFrame(k, k1, u);
      }
    }
  }

  lemma DispatchCallsOk(k: Kernel, choice: nat, requests: nat)
    requires Placed(k) && CallsOk(k) && k.current == 0 && FinalityKept(k, Dispatch(k, choice, requests))
    ensures CallsOk(Dispatch(k, choice, requests))
  {
    if choice < |k.ready| {
      var t := k.ready[choice];
      assert t in k.ready;
      assert CallOk(k, t) && InPlace(k, t);
      OneTaskCallsOk(k, Dispatch(k, choice, requests), t);
    } else {
      OneTaskCallsOk(k, Dispatch(k, choice, requests), 0);
    }
  }

  /** The running task leaves the processor. */
  lemma LeaveCallsOk(k: Kernel, k1: Kernel, e: Event)
    requires Placed(k) && CallsOk(k) && k.phase != Stopped && k1 == Step(k, e) && FinalityKept(k, k1) && k.current != 0
    requires e.Yielded? || e.Blocked? || e.Slept?
    ensures CallsOk(k1)
  {
    var c := k.current;
    assert CallOk(k, c) && InPlace(k, c);
    OneTaskCallsOk(k, k1, c);
  }

  lemma WaitCallsOk(k: Kernel, g: nat)
    requires Placed(k) && CallsOk(k) && k.current != 0 && g < |k.tasks| && FinalityKept(k, TaskWait(k, g))
    ensures CallsOk(TaskWait(k, g))
  {
    var c := k.current;
    assert CallOk(k, c) && InPlace(k, c);
    OneTaskCallsOk(k, TaskWait(k, g), c);
  }

  lemma AwakeCallsOk(k: Kernel, t: nat)
    requires Placed(k) && CallsOk(k) && k.phase != Stopped && t < |k.tasks| && FinalityKept(k, TaskAwake(k, t))
    ensures CallsOk(TaskAwake(k, t)) <==> Timely(k, Awoken(t))
  {
    if t != 0 && k.tasks[t].status == Suspended {
      var k1 := TaskAwake(k, t);
      assert CallOk(k, t) && InPlace(k, t);
      assert CallOk(k1, t) <==> Timely(k, Awoken(t));
      if Timely(k, Awoken(t)) {
        OneTaskCallsOk(k, k1, t);
      }
    }
  }

  /** A task_awake that is not timely breaks its task's promise there and then. */
  lemma UntimelyBreaks(k: Kernel, e: Event)
    requires Placed(k) && CallsOk(k) && !Timely(k, e)
    ensures !Promises(Step(k, e))
  {
    assert CallOk(k, e.task) && InPlace(k, e.task);
    assert !Promise(Step(k, e), e.task);
  }

  lemma CallsOkPromises(k: Kernel)
    requires CallsOk(k)
    ensures Promises(k)
  {
    forall t | 1 <= t < |k.tasks|
      ensures Promise(k, t)
    {
      assert CallOk(k, t);
    }
  }

  /** The calls stay consistent across a step exactly when the step is timely. */
  lemma StepCallsOk(k: Kernel, e: Event)
    requires Placed(k) && CallsOk(k)
    ensures CallsOk(Step(k, e)) <==> Timely(k, e)
  {
    if k.phase != Stopped {
      StepKeepsFinality(k, e);
      match e
      case Ticked => TickCallsOk(k);
      case Awoken(t) => if t < |k.tasks| { AwakeCallsOk(k, t); }
      case Created => CreateCallsOk(k);
      case Dispatched(choice, requests) =>
        if k.current == 0 && k.phase == Choosing { DispatchCallsOk(k, choice, requests); }
      case Swept => if k.current == 0 && k.phase.Sweeping? { SweepCallsOk(k); }
      case Yielded => if k.current != 0 { LeaveCallsOk(k, Step(k, e), e); }
      case Blocked => if k.current != 0 { LeaveCallsOk(k, Step(k, e), e); }
      case Waited(g) => if k.current != 0 && g < |k.tasks| { WaitCallsOk(k, g); }
      case Slept(t) => if k.current != 0 { LeaveCallsOk(k, Step(k, e), e); }
      case Exited(code) => if k.current != 0 { ExitCallsOk(k, code); }
    }
  }

  /** A waiter found by the sweep of task_exit is inside a task_wait for the exiting task. */
  lemma WaiterIsWaiting(k: Kernel, t: Ptr)
    requires Placed(k) && CallsOk(k) && k.current != 0
    requires t in k.suspended && k.tasks[t].target == k.current
    ensures t < |k.tasks| && k.tasks[t].call == InWait(k.current)
  {
    assert CallOk(k, t) && InPlace(k, t);
    assert InPlace(k, k.current);
  }

  lemma ExitCallsOk(k: Kernel, code: int)
    requires Placed(k) && CallsOk(k) && k.current != 0
    ensures CallsOk(TaskExit(k, code))
  {
    var c := k.current;
    var tasks := k.tasks[c := k.tasks[c].(status := Finished, exitCode := code)];
    var hit := WaitersOf(tasks, c);
    var woken := Woken(k.suspended, hit);
    var k1 := TaskExit(k, code);
    assert InPlace(k, c) && CallOk(k, c);
    forall u | 1 <= u < |k1.tasks|
      ensures CallOk(k1, u)
    {
      assert CallOk(k, u) && InPlace(k, u);
      MemberOfSweep(k.suspended, hit, u);
      SweepPartitions(k.suspended, hit);
      if u in woken {
        WaiterIsWaiting(k, u);
      }
      if k.tasks[u].target != 0 {
        MemberOfSweep(k.suspended, hit, k.tasks[u].target);
        assert InPlace(k, k.tasks[u].target);
      }
    }
  }

  lemma SweepCallsOk(k: Kernel)
    requires Placed(k) && CallsOk(k) && k.current == 0 && k.phase.Sweeping?
    ensures CallsOk(SweepPass(k, k.phase.chosen))
  {
    var hit := Expired(k.tasks, k.clock);
    var k1 := SweepPass(k, k.phase.chosen);
    SweepPartitions(k.sleeping, hit);
    forall u | 1 <= u < |k1.tasks|
      ensures CallOk(k1, u)
    {
      assert CallOk(k, u) && InPlace(k, u);
      MemberOfSweep(k.sleeping, hit, u);
      if k.tasks[u].target != 0 {
        MemberOfSweep(k.sleeping, hit, k.tasks[u].target);
        assert InPlace(k, k.tasks[u].target);
      }
    }
  }

  ghost predicate TimelyRun(k: Kernel, es: seq<Event>)
    requires Placed(k)
    decreases |es|
  {
    |es| == 0 || (Timely(k, es[0]) && (StepPlaced(k, es[0]); TimelyRun(Step(k, es[0]), es[1..])))
  }

  ghost predicate PromisesThroughout(k: Kernel, es: seq<Event>)
    requires Placed(k)
    decreases |es|
  {
    Promises(k) && (|es| == 0 || (StepPlaced(k, es[0]); PromisesThroughout(Step(k, es[0]), es[1..])))
  }

  lemma {:induction false} TimelyRunIff(k: Kernel, es: seq<Event>)
    requires Placed(k) && CallsOk(k)
    ensures TimelyRun(k, es) <==> PromisesThroughout(k, es)
    decreases |es|
  {
    CallsOkPromises(k);
    if |es| > 0 {
      StepPlaced(k, es[0]);
      if Timely(k, es[0]) {
        StepCallsOk(k, es[0]);
        TimelyRunIff(Step(k, es[0]), es[1..]);
      } else {
        UntimelyBreaks(k, es[0]);
      }
    }
  }

  /** In a run from boot, at every moment every task that is ready to return from task_wait has the
      exit code of its target, which has finished, and every task that is ready to return from
      task_sleep has slept until its wake-up time, if and only if every task_awake is timely. */
  lemma WaitAndSleepReturn(es: seq<Event>)
    ensures Placed(Boot())
    ensures TimelyRun(Boot(), es) <==> PromisesThroughout(Boot(), es)
  {
    BootPlaced();
    assert CallsOk(Boot());
    TimelyRunIff(Boot(), es);
  }

  /** task_exit wakes only tasks inside a task_wait for the caller and hands them its exit code; a
      waiter it leaves suspended stood directly behind a woken one, so a sole waiter is woken. */
  lemma ExitWakesItsWaiters(k: Kernel, code: int, i: nat)
    requires Placed(k) && CallsOk(k) && k.current != 0 && i < |k.suspended|
    ensures k.suspended[i] < |k.tasks|
    ensures var c, t, k1 := k.current, k.suspended[i], TaskExit(k, code);
      && (k1.tasks[t].status == Ready ==> k.tasks[t].call == InWait(c) && k1.tasks[t].targetExit == code)
      && (k1.tasks[t].status != Ready && k.tasks[t].call == InWait(c) ==>
          i > 0 && k.suspended[i - 1] < |k.tasks| && k1.tasks[k.suspended[i - 1]].status == Ready)
      && (k.tasks[t].call == InWait(c) &&
          (forall u :: u in k.suspended && u < |k.tasks| && k.tasks[u].call == InWait(c) ==> u == t) ==>
          k1.tasks[t].status == Ready)
  {
    var c, t := k.current, k.suspended[i];
    assert t in k.suspended;
    assert InPlace(k, t) && CallOk(k, t) && InPlace(k, c);
    var tasks := k.tasks[c := k.tasks[c].(status := Finished, exitCode := code)];
    var hit := WaitersOf(tasks, c);
    SweepPartitions(k.suspended, hit);
    MemberOfSweep(k.suspended, hit, t);
    if t in Woken(k.suspended, hit) {
      WaiterIsWaiting(k, t);
    } else if k.tasks[t].call == InWait(c) {
      assert t in hit;
      LeftBehind(k.suspended, hit, i);
      assert k.suspended[i - 1] in k.suspended;
      WaiterIsWaiting(k, k.suspended[i - 1]);
      assert InPlace(k, k.suspended[i - 1]);
    }
  }

  /** Neighbours in the suspended queue that both wait for the task that exits. */
  predicate BothWait(k: Kernel, i: nat)
    requires i + 1 < |k.suspended| && k.suspended[i] < |k.tasks| && k.suspended[i + 1] < |k.tasks|
  {
    k.tasks[k.suspended[i]].target == k.current && k.tasks[k.suspended[i + 1]].target == k.current
  }

  lemma SuspendedExist(k: Kernel)
    requires Placed(k)
    ensures forall i :: 0 <= i < |k.suspended| ==> 0 < k.suspended[i] < |k.tasks|
    ensures forall i :: 0 <= i < |k.sleeping| ==> 0 < k.sleeping[i] < |k.tasks|
  {
    assert forall i :: 0 <= i < |k.suspended| ==> k.suspended[i] in k.suspended;
    assert forall i :: 0 <= i < |k.sleeping| ==> k.sleeping[i] in k.sleeping;
  }

  /** A suspended task is ready after task_exit exactly when the sweep has deleted it. */
  lemma ReadyAfterExit(k: Kernel, code: int, t: Ptr)
    requires Placed(k) && k.current != 0 && t in k.suspended
    ensures t < |k.tasks| && t != k.current
    ensures TaskExit(k, code).tasks[t].status == Ready <==> t in Woken(k.suspended, WaitersOf(k.tasks, k.current))
    ensures t in WaitersOf(k.tasks, k.current) <==> k.tasks[t].target == k.current
  {
    var c := k.current;
    assert InPlace(k, t) && InPlace(k, c);
    var tasks := k.tasks[c := k.tasks[c].(status := Finished, exitCode := code)];
    assert WaitersOf(tasks, c) == WaitersOf(k.tasks, c);
  }

  /** Which waiters task_exit wakes, from the suspended queue alone: in a stretch of neighbours that
      all wait for the caller, the first, the third, the fifth and so on. */
  lemma ExitWakesByParity(k: Kernel, code: int, i: nat)
    requires Placed(k) && k.current != 0 && i < |k.suspended|
    ensures k.suspended[i] < |k.tasks|
    ensures TaskExit(k, code).tasks[k.suspended[i]].status == Ready <==>
            Stretch(k.suspended, WaitersOf(k.tasks, k.current), i) % 2 == 1
  {
    assert k.suspended[i] in k.suspended;
    ReadyAfterExit(k, code, k.suspended[i]);
    WokenByParity(k.suspended, WaitersOf(k.tasks, k.current), i);
  }

  /** task_exit wakes all its waiters if and only if no two of them are neighbours in the queue. */
  lemma ExitWakesAllIff(k: Kernel, code: int)
    requires Placed(k) && k.current != 0
    ensures forall i :: 0 <= i < |k.suspended| ==> 0 < k.suspended[i] < |k.tasks|
    ensures (forall t :: t in k.suspended && k.tasks[t].target == k.current ==> TaskExit(k, code).tasks[t].status == Ready)
            <==> (forall i :: 0 <= i < |k.suspended| - 1 ==> !BothWait(k, i))
  {
    var s, hit := k.suspended, WaitersOf(k.tasks, k.current);
    SuspendedExist(k);
    forall t | t in s
      ensures TaskExit(k, code).tasks[t].status == Ready <==> t in Woken(s, hit)
      ensures t in hit <==> k.tasks[t].target == k.current
    {
      ReadyAfterExit(k, code, t);
    }
    AllWokenIff(s, hit);
    forall i | 0 <= i < |s| - 1
      ensures BothHit(s, hit, i) <==> BothWait(k, i)
    {
      assert s[i] in s && s[i + 1] in s;
    }
  }

  /** Other steps leave the suspended queue alone, add to it, or take one task out of it. */
  lemma SuspendedQueueChange(k: Kernel, e: Event)
    requires Placed(k) && k.phase != Stopped && !e.Exited?
    ensures var s, s1 := k.suspended, Step(k, e).suspended;
      s1 == s || s1 == s + [k.current] || (e.Awoken? && e.task in s && s1 == Remove(s, e.task))
  {
    if e.Awoken? && e.task < |k.tasks| {
      assert e.task != 0 ==> InPlace(k, e.task);
    }
    if e.Dispatched? && e.choice < |k.ready| {
      assert k.ready[e.choice] in k.ready;
    }
  }

  lemma TargetStays(k: Kernel, e: Event, t: Ptr)
    requires Placed(k) && t in k.suspended && t < |k.tasks| && k.phase != Stopped && !e.Exited?
    ensures t < |Step(k, e).tasks| && Step(k, e).tasks[t].target == k.tasks[t].target
  {
    assert InPlace(k, t);
    if e.Dispatched? && e.choice < |k.ready| {
      assert k.ready[e.choice] in k.ready;
    }
  }

  lemma LeftStays(k: Kernel, e: Event, t: Ptr)
    requires Placed(k) && t in k.suspended && t < |k.tasks| && 0 < k.tasks[t].target < |k.tasks|
    requires k.tasks[k.tasks[t].target].status == Finished && e != Awoken(t)
    ensures var k1, g := Step(k, e), k.tasks[t].target;
      t in k1.suspended && t < |k1.tasks| && k1.tasks[t].target == g < |k1.tasks| && k1.tasks[g].status == Finished
  {
    var g := k.tasks[t].target;
    FinishedStays(k, e, g);
    if k.phase != Stopped && e.Exited? {
      assert InPlace(k, g);
      if k.current != 0 {
        LeftAtExit(k, e.code, t);
      }
    } else if k.phase != Stopped {
      SuspendedQueueChange(k, e);
      TargetStays(k, e, t);
      if e.Awoken? {
        RemoveMembers(k.suspended, e.task);
      }
    }
  }

  lemma LeftAtExit(k: Kernel, code: int, t: Ptr)
    requires Placed(k) && k.current != 0 && t in k.suspended && t < |k.tasks| && k.tasks[t].target != k.current
    ensures var k1 := TaskExit(k, code);
      t in k1.suspended && k1.tasks[t].target == k.tasks[t].target
  {
    ReadyAfterExit(k, code, t);
    var c := k.current;
    var tasks := k.tasks[c := k.tasks[c].(status := Finished, exitCode := code)];
    MemberOfSweep(k.suspended, WaitersOf(tasks, c), t);
    WokenQualify(k.suspended, WaitersOf(tasks, c));
  }

  /** A waiter left behind stays suspended for ever unless somebody calls task_awake on it: its target
      has finished and never exits again. */
  lemma {:induction false} LeftBehindForEver(k: Kernel, es: seq<Event>, t: Ptr)
    requires Placed(k) && t in k.suspended && t < |k.tasks| && 0 < k.tasks[t].target < |k.tasks|
    requires k.tasks[k.tasks[t].target].status == Finished
    requires forall i :: 0 <= i < |es| ==> es[i] != Awoken(t)
    ensures t in Run(k, es).suspended
    decreases |es|
  {
    if |es| > 0 {
      StepPlaced(k, es[0]);
      LeftStays(k, es[0], t);
      LeftBehindForEver(Step(k, es[0]), es[1..], t);
    }
  }

  // ----- how long a sleeper can be passed over -----

  /** Neighbours in the sleeping queue whose wake-up time has come. */
  predicate BothExpired(k: Kernel, i: nat)
    requires i + 1 < |k.sleeping| && k.sleeping[i] < |k.tasks| && k.sleeping[i + 1] < |k.tasks|
  {
    k.clock >= k.tasks[k.sleeping[i]].wakeUp && k.clock >= k.tasks[k.sleeping[i + 1]].wakeUp
  }

  /** One sweep wakes every expired sleeper if and only if no two of them are neighbours. */
  lemma SweepWakesAllIff(k: Kernel)
    requires Placed(k) && k.current == 0 && k.phase.Sweeping?
    ensures forall i :: 0 <= i < |k.sleeping| ==> 0 < k.sleeping[i] < |k.tasks|
    ensures (forall t :: t in k.sleeping && k.clock >= k.tasks[t].wakeUp ==>
               SweepPass(k, k.phase.chosen).tasks[t].status == Ready)
            <==> (forall i :: 0 <= i < |k.sleeping| - 1 ==> !BothExpired(k, i))
  {
    var s, hit := k.sleeping, Expired(k.tasks, k.clock);
    SuspendedExist(k);
    forall t | t in s
      ensures SweepPass(k, k.phase.chosen).tasks[t].status == Ready <==> t in Woken(s, hit)
    {
      assert InPlace(k, t);
    }
    AllWokenIff(s, hit);
    forall i | 0 <= i < |s| - 1
      ensures BothHit(s, hit, i) <==> BothExpired(k, i)
    {
      assert s[i] in s && s[i + 1] in s;
    }
  }

  function SweepsDone(k: Kernel, es: seq<Event>): nat
    requires Placed(k)
    decreases |es|
  {
    if |es| == 0 then 0
    else
      StepPlaced(k, es[0]);
      (if k.current == 0 && k.phase.Sweeping? && es[0] == Swept then 1 else 0) + SweepsDone(Step(k, es[0]), es[1..])
  }

  ghost predicate AsleepThroughout(k: Kernel, es: seq<Event>, t: Ptr)
    requires Placed(k)
    decreases |es|
  {
    t in k.sleeping && (|es| == 0 || (StepPlaced(k, es[0]); AsleepThroughout(Step(k, es[0]), es[1..], t)))
  }

  /** Other steps leave the sleeping queue alone, add to it, or take one task out of it. */
  lemma SleepingQueueChange(k: Kernel, e: Event)
    requires Placed(k) && k.phase != Stopped && !e.Swept? && !e.Exited?
    ensures var s, s1 := k.sleeping, Step(k, e).sleeping;
      s1 == s || s1 == s + [k.current] || (e.Awoken? && e.task in s && s1 == Remove(s, e.task))
  {
    if e.Awoken? && e.task < |k.tasks| {
      assert e.task != 0 ==> InPlace(k, e.task);
    }
    if e.Dispatched? && e.choice < |k.ready| {
      assert k.ready[e.choice] in k.ready;
    }
  }

  lemma WakeUpTimeStays(k: Kernel, e: Event, t: Ptr)
    requires Placed(k) && t in k.sleeping && t < |k.tasks| && k.phase != Stopped && !e.Swept? && !e.Exited?
    ensures t < |Step(k, e).tasks| && Step(k, e).tasks[t].wakeUp == k.tasks[t].wakeUp && Step(k, e).clock >= k.clock
  {
    assert InPlace(k, t);
    if e.Dispatched? && e.choice < |k.ready| {
      assert k.ready[e.choice] in k.ready;
    }
  }

  lemma SleeperHolds(k: Kernel, e: Event, t: Ptr)
    requires Placed(k) && t in k.sleeping && t in Step(k, e).sleeping && k.phase != Stopped && !e.Swept? && !e.Exited?
    ensures IndexOf(Step(k, e).sleeping, t) <= IndexOf(k.sleeping, t)
  {
    SleepingQueueChange(k, e);
    IndexAfterAppend(k.sleeping, k.current, t);
    if e.Awoken? && e.task in k.sleeping {
      RemoveMembers(k.sleeping, e.task);
      if e.task != t {
        IndexAfterRemove(k.sleeping, e.task, t);
      }
    }
  }

  lemma SleeperInSweep(k: Kernel, t: Ptr)
    requires Placed(k) && t in k.sleeping && t < |k.tasks| && k.clock >= k.tasks[t].wakeUp
    requires k.current == 0 && k.phase.Sweeping? && t in SweepPass(k, k.phase.chosen).sleeping
    ensures var k1 := SweepPass(k, k.phase.chosen);
      k1.clock >= k1.tasks[t].wakeUp && IndexOf(k1.sleeping, t) < IndexOf(k.sleeping, t)
  {
    var hit := Expired(k.tasks, k.clock);
    assert t in hit;
    MemberOfSweep(k.sleeping, hit, t);
    KeptMovesForward(k.sleeping, hit, t);
  }

  lemma SleeperInExit(k: Kernel, code: int, t: Ptr)
    requires Placed(k) && k.current != 0 && t in k.sleeping && t < |k.tasks| && k.clock >= k.tasks[t].wakeUp
    ensures var k1 := TaskExit(k, code);
      k1.clock >= k1.tasks[t].wakeUp && k1.sleeping == k.sleeping
  {
    assert InPlace(k, t);
  }

  lemma SleeperElsewhere(k: Kernel, e: Event, t: Ptr)
    requires Placed(k) && k.phase != Stopped && t in k.sleeping && t < |k.tasks| && k.clock >= k.tasks[t].wakeUp
    requires t in Step(k, e).sleeping && !e.Swept? && !e.Exited?
    ensures var k1 := Step(k, e);
      t < |k1.tasks| && k1.clock >= k1.tasks[t].wakeUp && IndexOf(k1.sleeping, t) <= IndexOf(k.sleeping, t)
  {
    SleeperHolds(k, e, t);
    WakeUpTimeStays(k, e, t);
  }

  lemma SleeperAdvances(k: Kernel, e: Event, t: Ptr)
    requires Placed(k) && t in k.sleeping && t < |k.tasks| && k.clock >= k.tasks[t].wakeUp
    requires t in Step(k, e).sleeping
    ensures var k1 := Step(k, e);
      t < |k1.tasks| && k1.clock >= k1.tasks[t].wakeUp && IndexOf(k1.sleeping, t) <= IndexOf(k.sleeping, t) &&
      (k.phase != Stopped && k.current == 0 && k.phase.Sweeping? && e == Swept ==>
        IndexOf(k1.sleeping, t) < IndexOf(k.sleeping, t))
  {
    if k.phase != Stopped {
      if e.Swept? {
        if k.current == 0 && k.phase.Sweeping? {
          SleeperInSweep(k, t);
        }
      } else if e.Exited? {
        if k.current != 0 {
          SleeperInExit(k, e.code, t);
        }
      } else {
        SleeperElsewhere(k, e, t);
      }
    }
  }

  lemma {:induction false} IndexAfterAppend(s: seq<Ptr>, x: Ptr, t: Ptr)
    requires t in s
    ensures IndexOf(s + [x], t) == IndexOf(s, t)
  {
    var i, j := IndexOf(s, t), IndexOf(s + [x], t);
    assert (s + [x])[i] == t;
    assert j < |s| ==> s[j] == t;
  }

  lemma {:induction false} IndexAtMost(s: seq<Ptr>, x: Ptr, k: nat)
    requires k < |s| && s[k] == x
    ensures IndexOf(s, x) <= k
  {
  }

  lemma {:induction false} IndexAfterRemove(s: seq<Ptr>, x: Ptr, t: Ptr)
    requires Distinct(s) && t in s && x in s && t != x
    ensures IndexOf(Remove(s, x), t) <= IndexOf(s, t)
  {
    var i, j := IndexOf(s, t), IndexOf(s, x);
    var r := Without(s, j);
    IndexAtMost(r, t, if i < j then i else i - 1);
  }

  /** An expired sleeper at position p survives at most p sweeps of the dispatcher, although every
      deletion makes a sweep skip an item: by the sweep after those it has been woken. */
  lemma {:induction false} ExpiredSleeperWoken(k: Kernel, es: seq<Event>, t: Ptr)
    requires Placed(k) && t in k.sleeping && t < |k.tasks| && k.clock >= k.tasks[t].wakeUp
    requires AsleepThroughout(k, es, t)
    ensures SweepsDone(k, es) <= IndexOf(k.sleeping, t)
    decreases |es|
  {
    if |es| > 0 {
      StepPlaced(k, es[0]);
      var k1 := Step(k, es[0]);
      assert t in k1.sleeping;
      SleeperAdvances(k, es[0], t);
      ExpiredSleeperWoken(k1, es[1..], t);
    }
  }
}
