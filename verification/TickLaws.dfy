/** Time in the dispatcher: when a running task is preempted, how long a sleeper sleeps, and when the
    dispatcher stops. Times and arguments are taken from the events of a run. */
module TickLaws {
  import opened Queues
  import opened Sweeps
  import opened Dispatcher
  import opened DispatcherLaws

  function Ticks(es: seq<Event>): nat {
    if |es| == 0 then 0 else (if es[0] == Ticked then 1 else 0) + Ticks(es[1..])
  }

  // ----- the clock -----

  /** The clock counts the ticks. */
  lemma ClockStep(k: Kernel, e: Event)
    requires Placed(k) && k.phase != Stopped
    ensures Step(k, e).clock == k.clock + if e == Ticked then 1 else 0
  {
    if e.Dispatched? && e.choice < |k.ready| {
      assert k.ready[e.choice] in k.ready;
    }
  }

  lemma {:induction false} ClockCounts(k: Kernel, es: seq<Event>)
    requires Placed(k) && Run(k, es).phase != Stopped
    ensures Run(k, es).clock == k.clock + Ticks(es)
    decreases |es|
  {
    if |es| > 0 {
      StepPlaced(k, es[0]);
      if k.phase == Stopped {
        StoppedForEver(k, es);
      }
      ClockStep(k, es[0]);
      ClockCounts(Step(k, es[0]), es[1..]);
    }
  }

  lemma {:induction false} StoppedForEver(k: Kernel, es: seq<Event>)
    requires Placed(k) && k.phase == Stopped
    ensures Run(k, es) == k
    decreases |es|
  {
    if |es| > 0 {
      StepPlaced(k, es[0]);
      StoppedForEver(k, es[1..]);
    }
  }

  // ----- the quantum -----

  /** The event is not a call of the running task. */
  predicate NoCallMade(e: Event) {
    !e.Yielded? && !e.Blocked? && !e.Waited? && !e.Slept? && !e.Exited?
  }

  /** task_run gives the processor and a full quantum to the task that was chosen. */
  lemma DispatchRuns(k: Kernel, choice: nat, requests: nat)
    requires Placed(k) && k.current == 0 && k.phase == Choosing && choice < |k.ready|
    requires |k.ready| > 1 || |k.sleeping| > 0 || requests > 0
    ensures var c, k1 := k.ready[choice], Step(k, Dispatched(choice, requests));
      && c != 0 && c < |k1.tasks| && k1.current == c && k1.tasks[c].status == Running && k1.tasks[c].quantum == QUANTUM
      && k1.ready == Remove(k.ready, c)
  {
    assert k.ready[choice] in k.ready;
  }

  /** A tick takes one from the quantum of the running task; nothing else but its own calls touches it. */
  lemma RunningStep(k: Kernel, e: Event, c: nat)
    requires Placed(k) && k.current == c != 0 && NoCallMade(e) && (e == Ticked ==> k.tasks[c].quantum > 1)
    ensures var k1 := Step(k, e);
      c < |k1.tasks| && k1.current == c && k1.tasks[c].status == Running &&
      k1.tasks[c].quantum == k.tasks[c].quantum - if e == Ticked then 1 else 0
  {
    assert InPlace(k, c);
  }

  lemma {:induction false} StillRunning(k: Kernel, es: seq<Event>, c: nat)
    requires Placed(k) && k.current == c != 0 && Ticks(es) < k.tasks[c].quantum
    requires forall i :: 0 <= i < |es| ==> NoCallMade(es[i])
    ensures var r := Run(k, es);
      c < |r.tasks| && r.current == c && r.tasks[c].status == Running && r.tasks[c].quantum == k.tasks[c].quantum - Ticks(es)
    decreases |es|
  {
    assert InPlace(k, c);
    if |es| > 0 {
      StepPlaced(k, es[0]);
      RunningStep(k, es[0], c);
      StillRunning(Step(k, es[0]), es[1..], c);
    }
  }

  /** The tick that uses up the quantum puts the running task at the end of the ready queue. */
  lemma LastTick(k: Kernel)
    requires Placed(k) && k.current != 0 && k.tasks[k.current].quantum == 1
    ensures var k1 := Step(k, Ticked);
      && k1.current == 0 && k1.ready == k.ready + [k.current] && |k1.tasks| == |k.tasks|
      && k1.tasks[k.current].status == Ready
  {
    assert InPlace(k, k.current);
  }

  /** A task that was just dispatched and makes no call is still running after fewer ticks than the
      quantum has, whatever else happens; with the last of them it is preempted. */
  lemma PreemptedByItsQuantum(k: Kernel, choice: nat, requests: nat, es: seq<Event>)
    requires Placed(k) && k.current == 0 && k.phase == Choosing && choice < |k.ready|
    requires |k.ready| > 1 || |k.sleeping| > 0 || requests > 0
    requires Ticks(es) < QUANTUM && forall i :: 0 <= i < |es| ==> NoCallMade(es[i])
    ensures Placed(Step(k, Dispatched(choice, requests)))
    ensures var c, r := k.ready[choice], Run(Step(k, Dispatched(choice, requests)), es);
      && r.current == c < |r.tasks| && r.tasks[c].status == Running
      && (Ticks(es) == QUANTUM - 1 ==>
            var r1 := Step(r, Ticked);
            r1.current == 0 && r1.ready == r.ready + [c] && c < |r1.tasks| && r1.tasks[c].status == Ready)
  {
    StepPlaced(k, Dispatched(choice, requests));
    DispatchRuns(k, choice, requests);
    var k1 := Step(k, Dispatched(choice, requests));
    StillRunning(k1, es, k.ready[choice]);
    if Ticks(es) == QUANTUM - 1 {
      LastTick(Run(k1, es));
    }
  }

  /** A tick while the kernel runs never queues the kernel, and the kernel goes on with a full quantum when
      its own is used up. */
  lemma KernelTick(k: Kernel)
    requires Placed(k) && k.current == 0 && k.phase != Stopped
    ensures var k1 := Step(k, Ticked);
      && k1.current == 0 && k1.ready == k.ready && k1.suspended == k.suspended && k1.sleeping == k.sleeping
      && |k1.tasks| == |k.tasks| && k1.phase == k.phase && 0 !in k1.ready
      && k1.tasks[0].quantum == (if k.tasks[0].quantum == 1 then QUANTUM else k.tasks[0].quantum - 1)
      && k1.tasks[0].activations == k.tasks[0].activations
  {
  }

  // ----- task_sleep -----

  /** Asleep, due at w. */
  ghost predicate Due(k: Kernel, c: nat, w: int) {
    c in k.sleeping && c < |k.tasks| && k.tasks[c].wakeUp == w && k.tasks[c].sleeping
  }

  /** task_sleep(t) at clock T puts the caller to sleep at once, due at T + t. */
  lemma FallsAsleep(k: Kernel, t: int)
    requires Placed(k) && k.current != 0
    ensures Due(Step(k, Slept(t)), k.current, k.clock + t) && Step(k, Slept(t)).sleeping == k.sleeping + [k.current]
    ensures Step(k, Slept(t)).clock == k.clock && Step(k, Slept(t)).current == 0
  {
  }

  lemma DueInSweep(k: Kernel, c: nat, w: int)
    requires Placed(k) && Due(k, c, w) && k.current == 0 && k.phase.Sweeping?
    ensures c in SweepPass(k, k.phase.chosen).sleeping ==> Due(SweepPass(k, k.phase.chosen), c, w)
    ensures k.clock < w ==> c in SweepPass(k, k.phase.chosen).sleeping
  {
    var hit := Expired(k.tasks, k.clock);
    MemberOfSweep(k.sleeping, hit, c);
    WokenQualify(k.sleeping, hit);
  }

  lemma DueInExit(k: Kernel, c: nat, w: int, code: int)
    requires Placed(k) && Due(k, c, w) && k.current != 0
    ensures Due(TaskExit(k, code), c, w)
  {
    assert InPlace(k, c);
    var tasks := k.tasks[k.current := k.tasks[k.current].(status := Finished, exitCode := code)];
    MemberOfSweep(k.suspended, WaitersOf(tasks, k.current), c);
  }

  lemma DueElsewhere(k: Kernel, e: Event, c: nat, w: int)
    requires Placed(k) && Due(k, c, w) && k.phase != Stopped && !e.Swept? && !e.Exited? && e != Awoken(c)
    ensures Due(Step(k, e), c, w)
  {
    assert InPlace(k, c);
    SleepingQueueChange(k, e);
    WakeUpTimeStays(k, e, c);
    if e.Awoken? {
      RemoveMembers(k.sleeping, e.task);
    }
    if e.Dispatched? && e.choice < |k.ready| {
      assert k.ready[e.choice] in k.ready;
    }
  }

  /** No timely event wakes a sleeper that is not due. */
  lemma DueStep(k: Kernel, e: Event, c: nat, w: int)
    requires Placed(k) && Due(k, c, w) && Timely(k, e)
    ensures k.clock < w || c in Step(k, e).sleeping ==> Due(Step(k, e), c, w)
  {
    assert InPlace(k, c);
    if k.phase != Stopped {
      if e.Swept? {
        if k.current == 0 && k.phase.Sweeping? {
          DueInSweep(k, c, w);
        }
      } else if e.Exited? {
        if k.current != 0 {
          DueInExit(k, c, w, e.code);
        }
      } else if e != Awoken(c) {
        DueElsewhere(k, e, c, w);
      } else {
        RemoveMembers(k.sleeping, c);
      }
    }
  }

  lemma {:induction false} StaysAsleep(k: Kernel, es: seq<Event>, c: nat, w: int)
    requires Placed(k) && Due(k, c, w) && TimelyRun(k, es) && Run(k, es).clock < w
    ensures Due(Run(k, es), c, w)
    decreases |es|
  {
    if |es| > 0 {
      StepPlaced(k, es[0]);
      ClockGrows(k, es);
      DueStep(k, es[0], c, w);
      StaysAsleep(Step(k, es[0]), es[1..], c, w);
    }
  }

  lemma {:induction false} ClockGrows(k: Kernel, es: seq<Event>)
    requires Placed(k)
    ensures k.clock <= Run(k, es).clock
    decreases |es|
  {
    if |es| > 0 {
      StepPlaced(k, es[0]);
      if k.phase != Stopped {
        ClockStep(k, es[0]);
      }
      ClockGrows(Step(k, es[0]), es[1..]);
    }
  }

  lemma {:induction false} DueWhileAsleep(k: Kernel, es: seq<Event>, c: nat, w: int)
    requires Placed(k) && Due(k, c, w) && TimelyRun(k, es) && AsleepThroughout(k, es, c)
    ensures Due(Run(k, es), c, w)
    decreases |es|
  {
    if |es| > 0 {
      StepPlaced(k, es[0]);
      assert c in Step(k, es[0]).sleeping;
      DueStep(k, es[0], c, w);
      DueWhileAsleep(Step(k, es[0]), es[1..], c, w);
    }
  }

  /** A task that calls task_sleep(t) at clock T is in the sleeping queue until the clock has reached
      T + t, in every run whose task_awake calls are timely. */
  lemma SleepsUntil(k: Kernel, t: int, es: seq<Event>)
    requires Placed(k) && k.current != 0
    requires Placed(Step(k, Slept(t))) && TimelyRun(Step(k, Slept(t)), es)
    ensures var r := Run(Step(k, Slept(t)), es);
      r.clock < k.clock + t ==> k.current in r.sleeping && k.current < |r.tasks| && r.tasks[k.current].status == Suspended
  {
    FallsAsleep(k, t);
    var k1 := Step(k, Slept(t));
    if Run(k1, es).clock < k.clock + t {
      StaysAsleep(k1, es, k.current, k.clock + t);
      assert InPlace(Run(k1, es), k.current);
    }
  }

  /** From then on it is overdue, and if it is at position p of the sleeping queue at most p sweeps of the
      dispatcher pass over it. */
  lemma WokenWhenDue(k: Kernel, t: int, es: seq<Event>, more: seq<Event>)
    requires Placed(k) && k.current != 0
    requires Placed(Step(k, Slept(t))) && TimelyRun(Step(k, Slept(t)), es)
    requires AsleepThroughout(Step(k, Slept(t)), es, k.current)
    requires Run(Step(k, Slept(t)), es).clock >= k.clock + t
    requires AsleepThroughout(Run(Step(k, Slept(t)), es), more, k.current)
    ensures var r := Run(Step(k, Slept(t)), es);
      SweepsDone(r, more) <= IndexOf(r.sleeping, k.current)
  {
    FallsAsleep(k, t);
    DueWhileAsleep(Step(k, Slept(t)), es, k.current, k.clock + t);
    ExpiredSleeperWoken(Run(Step(k, Slept(t)), es), more, k.current);
  }

  // ----- the end of the dispatcher -----

  /** The loop ends exactly when nobody sleeps, no disk request is open and at most one task is ready,
      which is the disk manager. */
  lemma StopsIff(k: Kernel, e: Event)
    requires Placed(k) && k.phase != Stopped
    ensures Step(k, e).phase == Stopped <==>
            k.current == 0 && k.phase == Choosing && e.Dispatched? && e.requests == 0 && k.sleeping == [] && |k.ready| <= 1
  {
  }

  ghost predicate Idle(k: Kernel) {
    k.phase == Stopped ==> k.sleeping == [] && |k.ready| <= 1
  }

  /** In every run from boot: the dispatcher has not stopped while a task sleeps or two are ready. */
  lemma {:induction false} StoppedIsIdle(k: Kernel, es: seq<Event>)
    requires Placed(k) && Idle(k)
    ensures Idle(Run(k, es))
    decreases |es|
  {
    if |es| > 0 {
      StepPlaced(k, es[0]);
      if k.phase != Stopped {
        StopsIff(k, es[0]);
      }
      StoppedIsIdle(Step(k, es[0]), es[1..]);
    }
  }
}
