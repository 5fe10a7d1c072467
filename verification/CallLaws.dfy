/** What the calls do, told from the events alone: which task changes its status, what its record then
    says, and in which order tasks leave the queues. */
module CallLaws {
  import opened Queues
  import opened Sweeps
  import opened Dispatcher
  import opened DispatcherLaws

  // ----- who changes status -----

  /** The dispatcher loop goes on and its scheduler has answered with t. */
  predicate Chooses(k: Kernel, e: Event, t: nat) {
    && e.Dispatched? && k.current == 0 && k.phase == Choosing && e.choice < |k.ready| && k.ready[e.choice] == t
    && (|k.ready| > 1 || |k.sleeping| > 0 || e.requests > 0)
  }

  /** A task is in an odd place of a stretch of neighbours in the queue that all qualify. */
  predicate OddPlace(s: seq<Ptr>, hit: set<Ptr>, t: Ptr) {
    t in s && Stretch(s, hit, IndexOf(s, t)) % 2 == 1
  }

  /** The status of a task after an event. */
  function NextStatus(k: Kernel, e: Event, t: nat): Status
    requires k.current < |k.tasks| && t < |k.tasks|
  {
    match k.tasks[t].status
    case Ready => if Chooses(k, e, t) then Running else Ready
    case Running =>
      (match e
       case Yielded => Ready
       case Ticked => if k.tasks[t].quantum == 1 then Ready else Running
       case Blocked => Suspended
       case Slept(_) => Suspended
       case Waited(g) => if 0 < g < |k.tasks| && k.tasks[g].status != Finished then Suspended else Running
       case Exited(_) => Finished
       case _ => Running)
    case Suspended =>
      if e == Awoken(t)
         || (e.Exited? && k.current != 0 && OddPlace(k.suspended, WaitersOf(k.tasks, k.current), t))
         || (e == Swept && k.current == 0 && k.phase.Sweeping? && OddPlace(k.sleeping, Expired(k.tasks, k.clock), t))
      then Ready
      else Suspended
    case Finished => Finished
  }

  lemma RunningStatus(k: Kernel, e: Event)
    requires Placed(k) && k.phase != Stopped && k.current != 0
    ensures k.current < |Step(k, e).tasks| && Step(k, e).tasks[k.current].status == NextStatus(k, e, k.current)
  {
    var c := k.current;
    assert InPlace(k, c);
    if e.Exited? {
      MemberOfSweep(k.suspended, WaitersOf(k.tasks[c := k.tasks[c].(status := Finished, exitCode := e.code)], c), c);
    }
  }

  lemma ReadyStatus(k: Kernel, e: Event, t: nat)
    requires Placed(k) && k.phase != Stopped && 0 < t < |k.tasks| && k.tasks[t].status == Ready
    ensures t < |Step(k, e).tasks| && Step(k, e).tasks[t].status == NextStatus(k, e, t)
  {
    assert InPlace(k, t);
    if e.Dispatched? && e.choice < |k.ready| {
      assert k.ready[e.choice] in k.ready;
    }
  }

  lemma SuspendedStatus(k: Kernel, e: Event, t: nat)
    requires Placed(k) && k.phase != Stopped && 0 < t < |k.tasks| && k.tasks[t].status == Suspended
    ensures t < |Step(k, e).tasks| && Step(k, e).tasks[t].status == NextStatus(k, e, t)
  {
    assert InPlace(k, t);
    if e.Exited? && k.current != 0 {
      SuspendedAtExit(k, e.code, t);
    } else if e == Swept && k.current == 0 && k.phase.Sweeping? {
      SuspendedAtSweep(k, t);
    } else if e.Dispatched? && e.choice < |k.ready| {
      assert k.ready[e.choice] in k.ready;
    }
  }

  lemma SuspendedAtExit(k: Kernel, code: int, t: nat)
    requires Placed(k) && k.current != 0 && 0 < t < |k.tasks| && k.tasks[t].status == Suspended
    ensures TaskExit(k, code).tasks[t].status ==
            if OddPlace(k.suspended, WaitersOf(k.tasks, k.current), t) then Ready else Suspended
  {
    assert InPlace(k, t) && InPlace(k, k.current);
    var hit := WaitersOf(k.tasks, k.current);
    assert WaitersOf(k.tasks[k.current := k.tasks[k.current].(status := Finished, exitCode := code)], k.current) == hit;
    MemberOfSweep(k.suspended, hit, t);
    if t in k.suspended {
      WokenByParity(k.suspended, hit, IndexOf(k.suspended, t));
    }
  }

  lemma SuspendedAtSweep(k: Kernel, t: nat)
    requires Placed(k) && k.current == 0 && k.phase.Sweeping?
    requires 0 < t < |k.tasks| && k.tasks[t].status == Suspended
    ensures SweepPass(k, k.phase.chosen).tasks[t].status ==
            if OddPlace(k.sleeping, Expired(k.tasks, k.clock), t) then Ready else Suspended
  {
    assert InPlace(k, t);
    var hit := Expired(k.tasks, k.clock);
    MemberOfSweep(k.sleeping, hit, t);
    if t in k.sleeping {
      WokenByParity(k.sleeping, hit, IndexOf(k.sleeping, t));
    }
  }

  /** Every change of status has the one cause the calls name for it, and every cause its effect: together
      with Placed this gives the queues, and the task that runs. */
  lemma StatusAfter(k: Kernel, e: Event, t: nat)
    requires Placed(k) && k.phase != Stopped && 0 < t < |k.tasks|
    ensures t < |Step(k, e).tasks| && Step(k, e).tasks[t].status == NextStatus(k, e, t)
  {
    assert InPlace(k, t);
    match k.tasks[t].status
    case Ready => ReadyStatus(k, e, t);
    case Running => RunningStatus(k, e);
    case Suspended => SuspendedStatus(k, e, t);
    case Finished => FinishedStays(k, e, t);
  }

  // ----- what a record says -----

  /** A task that does not run and keeps its status keeps its record. */
  lemma RecordKept(k: Kernel, e: Event, t: nat)
    requires Placed(k) && k.phase != Stopped && 0 < t < |k.tasks| && t != k.current
    requires t < |Step(k, e).tasks| && Step(k, e).tasks[t].status == k.tasks[t].status
    ensures Step(k, e).tasks[t] == k.tasks[t]
  {
    assert InPlace(k, t);
    if e.Dispatched? && e.choice < |k.ready| {
      assert k.ready[e.choice] in k.ready;
    }
    if e.Exited? && k.current != 0 {
      var tasks := k.tasks[k.current := k.tasks[k.current].(status := Finished, exitCode := e.code)];
      MemberOfSweep(k.suspended, WaitersOf(tasks, k.current), t);
    }
    if e.Swept? {
      MemberOfSweep(k.sleeping, Expired(k.tasks, k.clock), t);
    }
  }

  /** Only task_exit sets an exit code, the one it was called with. */
  lemma ExitCodeAfter(k: Kernel, e: Event, t: nat)
    requires Placed(k) && k.phase != Stopped && 0 < t < |k.tasks|
    ensures t < |Step(k, e).tasks|
    ensures Step(k, e).tasks[t].exitCode == if e.Exited? && t == k.current then e.code else k.tasks[t].exitCode
  {
    if e.Dispatched? && e.choice < |k.ready| {
      assert k.ready[e.choice] in k.ready;
    }
  }

  /** Only task_wait sets a target, the one it was called with. */
  lemma TargetAfter(k: Kernel, e: Event, t: nat)
    requires Placed(k) && k.phase != Stopped && 0 < t < |k.tasks|
    ensures t < |Step(k, e).tasks|
    ensures Step(k, e).tasks[t].target ==
      if e.Waited? && t == k.current && 0 < e.target < |k.tasks| && k.tasks[e.target].status != Finished then e.target
      else k.tasks[t].target
  {
    if e.Dispatched? && e.choice < |k.ready| {
      assert k.ready[e.choice] in k.ready;
    }
  }

  /** A task is activated exactly when it begins to run. */
  lemma ActivatedByTurn(k: Kernel, e: Event, t: nat)
    requires Placed(k) && k.phase != Stopped && 0 < t < |k.tasks|
    ensures t < |Step(k, e).tasks|
    ensures Step(k, e).tasks[t].activations == k.tasks[t].activations + if Chooses(k, e, t) then 1 else 0
  {
    if e.Dispatched? {
      if e.choice < |k.ready| {
        assert k.ready[e.choice] in k.ready;
      }
    } else {
      NotActivated(k, e, t);
    }
  }

  lemma NotActivated(k: Kernel, e: Event, t: nat)
    requires Placed(k) && k.phase != Stopped && 0 < t < |k.tasks| && !e.Dispatched?
    ensures t < |Step(k, e).tasks| && Step(k, e).tasks[t].activations == k.tasks[t].activations
  {
  }

  function Turns(k: Kernel, es: seq<Event>, t: nat): nat
    requires Placed(k)
    decreases |es|
  {
    if |es| == 0 then 0
    else
      StepPlaced(k, es[0]);
      (if Chooses(k, es[0], t) then 1 else 0) + Turns(Step(k, es[0]), es[1..], t)
  }

  /** Over every run: a task's activations are its turns, the dispatcher's choices of it. */
  lemma {:induction false} ActivationsAreTurns(k: Kernel, es: seq<Event>, t: nat)
    requires Placed(k) && 0 < t < |k.tasks|
    ensures t < |Run(k, es).tasks| && Run(k, es).tasks[t].activations == k.tasks[t].activations + Turns(k, es, t)
    decreases |es|
  {
    if |es| > 0 {
      StepPlaced(k, es[0]);
      if k.phase != Stopped {
        ActivatedByTurn(k, es[0], t);
      }
      ActivationsAreTurns(Step(k, es[0]), es[1..], t);
    }
  }

  /** task_create adds one task, ready and never run; nothing else adds or removes any. */
  lemma TasksCreated(k: Kernel, e: Event)
    requires Placed(k) && k.phase != Stopped
    ensures |Step(k, e).tasks| == |k.tasks| + if e.Created? then 1 else 0
    ensures e.Created? ==> var tcb := Step(k, e).tasks[|k.tasks|]; tcb.status == Ready && tcb.activations == 0
  {
    if e.Dispatched? && e.choice < |k.ready| {
      assert k.ready[e.choice] in k.ready;
    }
  }

  // ----- task_wait -----

  lemma CallStays(k: Kernel, e: Event, t: nat)
    requires Placed(k) && k.phase != Stopped && 0 < t < |k.tasks| && t != k.current && !Chooses(k, e, t)
    ensures t < |Step(k, e).tasks| && Step(k, e).tasks[t].call == k.tasks[t].call && Step(k, e).current != t
  {
    assert InPlace(k, t);
    if e.Dispatched? && e.choice < |k.ready| {
      assert k.ready[e.choice] in k.ready;
    }
  }

  /** A task without a turn stays inside its call, and in a timely run the call stays consistent. */
  lemma {:induction false} CallStaysInRun(k: Kernel, es: seq<Event>, t: nat)
    requires Placed(k) && CallsOk(k) && 0 < t < |k.tasks| && t != k.current
    requires TimelyRun(k, es) && Turns(k, es, t) == 0
    ensures var r := Run(k, es);
      CallsOk(r) && t < |r.tasks| && r.tasks[t].call == k.tasks[t].call && r.current != t
    decreases |es|
  {
    if |es| > 0 {
      StepPlaced(k, es[0]);
      StepCallsOk(k, es[0]);
      if k.phase != Stopped {
        CallStays(k, es[0], t);
      }
      CallStaysInRun(Step(k, es[0]), es[1..], t);
    }
  }

  /** A task that calls task_wait(g) on a task that has not finished is suspended until g has finished;
      when it is ready again, and has not had its turn yet, what task_wait will return is g's exit code. */
  lemma WaitReturnsExitCode(k: Kernel, g: nat, es: seq<Event>)
    requires Placed(k) && CallsOk(k) && k.current != 0 && 0 < g < |k.tasks| && k.tasks[g].status != Finished
    requires Placed(Step(k, Waited(g))) && TimelyRun(Step(k, Waited(g)), es) && Turns(Step(k, Waited(g)), es, k.current) == 0
    ensures var c, r := k.current, Run(Step(k, Waited(g)), es);
      && c < |r.tasks| && g < |r.tasks|
      && (r.tasks[c].status == Suspended ||
          (r.tasks[c].status == Ready && r.tasks[g].status == Finished && r.tasks[c].targetExit == r.tasks[g].exitCode))
  {
    var c, e := k.current, Waited(g);
    assert InPlace(k, c);
    assert k.phase != Stopped;
    var k1 := Step(k, e);
    StepCallsOk(k, e);
    assert k1.tasks[c].call == InWait(g);
    CallStaysInRun(k1, es, c);
    assert CallOk(Run(k1, es), c);
  }

  // ----- the dispatcher loop -----

  /** Where the loop is after an event: a choice takes it to the sweep that ends its turn, also when there
      is nobody to choose, and the sweep back to the choice. */
  lemma PhaseAfter(k: Kernel, e: Event)
    requires Placed(k)
    ensures Step(k, e).phase ==
      if k.current != 0 || k.phase == Stopped then k.phase
      else if e.Dispatched? && k.phase == Choosing then
        (if |k.ready| <= 1 && k.sleeping == [] && e.requests == 0 then Stopped
         else if k.ready == [] then Sweeping(0)
         else if e.choice < |k.ready| then Sweeping(k.ready[e.choice])
         else Choosing)
      else if e == Swept && k.phase.Sweeping? then Choosing
      else k.phase
  {
    if e.Dispatched? && e.choice < |k.ready| {
      assert k.ready[e.choice] in k.ready;
    }
  }

  /** With nobody ready, a turn of the loop wakes the sleepers in odd places among the expired ones and
      is ready to choose again. */
  lemma IdleTurn(k: Kernel, choice: nat, requests: nat)
    requires Placed(k) && k.current == 0 && k.phase == Choosing && k.ready == [] && k.sleeping != []
    ensures var r := Run(k, [Dispatched(choice, requests), Swept]);
      && r.phase == Choosing && r.current == 0 && |r.tasks| == |k.tasks|
      && forall t :: t in k.sleeping ==>
           t < |r.tasks| && (r.tasks[t].status == Ready <==> OddPlace(k.sleeping, Expired(k.tasks, k.clock), t))
  {
    var e := Dispatched(choice, requests);
    StepPlaced(k, e);
    var k1 := Step(k, e);
    PhaseAfter(k, e);
    assert k1 == k.(phase := Sweeping(0));
    StepPlaced(k1, Swept);
    assert [e, Swept][1..] == [Swept] && [Swept][1..] == [];
    assert Run(k, [e, Swept]) == Step(k1, Swept);
    forall t | t in k.sleeping
      ensures t < |k.tasks|
      ensures Step(k1, Swept).tasks[t].status == Ready <==> OddPlace(k.sleeping, Expired(k.tasks, k.clock), t)
    {
      assert InPlace(k, t);
      SuspendedAtSweep(k1, t);
    }
  }

  // ----- the order of the queues -----

  /** x stands before y. */
  predicate Before(s: seq<Ptr>, x: Ptr, y: Ptr) {
    x in s && y in s && IndexOf(s, x) < IndexOf(s, y)
  }

  /** Who stays keeps its place among those who stay, and newcomers stand behind them. */
  ghost predicate Fifo(s: seq<Ptr>, s1: seq<Ptr>) {
    forall x, y :: x in s && x in s1 && y in s1 && (Before(s, x, y) || y !in s) ==> Before(s1, x, y)
  }

  lemma {:induction false} BeforeAt(s: seq<Ptr>, i: nat, j: nat)
    requires Distinct(s) && i < |s| && j < |s|
    ensures Before(s, s[i], s[j]) <==> i < j
  {
  }

  lemma FifoAppend(s: seq<Ptr>, w: seq<Ptr>)
    requires Distinct(s + w)
    ensures Fifo(s, s + w)
  {
    forall x, y | x in s && y in s + w && (Before(s, x, y) || y !in s)
      ensures Before(s + w, x, y)
    {
      var i, j := IndexOf(s, x), IndexOf(s + w, y);
      assert (s + w)[i] == x;
      if y in s {
        assert (s + w)[IndexOf(s, y)] == y;
        BeforeAt(s + w, i, IndexOf(s, y));
      } else {
        assert forall m :: 0 <= m < |s| ==> (s + w)[m] == s[m] && s[m] in s;
        BeforeAt(s + w, i, j);
      }
    }
  }

  lemma {:induction false} RemoveInOrder(s: seq<Ptr>, t: Ptr, x: Ptr, y: Ptr)
    requires Distinct(s) && t in s && x != t && y != t && Before(s, x, y)
    ensures Before(Remove(s, t), x, y)
  {
    var n, i, j := IndexOf(s, t), IndexOf(s, x), IndexOf(s, y);
    var r := Without(s, n);
    WithoutDistinct(s, n);
    assert r[if i < n then i else i - 1] == x && r[if j < n then j else j - 1] == y;
    BeforeAt(r, if i < n then i else i - 1, if j < n then j else j - 1);
  }

  lemma {:induction false} FifoRemove(s: seq<Ptr>, t: Ptr)
    requires Distinct(s)
    ensures Fifo(s, Remove(s, t))
  {
    RemoveMembers(s, t);
    forall x, y | x in s && x in Remove(s, t) && y in Remove(s, t) && (Before(s, x, y) || y !in s)
      ensures Before(Remove(s, t), x, y)
    {
      if t in s {
        RemoveInOrder(s, t, x, y);
      }
    }
  }

  lemma {:induction false} BeforeTail(s: seq<Ptr>, n: nat, x: Ptr, y: Ptr)
    requires Distinct(s) && n <= |s| && x in s[n..] && y in s[n..]
    ensures Before(s[n..], x, y) <==> Before(s, x, y)
  {
    TailDistinct(s, n);
    var i, j := IndexOf(s[n..], x), IndexOf(s[n..], y);
    BeforeAt(s[n..], i, j);
    BeforeAt(s, n + i, n + j);
  }

  /** What a sweep leaves in a queue, and what it takes out, is in the old order. */
  lemma {:induction false} SweepInOrder(s: seq<Ptr>, hit: set<Ptr>, x: Ptr, y: Ptr)
    requires Distinct(s) && Before(s, x, y)
    ensures x in Kept(s, hit) && y in Kept(s, hit) ==> Before(Kept(s, hit), x, y)
    ensures x in Woken(s, hit) && y in Woken(s, hit) ==> Before(Woken(s, hit), x, y)
    decreases |s|
  {
    var n := Skip(s, hit);
    TailDistinct(s, n);
    SweepDistinct(s, hit);
    MemberOfSweep(s, hit, x);
    MemberOfSweep(s, hit, y);
    if x in s[n..] {
      BeforeTail(s, n, x, y);
      SweepInOrder(s[n..], hit, x, y);
    }
  }

  lemma {:induction false} FifoKept(s: seq<Ptr>, hit: set<Ptr>)
    requires Distinct(s)
    ensures Fifo(s, Kept(s, hit))
  {
    forall x, y | x in s && x in Kept(s, hit) && y in Kept(s, hit) && (Before(s, x, y) || y !in s)
      ensures Before(Kept(s, hit), x, y)
    {
      MemberOfSweep(s, hit, y);
      SweepInOrder(s, hit, x, y);
    }
  }

  /** How a step changes a queue: not at all, at the end, by a removal or by a sweep. */
  ghost predicate Changes(s: seq<Ptr>, s1: seq<Ptr>) {
    || s1 == s
    || (|s| <= |s1| && s1[..|s|] == s)
    || (exists t :: s1 == Remove(s, t))
    || (exists hit :: s1 == Kept(s, hit))
  }

  lemma ChangesFifo(s: seq<Ptr>, s1: seq<Ptr>)
    requires Distinct(s) && Distinct(s1) && Changes(s, s1)
    ensures Fifo(s, s1)
  {
    if |s| <= |s1| && s1[..|s|] == s {
      FifoAppend(s, s1[|s|..]);
      assert s + s1[|s|..] == s1;
    } else if t :| s1 == Remove(s, t) {
      FifoRemove(s, t);
    } else if hit :| s1 == Kept(s, hit) {
      FifoKept(s, hit);
    }
  }

  /** No step lets a task overtake another one in a queue. */
  lemma StepFifo(k: Kernel, e: Event)
    requires Placed(k)
    ensures var k1 := Step(k, e);
      && Fifo(k.ready, k1.ready) && Fifo(k.suspended, k1.suspended)
      && Fifo(k.sleeping, k1.sleeping) && Fifo(k.finished, k1.finished)
  {
    StepPlaced(k, e);
    StepChanges(k, e);
    var k1 := Step(k, e);
    ChangesFifo(k.ready, k1.ready);
    ChangesFifo(k.suspended, k1.suspended);
    ChangesFifo(k.sleeping, k1.sleeping);
    ChangesFifo(k.finished, k1.finished);
  }

  lemma StepChanges(k: Kernel, e: Event)
    requires Placed(k)
    ensures var k1 := Step(k, e);
      && Changes(k.ready, k1.ready) && Changes(k.suspended, k1.suspended)
      && Changes(k.sleeping, k1.sleeping) && Changes(k.finished, k1.finished)
  {
    if e.Dispatched? && e.choice < |k.ready| {
      assert k.ready[e.choice] in k.ready;
    }
  }

  /** x is in the suspended queue all the time. */
  ghost predicate StaysSuspended(k: Kernel, es: seq<Event>, x: Ptr)
    requires Placed(k)
    decreases |es|
  {
    x in k.suspended && (|es| == 0 || (StepPlaced(k, es[0]); StaysSuspended(Step(k, es[0]), es[1..], x)))
  }

  /** Nor does a run: whoever stood behind x, or came later, still stands behind x. */
  lemma {:induction false} NobodyOvertakes(k: Kernel, es: seq<Event>, x: Ptr, y: Ptr)
    requires Placed(k) && StaysSuspended(k, es, x) && x != y && (Before(k.suspended, x, y) || y !in k.suspended)
    ensures y in Run(k, es).suspended ==> Before(Run(k, es).suspended, x, y)
    decreases |es|
  {
    if |es| > 0 {
      StepPlaced(k, es[0]);
      StepFifo(k, es[0]);
      assert x in Step(k, es[0]).suspended;
      NobodyOvertakes(Step(k, es[0]), es[1..], x, y);
    }
  }

  lemma {:induction false} JoinInOrder(s: seq<Ptr>, q: seq<Ptr>, hit: set<Ptr>, x: Ptr, y: Ptr)
    requires Distinct(q) && Distinct(s + Woken(q, hit)) && Before(q, x, y) && x !in s && y !in s
    requires x in s + Woken(q, hit) && y in s + Woken(q, hit)
    ensures Before(s + Woken(q, hit), x, y)
  {
    var w := Woken(q, hit);
    assert x in w && y in w;
    SweepInOrder(q, hit, x, y);
    BeforeTail(s + w, |s|, x, y);
    assert (s + w)[|s|..] == w;
  }

  /** Tasks woken by one task_exit become ready in the order of the suspended queue, tasks woken by one
      sweep of the dispatcher in the order of the sleeping queue. */
  lemma WokenInOrder(k: Kernel, code: int, x: Ptr, y: Ptr)
    requires Placed(k)
    ensures k.current != 0 && Before(k.suspended, x, y) ==>
              var r := TaskExit(k, code).ready;
              x in r && y in r ==> Before(r, x, y)
    ensures k.current == 0 && k.phase.Sweeping? && Before(k.sleeping, x, y) ==>
              var r := SweepPass(k, k.phase.chosen).ready;
              x in r && y in r ==> Before(r, x, y)
  {
    if k.current != 0 && Before(k.suspended, x, y) {
      assert InPlace(k, x) && InPlace(k, y);
      TaskExitPlaced(k, code);
      var tasks := k.tasks[k.current := k.tasks[k.current].(status := Finished, exitCode := code)];
      if x in TaskExit(k, code).ready && y in TaskExit(k, code).ready {
        JoinInOrder(k.ready, k.suspended, WaitersOf(tasks, k.current), x, y);
      }
    }
    if k.current == 0 && k.phase.Sweeping? && Before(k.sleeping, x, y) {
      assert InPlace(k, x) && InPlace(k, y);
      SweepPassPlaced(k);
      if x in SweepPass(k, k.phase.chosen).ready && y in SweepPass(k, k.phase.chosen).ready {
        JoinInOrder(k.ready, k.sleeping, Expired(k.tasks, k.clock), x, y);
      }
    }
  }
}
