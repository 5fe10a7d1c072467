/** The aging scheduler of kernel/scheduler.c: one pass over the ready queue, and the bound on how
    long a ready task can be passed over. */
module Scheduler {
  import opened Queues

  /** The two priorities of a task; smaller values run first. */
  datatype Prio = Prio(stat: int, dyn: int)

  const HIGHEST := -20
  const LOWEST := 20

  // ----- the pass -----

  /** The position of the smallest dynamic priority among the first n, the first one on a tie. */
  function WinnerAmong(ps: seq<Prio>, n: nat): (w: nat)
    requires 1 <= n <= |ps|
    ensures w < n
  {
    if n == 1 then 0
    else
      var w := WinnerAmong(ps, n - 1);
      if ps[n - 1].dyn < ps[w].dyn then n - 1 else w
  }

  lemma {:induction false} WinnerIsFirstMinimum(ps: seq<Prio>, n: nat)
    requires 1 <= n <= |ps|
    ensures forall i :: 0 <= i < n ==> ps[WinnerAmong(ps, n)].dyn <= ps[i].dyn
    ensures forall i :: 0 <= i < WinnerAmong(ps, n) ==> ps[WinnerAmong(ps, n)].dyn < ps[i].dyn
  {
    if n > 1 {
      WinnerIsFirstMinimum(ps, n - 1);
    }
  }

  function Winner(ps: seq<Prio>): (w: nat)
    requires |ps| > 0
    ensures w < |ps|
  {
    WinnerAmong(ps, |ps|)
  }

  /** The winner goes back to its static priority, everybody else ages by one. */
  function Aged(ps: seq<Prio>, w: nat): (r: seq<Prio>)
    ensures |r| == |ps|
    ensures forall i {:trigger r[i]} :: 0 <= i < |r| ==>
      r[i] == ps[i].(dyn := if i == w then ps[i].stat else ps[i].dyn - 1)
  {
    seq(|ps|, i requires 0 <= i < |ps| => ps[i].(dyn := if i == w then ps[i].stat else ps[i].dyn - 1))
  }

  /** The scheduling fields of struct task_t. */
  class Task {
    var staticPriority: int
    var dynamicPriority: int

    constructor ()
      ensures staticPriority == 0 && dynamicPriority == 0
    {
      staticPriority, dynamicPriority := 0, 0;
    }

    ghost function Priority(): Prio
      reads this
    {
      Prio(staticPriority, dynamicPriority)
    }

    method SetPrio(prio: int)
      requires HIGHEST <= prio <= LOWEST
      modifies this
      ensures Priority() == Prio(prio, prio)
    {
      staticPriority := prio;
      dynamicPriority := prio;
    }
  }

  /** sched_setprio: a null task stands for the current one. The range is an assertion of the code. */
  method SchedSetPrio(task: Task?, current: Task, prio: int)
    requires HIGHEST <= prio <= LOWEST
    modifies task, current
    ensures (if task == null then current else task).Priority() == Prio(prio, prio)
    ensures task != null && task != current ==> current.Priority() == old(current.Priority())
  {
    if task == null {
      current.SetPrio(prio);
      return;
    }
    task.SetPrio(prio);
  }

  ghost function Priorities(queue: seq<Task>): (ps: seq<Prio>)
    reads queue
    ensures |ps| == |queue| && forall i {:trigger ps[i]} :: 0 <= i < |ps| ==> ps[i] == queue[i].Priority()
  {
    seq(|queue|, i requires 0 <= i < |queue| reads queue => queue[i].Priority())
  }

  /** The first i tasks of the queue have been aged, from the priorities ps. */
  ghost predicate AgedUpTo(queue: seq<Task>, ps: seq<Prio>, i: int)
    reads queue
  {
    && |ps| == |queue|
    && forall j {:trigger queue[j]} :: 0 <= j < |queue| ==>
         queue[j].staticPriority == ps[j].stat && queue[j].dynamicPriority == ps[j].dyn - if j < i then 1 else 0
  }

  /** The loop of scheduler(): each task is aged before it is compared, so both sides of the
      comparison add one back. */
  method AgeAndCompare(readyQueue: seq<Task>, ghost ps: seq<Prio>) returns (selected: Task, ghost w: nat)
    requires Distinct(readyQueue) && |readyQueue| > 0 && AgedUpTo(readyQueue, ps, 0)
    modifies readyQueue
    ensures w == Winner(ps) && selected == readyQueue[w]
    ensures AgedUpTo(readyQueue, ps, |readyQueue|)
  {
    var i := 0;
    w := 0;
    selected := readyQueue[0];
    while i < |readyQueue|
      invariant 0 <= i <= |readyQueue|
      invariant w < |readyQueue| && selected == readyQueue[w] && w == if i == 0 then 0 else WinnerAmong(ps, i)
      invariant AgedUpTo(readyQueue, ps, i)
    {
      var aux := readyQueue[i];
      aux.dynamicPriority := aux.dynamicPriority - 1;
      if aux.dynamicPriority + 1 < selected.dynamicPriority + 1 {
        selected := aux;
        w := i;
      }
      i := i + 1;
    }
  }

  /** scheduler(): the winner is the first minimum of the values before aging. */
  method Schedule(readyQueue: seq<Task>) returns (selected: Task?)
    requires Distinct(readyQueue)
    modifies readyQueue
    ensures readyQueue == [] ==> selected == null
    ensures readyQueue != [] ==>
      var ps := old(Priorities(readyQueue));
      selected == readyQueue[Winner(ps)] && Priorities(readyQueue) == Aged(ps, Winner(ps))
    ensures forall t :: t in readyQueue ==>
      t.staticPriority == old(t.staticPriority) &&
      t.dynamicPriority == if t == selected then old(t.staticPriority) else old(t.dynamicPriority) - 1
  {
    if |readyQueue| == 0 {
      return null;
    }
    ghost var ps, w := Priorities(readyQueue), 0;
    selected, w := AgeAndCompare(readyQueue, ps);
    selected.dynamicPriority := selected.staticPriority;
    forall i | 0 <= i < |readyQueue|
      ensures Priorities(readyQueue)[i] == Aged(ps, w)[i]
    {
      assert i != w ==> readyQueue[i] != selected;
    }
    ghost var left := Priorities(readyQueue);
    forall t | t in readyQueue
      ensures t.staticPriority == old(t.staticPriority)
      ensures t.dynamicPriority == if t == selected then old(t.staticPriority) else old(t.dynamicPriority) - 1
    {
      var i :| 0 <= i < |readyQueue| && readyQueue[i] == t;
      assert left[i] == t.Priority() && ps[i] == old(t.Priority());
    }
  }

  // ----- the ready queue over time -----

  /** All tasks ever created, and the ready queue as a list of their numbers. */
  datatype State = State(tasks: seq<Prio>, ready: seq<Ptr>)

  /** Scheduled is one dispatcher turn, scheduler() and the removal of its answer from the ready
      queue by task_run. A task enters the queue again when it yields, is preempted or is woken, and
      Left covers any other removal. */
  datatype Event = Scheduled | Entered(t: nat) | Left(t: nat) | Created | Reprioritised(t: nat, prio: int)

  ghost predicate Wf(s: State) {
    Distinct(s.ready) && forall t :: t in s.ready ==> t < |s.tasks|
  }

  function ReadyPrios(s: State): (ps: seq<Prio>)
    requires forall t :: t in s.ready ==> t < |s.tasks|
    ensures |ps| == |s.ready|
    ensures forall i {:trigger ps[i]} :: 0 <= i < |ps| ==> s.ready[i] < |s.tasks| && ps[i] == s.tasks[s.ready[i]]
  {
    assert forall i :: 0 <= i < |s.ready| ==> s.ready[i] in s.ready;
    seq(|s.ready|, i requires 0 <= i < |s.ready| => s.tasks[s.ready[i]])
  }

  function Selected(s: State): (t: Ptr)
    requires Wf(s) && |s.ready| > 0
    ensures t in s.ready
  {
    s.ready[Winner(ReadyPrios(s))]
  }

  /** All tasks after the pass: those that are not ready keep their priorities. */
  function AfterPass(s: State): (r: seq<Prio>)
    requires Wf(s) && |s.ready| > 0
    ensures |r| == |s.tasks|
    ensures forall t {:trigger r[t]} :: 0 <= t < |r| ==>
      r[t] == if t !in s.ready then s.tasks[t]
              else s.tasks[t].(dyn := if t == Selected(s) then s.tasks[t].stat else s.tasks[t].dyn - 1)
  {
    seq(|s.tasks|, t requires 0 <= t < |s.tasks| =>
      if t !in s.ready then s.tasks[t]
      else s.tasks[t].(dyn := if t == Selected(s) then s.tasks[t].stat else s.tasks[t].dyn - 1))
  }

  function Step(s: State, e: Event): State
    requires Wf(s)
  {
    match e
    case Scheduled =>
      if |s.ready| == 0 then s else State(AfterPass(s), Remove(s.ready, Selected(s)))
    case Entered(t) =>
      if t < |s.tasks| && t !in s.ready then s.(ready := s.ready + [t]) else s
    case Left(t) => s.(ready := Remove(s.ready, t))
    case Created => State(s.tasks + [Prio(0, 0)], s.ready + [|s.tasks|])
    case Reprioritised(t, prio) =>
      if t < |s.tasks| && HIGHEST <= prio <= LOWEST then s.(tasks := s.tasks[t := Prio(prio, prio)]) else s
  }

  /** The pass on the queue and the pass on all tasks are the same pass. */
  lemma PassAgrees(s: State, i: nat)
    requires Wf(s) && i < |s.ready|
    ensures s.ready[i] < |s.tasks|
    ensures AfterPass(s)[s.ready[i]] == Aged(ReadyPrios(s), Winner(ReadyPrios(s)))[i]
  {
    assert s.ready[i] in s.ready;
  }

  // ----- the counting invariant -----

  /** How many tasks have a dynamic priority of at most b. */
  function Count(tasks: seq<Prio>, b: int): (c: nat)
    ensures c <= |tasks|
  {
    if |tasks| == 0 then 0
    else Count(tasks[..|tasks| - 1], b) + if tasks[|tasks| - 1].dyn <= b then 1 else 0
  }

  lemma {:induction false} CountImplied(a: seq<Prio>, b1: int, c: seq<Prio>, b2: int)
    requires |a| == |c| && forall i :: 0 <= i < |a| && a[i].dyn <= b1 ==> c[i].dyn <= b2
    ensures Count(a, b1) <= Count(c, b2)
    decreases |a|
  {
    if |a| > 0 {
      CountImplied(a[..|a| - 1], b1, c[..|c| - 1], b2);
    }
  }

  lemma {:induction false} CountStrict(a: seq<Prio>, b1: int, c: seq<Prio>, b2: int, w: nat)
    requires |a| == |c| && forall i :: 0 <= i < |a| && a[i].dyn <= b1 ==> c[i].dyn <= b2
    requires w < |a| && c[w].dyn <= b2 && a[w].dyn > b1
    ensures Count(a, b1) < Count(c, b2)
    decreases |a|
  {
    if w == |a| - 1 {
      CountImplied(a[..w], b1, c[..w], b2);
    } else {
      CountStrict(a[..|a| - 1], b1, c[..|c| - 1], b2, w);
    }
  }

  lemma {:induction false} CountSome(tasks: seq<Prio>, b: int, t: nat)
    requires t < |tasks| && tasks[t].dyn <= b
    ensures Count(tasks, b) >= 1
    decreases |tasks|
  {
    if t < |tasks| - 1 {
      CountSome(tasks[..|tasks| - 1], b, t);
    }
  }

  /** How many tasks have sunk k below the highest static priority. */
  function Sunk(tasks: seq<Prio>, k: int): nat {
    Count(tasks, HIGHEST - k)
  }

  /** At most n - k of the n tasks have sunk to -20 - k or below. */
  ghost predicate Spread(tasks: seq<Prio>) {
    forall k :: 0 <= k <= |tasks| ==> Sunk(tasks, k) <= |tasks| - k
  }

  ghost predicate InRange(tasks: seq<Prio>) {
    forall t :: 0 <= t < |tasks| ==> HIGHEST <= tasks[t].stat <= LOWEST && tasks[t].dyn <= LOWEST
  }

  ghost predicate Inv(s: State) {
    Wf(s) && InRange(s.tasks) && Spread(s.tasks)
  }

  lemma SelectedIsLeast(s: State, t: Ptr)
    requires Wf(s) && t in s.ready
    ensures t < |s.tasks| && s.tasks[Selected(s)].dyn <= s.tasks[t].dyn
  {
    var ps, i := ReadyPrios(s), IndexOf(s.ready, t);
    WinnerIsFirstMinimum(ps, |ps|);
    assert ps[Winner(ps)].dyn <= ps[i].dyn;
  }

  /** One pass keeps the spread: either the winner was among the sunk and leaves them, or nobody who
      ages was close enough to join them. */
  lemma PassKeepsSpread(s: State, k: nat)
    requires Inv(s) && |s.ready| > 0 && k <= |s.tasks|
    ensures Sunk(AfterPass(s), k) <= |s.tasks| - k
  {
    var after, b, w := AfterPass(s), HIGHEST - k, Selected(s);
    if k > 0 {
      assert Sunk(s.tasks, k) <= |s.tasks| - k;
      assert Sunk(s.tasks, k - 1) <= |s.tasks| - (k - 1);
      assert after[w].dyn > b;
      if s.tasks[w].dyn <= b + 1 {
        CountStrict(after, b, s.tasks, b + 1, w);
      } else {
        NobodyJoins(s, b);
        CountImplied(after, b, s.tasks, b);
      }
    }
  }

  lemma NobodyJoins(s: State, b: int)
    requires Wf(s) && |s.ready| > 0 && s.tasks[Selected(s)].dyn > b + 1
    requires s.tasks[Selected(s)].stat > b
    ensures forall t :: 0 <= t < |s.tasks| && AfterPass(s)[t].dyn <= b ==> s.tasks[t].dyn <= b
  {
    forall t | 0 <= t < |s.tasks| && AfterPass(s)[t].dyn <= b
      ensures s.tasks[t].dyn <= b
    {
      if t in s.ready {
        SelectedIsLeast(s, t);
      }
    }
  }

  lemma CreationKeepsSpread(tasks: seq<Prio>)
    requires Spread(tasks)
    ensures Spread(tasks + [Prio(0, 0)])
  {
    var more := tasks + [Prio(0, 0)];
    assert more[..|tasks|] == tasks;
    forall k | 0 <= k <= |more|
      ensures Sunk(more, k) <= |more| - k
    {
      if k <= |tasks| {
        assert Sunk(tasks, k) <= |tasks| - k;
      } else {
        assert Sunk(tasks, |tasks|) <= 0;
        CountImplied(tasks, HIGHEST - k, tasks, HIGHEST - |tasks|);
      }
    }
  }

  lemma SetPrioKeepsSpread(tasks: seq<Prio>, t: nat, prio: int)
    requires Spread(tasks) && t < |tasks| && HIGHEST <= prio
    ensures Spread(tasks[t := Prio(prio, prio)])
  {
    var changed := tasks[t := Prio(prio, prio)];
    forall k | 0 <= k <= |changed|
      ensures Sunk(changed, k) <= |changed| - k
    {
      if k > 0 {
        assert Sunk(tasks, k) <= |tasks| - k;
        CountImplied(changed, HIGHEST - k, tasks, HIGHEST - k);
      }
    }
  }

  lemma StepInv(s: State, e: Event)
    requires Inv(s)
    ensures Inv(Step(s, e)) && |s.tasks| <= |Step(s, e).tasks|
  {
    match e
    case Scheduled =>
      if |s.ready| > 0 {
        RemoveMembers(s.ready, Selected(s));
        forall k | 0 <= k <= |s.tasks|
          ensures Sunk(AfterPass(s), k) <= |s.tasks| - k
        {
          PassKeepsSpread(s, k);
        }
      }
    case Entered(t) =>
      if t < |s.tasks| && t !in s.ready {
        AppendMembers(s.ready, t);
      }
    case Left(t) => RemoveMembers(s.ready, t);
    case Created =>
      AppendMembers(s.ready, |s.tasks|);
      CreationKeepsSpread(s.tasks);
    case Reprioritised(t, prio) =>
      if t < |s.tasks| && HIGHEST <= prio <= LOWEST {
        SetPrioKeepsSpread(s.tasks, t, prio);
      }
  }

  function Run(s: State, es: seq<Event>): (r: State)
    requires Inv(s)
    ensures Inv(r)
    decreases |es|
  {
    if |es| == 0 then s
    else
      StepInv(s, es[0]);
      Run(Step(s, es[0]), es[1..])
  }

  /** In every run, with n tasks created so far, no dynamic priority is below -(19 + n); so the int it
      is stored in does not overflow. */
  lemma NeverBelow(es: seq<Event>, t: nat)
    requires t < |Run(Start(), es).tasks|
    ensures var r := Run(Start(), es);
      -(19 + |r.tasks|) <= r.tasks[t].dyn <= LOWEST
  {
    LowerBound(Run(Start(), es), t);
  }

  function Start(): (s: State)
    ensures Inv(s)
  {
    State([], [])
  }

  lemma LowerBound(s: State, t: nat)
    requires Inv(s) && t < |s.tasks|
    ensures s.tasks[t].dyn >= -(19 + |s.tasks|)
  {
    var n := |s.tasks|;
    assert Sunk(s.tasks, n) <= n - n;
    if s.tasks[t].dyn <= HIGHEST - n {
      CountSome(s.tasks, HIGHEST - n, t);
    }
  }

  function Passes(es: seq<Event>): nat {
    if |es| == 0 then 0 else (if es[0] == Scheduled then 1 else 0) + Passes(es[1..])
  }

  /** The task stays ready, is not given a new priority and is never the scheduler's answer. */
  ghost predicate PassedOver(s: State, es: seq<Event>, t: Ptr)
    requires Inv(s)
    decreases |es|
  {
    && t in s.ready
    && (|es| == 0 ||
        (&& (es[0].Reprioritised? ==> es[0].t != t)
         && (StepInv(s, es[0]); PassedOver(Step(s, es[0]), es[1..], t))))
  }

  lemma {:induction false} AgesEveryPass(s: State, es: seq<Event>, t: Ptr)
    requires Inv(s) && PassedOver(s, es, t)
    ensures t < |s.tasks| && t < |Run(s, es).tasks|
    ensures Run(s, es).tasks[t].dyn == s.tasks[t].dyn - Passes(es)
    decreases |es|
  {
    if |es| > 0 {
      StepInv(s, es[0]);
      var s1 := Step(s, es[0]);
      assert t in s1.ready;
      if es[0] == Scheduled {
        RemoveMembers(s.ready, Selected(s));
      }
      AgesEveryPass(s1, es[1..], t);
    }
  }

  /** No starvation: among n tasks, a ready task is passed over at most n + 39 times in a row, so it is
      selected within n + 40 calls of the scheduler. */
  lemma NoStarvation(s: State, es: seq<Event>, t: Ptr)
    requires Inv(s) && PassedOver(s, es, t)
    ensures Passes(es) <= |Run(s, es).tasks| + 39
  {
    AgesEveryPass(s, es, t);
    LowerBound(Run(s, es), t);
  }

  // ----- the two priorities, from the events -----

  /** How often the task has been passed over since its latest turn or its latest new priority, if it was
      n times before. */
  function Skipped(s: State, es: seq<Event>, t: Ptr, n: nat): nat
    requires Inv(s)
    decreases |es|
  {
    if |es| == 0 then n
    else
      StepInv(s, es[0]);
      Skipped(Step(s, es[0]), es[1..], t,
        if es[0] == Scheduled && t in s.ready then (if Selected(s) == t then 0 else n + 1)
        else if GivesPriority(es[0], t) then 0
        else n)
  }

  /** A call of sched_setprio on the task, with a priority it accepts. */
  predicate GivesPriority(e: Event, t: Ptr) {
    e.Reprioritised? && e.t == t && HIGHEST <= e.prio <= LOWEST
  }

  /** The latest priority given to the task by a sched_setprio. */
  function Given(es: seq<Event>, t: Ptr, prio: int): int {
    if |es| == 0 then prio else Given(es[1..], t, if GivesPriority(es[0], t) then es[0].prio else prio)
  }

  /** In every run the static priority is the one last given, and the dynamic priority is as much below it
      as the task has been passed over since. */
  lemma {:induction false} AgesFromStatic(s: State, es: seq<Event>, t: Ptr, n: nat)
    requires Inv(s) && t < |s.tasks| && s.tasks[t].dyn == s.tasks[t].stat - n
    ensures var r := Run(s, es);
      && t < |r.tasks| && r.tasks[t].stat == Given(es, t, s.tasks[t].stat)
      && r.tasks[t].dyn == r.tasks[t].stat - Skipped(s, es, t, n)
    decreases |es|
  {
    if |es| > 0 {
      StepInv(s, es[0]);
      AgesFromStatic(Step(s, es[0]), es[1..], t,
        if es[0] == Scheduled && t in s.ready then (if Selected(s) == t then 0 else n + 1)
        else if GivesPriority(es[0], t) then 0
        else n);
    }
  }

  /** The scheduler's answer has the least priority by that account, and among equals it has been in the
      queue longest. */
  lemma SelectedFirst(s: State, i: nat)
    requires Wf(s) && i < |s.ready|
    ensures s.ready[i] < |s.tasks| && Selected(s) < |s.tasks|
    ensures s.tasks[Selected(s)].dyn <= s.tasks[s.ready[i]].dyn
    ensures s.tasks[Selected(s)].dyn == s.tasks[s.ready[i]].dyn ==> IndexOf(s.ready, Selected(s)) <= i
  {
    var ps := ReadyPrios(s);
    WinnerIsFirstMinimum(ps, |ps|);
    assert s.ready[Winner(ps)] == Selected(s);
    assert ps[i].dyn == s.tasks[s.ready[i]].dyn;
    if IndexOf(s.ready, Selected(s)) > i {
      assert ps[Winner(ps)].dyn < ps[i].dyn;
    }
  }

  /** Who is ready: the scheduler's answer, and nobody else, leaves by its turn. */
  lemma ReadyAfter(s: State, e: Event, t: Ptr)
    requires Wf(s)
    ensures t in Step(s, e).ready <==>
            (t in s.ready && !(e == Scheduled && t == Selected(s)) && e != Left(t))
            || (e == Entered(t) && t < |s.tasks|) || (e == Created && t == |s.tasks|)
  {
    if |s.ready| > 0 {
      RemoveMembers(s.ready, Selected(s));
    }
    if e.Left? {
      RemoveMembers(s.ready, e.t);
    }
  }
}
