/** The counting semaphore of kernel/semaphore.c. sem_up hands the token to the first waiter, who
    does not test the value again; sem_destroy wakes every waiter with an error. */
module Semaphores {
  import opened Queues

  datatype Sem = Sem(value: int, waiting: seq<Ptr>, destroyed: bool)

  /** How a call ends: with ERROR, with NOERROR, or suspended on the wait queue. */
  datatype Outcome = Failed | Granted | Suspended

  // ----- the calls -----

  function Create(value: nat): Sem {
    Sem(value, [], false)
  }

  /** sem_down by task t up to its end or its suspension. */
  function Down(s: Sem, t: Ptr): (Sem, Outcome) {
    if s.destroyed then (s, Failed)
    else if s.value - 1 < 0 then (Sem(s.value - 1, s.waiting + [t], false), Suspended)
    else (s.(value := s.value - 1), Granted)
  }

  /** The rest of sem_down once the task has been woken. */
  function Resume(s: Sem): (Sem, Outcome) {
    if s.destroyed then (s.(value := s.value + 1), Failed) else (s, Granted)
  }

  /** sem_up, and the task it wakes (NULL for none). */
  function Up(s: Sem): (Sem, Outcome, Ptr) {
    if s.destroyed then (s, Failed, NULL)
    else if |s.waiting| == 0 then (s.(value := s.value + 1), Granted, NULL)
    else (Sem(s.value + 1, s.waiting[1..], false), Granted, s.waiting[0])
  }

  /** sem_destroy; it wakes everybody on the wait queue. */
  function Destroy(s: Sem): Sem {
    Sem(s.value, [], true)
  }

  lemma EmptyOrHead(q: QState)
    requires NULL !in q.items && q.cursor == 0
    ensures q.Item() == NULL <==> q.items == []
  {
    assert forall i :: 0 <= i < |q.items| ==> q.items[i] in q.items;
  }

  lemma ShiftOne(a: seq<Ptr>, s: seq<Ptr>)
    requires s != []
    ensures a + s == (a + [s[0]]) + s[1..]
  {
  }

  // ----- the object -----

  class Semaphore {
    var waitQueue: QState
    var value: int
    var destroy: int

    ghost predicate Valid()
      reads this
    {
      NULL !in waitQueue.items && (destroy == 0 || destroy == 1)
    }

    ghost function State(): Sem
      reads this
    {
      Sem(value, waitQueue.items, destroy == 1)
    }

    constructor (value: nat)
      ensures Valid() && State() == Create(value)
    {
      this.waitQueue := EmptyQueue();
      this.value := value;
      this.destroy := 0;
    }

    method SemDown(current: Ptr) returns (outcome: Outcome)
      requires Valid() && current != NULL
      modifies this
      ensures Valid() && (State(), outcome) == Down(old(State()), current)
    {
      if destroy == 1 {
        return Failed;
      }
      value := value - 1;
      if value < 0 {
        waitQueue := waitQueue.Add(current);
        return Suspended;
      }
      outcome := Granted;
    }

    method SemDownResume() returns (outcome: Outcome)
      requires Valid()
      modifies this
      ensures Valid() && (State(), outcome) == Resume(old(State()))
    {
      if destroy == 1 {
        value := value + 1;
        return Failed;
      }
      outcome := Granted;
    }

    method SemUp() returns (outcome: Outcome, wake: Ptr)
      requires Valid()
      modifies this
      ensures Valid() && (State(), outcome, wake) == Up(old(State()))
    {
      if destroy == 1 {
        return Failed, NULL;
      }
      value := value + 1;
      waitQueue := waitQueue.Head();
      wake := waitQueue.Item();
      EmptyOrHead(waitQueue);
      if wake != NULL {
        DelHead(waitQueue);
        waitQueue := waitQueue.Del(wake);
      }
      outcome := Granted;
    }

    /** The draining loop; woken lists the tasks in the order of their task_awake. */
    method SemDestroy() returns (woken: seq<Ptr>)
      requires Valid()
      modifies this
      ensures Valid() && State() == Destroy(old(State())) && woken == old(waitQueue.items)
    {
      destroy := 1;
      waitQueue := waitQueue.Head();
      var wake := waitQueue.Item();
      woken := [];
      assert NULL !in waitQueue.items;
      while wake != NULL
        invariant destroy == 1 && value == old(value) && NULL !in waitQueue.items
        invariant waitQueue.cursor == 0 && wake == waitQueue.Item()
        invariant woken + waitQueue.items == old(waitQueue.items)
        decreases |waitQueue.items|
      {
        DelHead(waitQueue);
        ShiftOne(woken, waitQueue.items);
        waitQueue := waitQueue.Del(wake);
        woken := woken + [wake];
        waitQueue := waitQueue.Head();
        wake := waitQueue.Item();
      }
      EmptyOrHead(waitQueue);
    }
  }

  /** sem_create, whose allocations succeed. */
  method SemCreate(value: int) returns (s: Semaphore?)
    ensures s == null <==> value < 0
    ensures s != null ==> fresh(s) && s.Valid() && s.State() == Create(value)
  {
    if value < 0 {
      return null;
    }
    s := new Semaphore(value);
  }

  // ----- runs -----

  function Elements(s: seq<Ptr>): set<Ptr> {
    set t | t in s
  }

  /** A semaphore with its history: the successful sem_up calls, the successful sem_down calls, and
      the tasks woken from the wait queue whose sem_down has not returned yet. */
  datatype History = History(sem: Sem, initial: nat, ups: nat, passed: nat, woken: set<Ptr>)

  datatype Event = Downed(task: Ptr) | Resumed(task: Ptr) | Upped | Destroyed

  function Begin(value: nat): History {
    History(Create(value), value, 0, 0, {})
  }

  /** A task inside sem_down cannot call it; only a woken task resumes. Other events do nothing. */
  function Step(h: History, e: Event): History {
    match e
    case Downed(t) =>
      if t == NULL || t in h.sem.waiting || t in h.woken then h
      else
        var (sem, outcome) := Down(h.sem, t);
        h.(sem := sem, passed := if outcome == Granted then h.passed + 1 else h.passed)
    case Resumed(t) =>
      if t !in h.woken then h
      else
        var (sem, outcome) := Resume(h.sem);
        h.(sem := sem, woken := h.woken - {t}, passed := if outcome == Granted then h.passed + 1 else h.passed)
    case Upped =>
      var (sem, outcome, wake) := Up(h.sem);
      h.(sem := sem, ups := if outcome == Granted then h.ups + 1 else h.ups,
         woken := if wake == NULL then h.woken else h.woken + {wake})
    case Destroyed =>
      h.(sem := Destroy(h.sem), woken := h.woken + Elements(h.sem.waiting))
  }

  function Run(h: History, es: seq<Event>): History
    decreases |es|
  {
    if |es| == 0 then h else Run(Step(h, es[0]), es[1..])
  }

  /** Tokens free to be taken, or owed when no one waits for them. */
  function Free(s: Sem): int {
    s.value + |s.waiting|
  }

  ghost predicate Accounted(h: History) {
    && Distinct(h.sem.waiting) && NULL !in h.sem.waiting && NULL !in h.woken
    && (forall t :: t in h.sem.waiting ==> t !in h.woken)
    // value = initial + ups - successful downs - pending downs
    && h.sem.value == h.initial + h.ups - h.passed - |h.sem.waiting| - |h.woken|
    // while the semaphore lives, somebody waits exactly when the value is negative
    && (!h.sem.destroyed ==> |h.sem.waiting| == if h.sem.value < 0 then -h.sem.value else 0)
    && (h.sem.destroyed ==> h.sem.waiting == [])
    && h.passed <= h.initial + h.ups
  }

  lemma {:induction false} DistinctSize(s: seq<Ptr>)
    requires Distinct(s)
    ensures |Elements(s)| == |s|
  {
    if |s| > 0 {
      var n := |s| - 1;
      DistinctSize(s[..n]);
      assert s == s[..n] + [s[n]];
      assert Elements(s) == Elements(s[..n]) + {s[n]};
      assert s[n] !in Elements(s[..n]);
    }
  }

  lemma StepAccounted(h: History, e: Event)
    requires Accounted(h)
    ensures Accounted(Step(h, e))
  {
    match e
    case Downed(t) =>
      if t !in h.sem.waiting {
        AppendMembers(h.sem.waiting, t);
      }
    case Resumed(t) =>
    case Upped =>
      if !h.sem.destroyed && |h.sem.waiting| > 0 {
        var first, rest := h.sem.waiting[0], h.sem.waiting[1..];
        assert first in h.sem.waiting && first !in rest;
        assert forall t :: t in rest ==> t in h.sem.waiting;
      }
    case Destroyed =>
      DistinctSize(h.sem.waiting);
      var drained := Elements(h.sem.waiting);
      assert h.woken * drained == {};
      assert |h.woken + drained| == |h.woken| + |drained|;
  }

  /** At all times, during and after sem_destroy included, the value accounts for every call; the
      successful downs never exceed what was there and what was put in; and once the woken tasks of
      a destroyed semaphore have left, its value is not negative. */
  lemma {:induction false} EveryRunAccounted(h: History, es: seq<Event>)
    requires Accounted(h)
    ensures Accounted(Run(h, es))
    ensures Run(h, es).sem.destroyed && Run(h, es).woken == {} ==> Run(h, es).sem.value >= 0
    decreases |es|
  {
    if |es| > 0 {
      StepAccounted(h, es[0]);
      EveryRunAccounted(Step(h, es[0]), es[1..]);
    }
  }

  lemma RunFromCreation(value: nat, es: seq<Event>)
    ensures Accounted(Run(Begin(value), es)) && Run(Begin(value), es).initial == value
    ensures Run(Begin(value), es).passed <= value + Run(Begin(value), es).ups
  {
    EveryRunAccounted(Begin(value), es);
    InitialStays(Begin(value), es);
  }

  lemma {:induction false} InitialStays(h: History, es: seq<Event>)
    ensures Run(h, es).initial == h.initial
    decreases |es|
  {
    if |es| > 0 {
      InitialStays(Step(h, es[0]), es[1..]);
    }
  }

  function UpsIn(es: seq<Event>): nat {
    if |es| == 0 then 0 else (if es[0] == Upped then 1 else 0) + UpsIn(es[1..])
  }

  /** Each up moves every waiter one place forward and wakes the first; nothing else moves them. */
  lemma WaiterStep(h: History, e: Event, p: nat)
    requires Accounted(h) && p < |h.sem.waiting| && !h.sem.destroyed && e != Destroyed
    ensures var t, h1 := h.sem.waiting[p], Step(h, e);
      && Accounted(h1) && !h1.sem.destroyed
      && (e != Upped ==> p < |h1.sem.waiting| && h1.sem.waiting[p] == t)
      && (e == Upped && p > 0 ==> p - 1 < |h1.sem.waiting| && h1.sem.waiting[p - 1] == t)
      && (e == Upped && p == 0 ==> t in h1.woken)
  {
    StepAccounted(h, e);
  }

  /** FIFO hand-over: the waiter at position p still waits after fewer than p + 1 ups and has been
      granted by the (p + 1)-th, whatever else happens before it resumes. */
  lemma {:induction false} GrantedByItsUp(h: History, es: seq<Event>, p: nat)
    requires Accounted(h) && p < |h.sem.waiting| && !h.sem.destroyed
    requires forall i :: 0 <= i < |es| ==> es[i] != Destroyed && es[i] != Resumed(h.sem.waiting[p])
    ensures var t, r := h.sem.waiting[p], Run(h, es);
      if UpsIn(es) <= p then p - UpsIn(es) < |r.sem.waiting| && r.sem.waiting[p - UpsIn(es)] == t
      else t !in r.sem.waiting && t in r.woken
    decreases |es|
  {
    if |es| > 0 {
      var h1 := Step(h, es[0]);
      WaiterStep(h, es[0], p);
      if es[0] == Upped && p == 0 {
        WokenStays(h1, es[1..], h.sem.waiting[p]);
      } else {
        GrantedByItsUp(h1, es[1..], if es[0] == Upped then p - 1 else p);
      }
    }
  }

  lemma {:induction false} WokenStays(h: History, es: seq<Event>, t: Ptr)
    requires Accounted(h) && t in h.woken
    requires forall i :: 0 <= i < |es| ==> es[i] != Resumed(t)
    ensures t in Run(h, es).woken && t !in Run(h, es).sem.waiting
    decreases |es|
  {
    if |es| > 0 {
      StepAccounted(h, es[0]);
      WokenStays(Step(h, es[0]), es[1..], t);
    }
  }

  /** A sem_down that the task can make: it is not inside of one. */
  predicate MakesDown(h: History, e: Event) {
    e.Downed? && e.task != NULL && e.task !in h.sem.waiting && e.task !in h.woken
  }

  function DownsIn(h: History, es: seq<Event>): nat
    decreases |es|
  {
    if |es| == 0 then 0 else (if MakesDown(h, es[0]) then 1 else 0) + DownsIn(Step(h, es[0]), es[1..])
  }

  /** While the semaphore lives every sem_up succeeds, and every sem_down made has passed, waits or has
      been granted. */
  lemma {:induction false} LiveRun(h: History, es: seq<Event>)
    requires Accounted(h) && !h.sem.destroyed && forall i :: 0 <= i < |es| ==> es[i] != Destroyed
    ensures var r := Run(h, es);
      && Accounted(r) && !r.sem.destroyed && r.initial == h.initial && r.ups == h.ups + UpsIn(es)
      && r.passed + |r.sem.waiting| + |r.woken| == h.passed + |h.sem.waiting| + |h.woken| + DownsIn(h, es)
    decreases |es|
  {
    if |es| > 0 {
      StepAccounted(h, es[0]);
      LiveStep(h, es[0]);
      LiveRun(Step(h, es[0]), es[1..]);
    }
  }

  lemma LiveStep(h: History, e: Event)
    requires Accounted(h) && !h.sem.destroyed && e != Destroyed
    ensures var h1 := Step(h, e);
      && !h1.sem.destroyed && h1.initial == h.initial && h1.ups == h.ups + (if e == Upped then 1 else 0)
      && h1.passed + |h1.sem.waiting| + |h1.woken|
         == h.passed + |h.sem.waiting| + |h.woken| + if MakesDown(h, e) then 1 else 0
  {
    if e == Upped && |h.sem.waiting| > 0 {
      assert h.sem.waiting[0] in h.sem.waiting;
    }
  }

  /** A living semaphore from its creation, by the calls alone: its value, how many tasks wait, and how
      many have got a token. */
  lemma LiveFromCreation(value: nat, es: seq<Event>)
    requires forall i :: 0 <= i < |es| ==> es[i] != Destroyed
    ensures var r, downs, ups := Run(Begin(value), es), DownsIn(Begin(value), es), UpsIn(es);
      && r.sem.value == value + ups - downs
      && |r.sem.waiting| == (if downs > value + ups then downs - value - ups else 0)
      && r.passed + |r.woken| == if downs > value + ups then value + ups else downs
  {
    LiveRun(Begin(value), es);
  }

  /** After sem_destroy, for ever: nobody waits, every further call fails, a woken sem_down included, and
      no sem_down or sem_up is counted as successful. */
  lemma DestroyedForEver(h: History, es: seq<Event>, t: Ptr)
    ensures var r := Run(Step(h, Destroyed), es);
      && r.sem.destroyed && r.sem.waiting == [] && r.passed == h.passed && r.ups == h.ups
      && Down(r.sem, t).1 == Failed && Resume(r.sem).1 == Failed && Up(r.sem).1 == Failed && Up(r.sem).2 == NULL
  {
    StaysDestroyed(Step(h, Destroyed), es);
  }

  lemma {:induction false} StaysDestroyed(h: History, es: seq<Event>)
    requires h.sem.destroyed && h.sem.waiting == []
    ensures var r := Run(h, es);
      r.sem.destroyed && r.sem.waiting == [] && r.passed == h.passed && r.ups == h.ups
    decreases |es|
  {
    if |es| > 0 {
      StaysDestroyed(Step(h, es[0]), es[1..]);
    }
  }

  /** Who waits and who is on the way out after a call: sem_up and sem_destroy move tasks from the wait
      queue, and a woken task leaves by resuming. */
  lemma WhereAfter(h: History, e: Event, t: Ptr)
    requires Accounted(h)
    ensures var h1 := Step(h, e);
      var taken := t in h.sem.waiting && (e == Destroyed || (e == Upped && h.sem.waiting[0] == t));
      && (t in h1.sem.waiting <==>
            (t in h.sem.waiting && !taken) ||
            (e == Downed(t) && MakesDown(h, e) && !h.sem.destroyed && h.sem.value <= 0))
      && (t in h1.woken <==> (t in h.woken && e != Resumed(t)) || taken)
  {
    if |h.sem.waiting| > 0 {
      var first, rest := h.sem.waiting[0], h.sem.waiting[1..];
      assert h.sem.waiting == [first] + rest && first !in rest;
    }
  }
}
