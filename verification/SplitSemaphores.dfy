/** The semaphore of kernel/semaphore.c with the suspension of sem_down as a step of its own: between
    lines 99 and 100 the caller is in the wait queue and not suspended yet. Tokens stay safe; exactly
    which wake-ups are lost. */
module SplitSemaphores {
  import opened Queues
  import opened Semaphores

  /** entering holds the tasks between the two lines, asleep those suspended on line 100, woken those
      awakened and not resumed. */
  datatype Split = Split(
    sem: Sem,
    initial: nat,
    ups: nat,
    passed: nat,
    entering: set<Ptr>,
    asleep: set<Ptr>,
    woken: set<Ptr>
  )

  datatype Move = Downs(task: Ptr) | Suspends(task: Ptr) | Resumes(task: Ptr) | Ups | Destroys

  function Created(value: nat): Split {
    Split(Create(value), value, 0, 0, {}, {}, {})
  }

  function Pending(h: Split): set<Ptr> {
    h.entering + h.asleep + h.woken
  }

  /** task_awake on the tasks in w: only suspended ones wake up. */
  function Awaken(h: Split, w: set<Ptr>): Split {
    h.(asleep := h.asleep - w, woken := h.woken + h.asleep * w)
  }

  /** A task inside sem_down cannot call it. Other events that cannot happen do nothing. */
  function Step(h: Split, e: Move): Split {
    match e
    case Downs(t) =>
      if t == NULL || t in Pending(h) then h
      else
        var (sem, outcome) := Down(h.sem, t);
        h.(sem := sem, passed := if outcome == Granted then h.passed + 1 else h.passed,
           entering := if outcome == Suspended then h.entering + {t} else h.entering)
    case Suspends(t) =>
      if t in h.entering then h.(entering := h.entering - {t}, asleep := h.asleep + {t}) else h
    case Resumes(t) =>
      if t !in h.woken then h
      else
        var (sem, outcome) := Resume(h.sem);
        h.(sem := sem, woken := h.woken - {t}, passed := if outcome == Granted then h.passed + 1 else h.passed)
    case Ups =>
      var (sem, outcome, wake) := Up(h.sem);
      Awaken(h.(sem := sem, ups := if outcome == Granted then h.ups + 1 else h.ups), {wake})
    case Destroys =>
      Awaken(h.(sem := Destroy(h.sem)), Elements(h.sem.waiting))
  }

  function Run(h: Split, es: seq<Move>): Split
    decreases |es|
  {
    if |es| == 0 then h else Run(Step(h, es[0]), es[1..])
  }

  // ----- tokens -----

  /** Where the pending tasks are: each in one place, and all on the wait queue still to be awakened. */
  ghost predicate Ordered(h: Split) {
    && Distinct(h.sem.waiting) && NULL !in h.sem.waiting && NULL !in Pending(h)
    && h.entering !! h.asleep && h.entering !! h.woken && h.asleep !! h.woken
    && (forall t :: t in h.sem.waiting ==> t in h.entering || t in h.asleep)
  }

  ghost predicate Counted(h: Split) {
    && Ordered(h)
    // value = initial + ups - successful downs - pending downs
    && h.sem.value == h.initial + h.ups - h.passed - |h.entering| - |h.asleep| - |h.woken|
    && (!h.sem.destroyed ==> |h.sem.waiting| == if h.sem.value < 0 then -h.sem.value else 0)
    && (h.sem.destroyed ==> h.sem.waiting == [])
    && h.passed <= h.initial + h.ups
  }

  lemma AwakenCounts(a: set<Ptr>, b: set<Ptr>, w: set<Ptr>)
    requires a !! b
    ensures |a - w| + |b + a * w| == |a| + |b|
  {
    assert a == (a - w) + a * w && (a - w) !! a * w && b !! a * w;
    assert |a| == |a - w| + |a * w|;
    assert |b + a * w| == |b| + |a * w|;
  }

  /** A woken task is not on the wait queue, so the pending downs are more than the queue is long. */
  lemma MorePending(h: Split, t: Ptr)
    requires Counted(h) && t in h.woken
    ensures |h.entering| + |h.asleep| + |h.woken| >= |h.sem.waiting| + 1
  {
    var w := Elements(h.sem.waiting);
    DistinctSize(h.sem.waiting);
    var all := h.entering + h.asleep;
    assert |all| == |h.entering| + |h.asleep|;
    Subset(w, all);
    assert h.woken != {};
  }

  lemma Subset(a: set<Ptr>, b: set<Ptr>)
    requires a <= b
    ensures |a| <= |b|
  {
    assert b == a + (b - a) && a !! (b - a);
  }

  lemma UpsOrdered(h: Split)
    requires Ordered(h)
    ensures Ordered(Step(h, Ups))
  {
    if !h.sem.destroyed && |h.sem.waiting| > 0 {
      var first, rest := h.sem.waiting[0], h.sem.waiting[1..];
      assert first in h.sem.waiting && first !in rest;
      assert forall t :: t in rest ==> t in h.sem.waiting;
    }
  }

  lemma UpsCounted(h: Split)
    requires Counted(h)
    ensures Counted(Step(h, Ups))
  {
    UpsOrdered(h);
    AwakenCounts(h.asleep, h.woken, {Up(h.sem).2});
  }

  lemma DownsCounted(h: Split, t: Ptr)
    requires Counted(h)
    ensures Counted(Step(h, Downs(t)))
  {
    if t !in Pending(h) {
      assert t !in h.sem.waiting;
      AppendMembers(h.sem.waiting, t);
    }
  }

  lemma ResumesCounted(h: Split, t: Ptr)
    requires Counted(h)
    ensures Counted(Step(h, Resumes(t)))
  {
    if t in h.woken {
      MorePending(h, t);
    }
  }

  /** Waking some of the suspended tasks leaves every task in one place and their number the same. */
  lemma AwakenOrdered(h: Split, w: set<Ptr>)
    requires h.entering !! h.asleep && h.entering !! h.woken && h.asleep !! h.woken
    ensures var a := Awaken(h, w);
      && a.entering !! a.asleep && a.entering !! a.woken && a.asleep !! a.woken
      && Pending(a) == Pending(h) && |a.asleep| + |a.woken| == |h.asleep| + |h.woken|
  {
    AwakenCounts(h.asleep, h.woken, w);
  }

  lemma SuspendsCounted(h: Split, t: Ptr)
    requires Counted(h)
    ensures Counted(Step(h, Suspends(t)))
  {
  }

  lemma DestroysCounted(h: Split)
    requires Counted(h)
    ensures Counted(Step(h, Destroys))
  {
    AwakenOrdered(h.(sem := Destroy(h.sem)), Elements(h.sem.waiting));
  }

  /** Even when wake-ups are lost, every call accounts for its token: the successful downs never exceed
      what was there and what was put in. */
  lemma StepCounted(h: Split, e: Move)
    requires Counted(h)
    ensures Counted(Step(h, e)) && Step(h, e).initial == h.initial
  {
    match e
    case Downs(t) => DownsCounted(h, t);
    case Suspends(t) => SuspendsCounted(h, t);
    case Resumes(t) => ResumesCounted(h, t);
    case Ups => UpsCounted(h);
    case Destroys => DestroysCounted(h);
  }

  lemma {:induction false} EveryRunCounted(h: Split, es: seq<Move>)
    requires Counted(h)
    ensures Counted(Run(h, es)) && Run(h, es).passed <= h.initial + Run(h, es).ups
    decreases |es|
  {
    if |es| > 0 {
      StepCounted(h, es[0]);
      EveryRunCounted(Step(h, es[0]), es[1..]);
    }
  }

  /** The mutex of the message queue: at most one task is between its down and its up. */
  lemma MutexSafe(es: seq<Move>)
    ensures Run(Created(1), es).passed <= Run(Created(1), es).ups + 1
  {
    EveryRunCounted(Created(1), es);
  }

  // ----- lost wake-ups -----

  /** Taken off the wait queue and not awakened. */
  predicate Lost(h: Split, t: Ptr) {
    t !in h.sem.waiting && (t in h.entering || t in h.asleep)
  }

  /** A sem_up that finds the task at the head of the wait queue, or a sem_destroy that finds it there
      anywhere, before the task has suspended itself. */
  predicate TooSoon(h: Split, e: Move, t: Ptr) {
    && t in h.entering && !h.sem.destroyed
    && ((e == Ups && |h.sem.waiting| > 0 && h.sem.waiting[0] == t) || (e == Destroys && t in h.sem.waiting))
  }

  /** Those and no other events lose a wake-up, and the task then never leaves sem_down. */
  lemma LostStep(h: Split, e: Move, t: Ptr)
    requires Counted(h)
    ensures Lost(Step(h, e), t) <==> Lost(h, t) || TooSoon(h, e, t)
  {
    match e
    case Downs(u) =>
      if u !in Pending(h) {
        AppendMembers(h.sem.waiting, u);
      }
    case Ups =>
      if !h.sem.destroyed && |h.sem.waiting| > 0 {
        var first, rest := h.sem.waiting[0], h.sem.waiting[1..];
        assert h.sem.waiting == [first] + rest && first !in rest;
      }
    case _ =>
  }

  predicate SomeTooSoon(h: Split, es: seq<Move>, t: Ptr)
    decreases |es|
  {
    |es| > 0 && (TooSoon(h, es[0], t) || SomeTooSoon(Step(h, es[0]), es[1..], t))
  }

  lemma {:induction false} LostIff(h: Split, es: seq<Move>, t: Ptr)
    requires Counted(h)
    ensures Lost(Run(h, es), t) <==> Lost(h, t) || SomeTooSoon(h, es, t)
    decreases |es|
  {
    if |es| > 0 {
      StepCounted(h, es[0]);
      LostStep(h, es[0], t);
      LostIff(Step(h, es[0]), es[1..], t);
    }
  }

  /** The shortest such run: a down that finds no token, and an up before it has suspended its caller. */
  lemma LostWakeUp()
    ensures Counted(Created(0)) && Lost(Step(Step(Created(0), Downs(1)), Ups), 1)
  {
  }

  /** Where a task is after an event; taken says that the event takes it off the wait queue. */
  ghost predicate Moves(h: Split, h1: Split, e: Move, t: Ptr, taken: bool) {
    && (t in h1.entering <==>
          (t in h.entering && e != Suspends(t)) ||
          (e == Downs(t) && t != NULL && t !in Pending(h) && !h.sem.destroyed && h.sem.value <= 0))
    && (t in h1.asleep <==> (t in h.asleep && !taken) || (t in h.entering && e == Suspends(t)))
    && (t in h1.woken <==> (t in h.woken && e != Resumes(t)) || (t in h.asleep && taken))
  }

  lemma UpsMoves(h: Split, t: Ptr)
    requires Counted(h)
    ensures Moves(h, Step(h, Ups), Ups, t, |h.sem.waiting| > 0 && h.sem.waiting[0] == t)
  {
    assert NULL !in h.asleep;
  }

  lemma OthersMove(h: Split, e: Move, t: Ptr)
    requires Ordered(h) && !e.Ups?
    ensures Moves(h, Step(h, e), e, t, e == Destroys && t in h.sem.waiting)
  {
  }

  /** Only a task that has suspended itself is awakened by a sem_up or a sem_destroy that takes it off the
      wait queue. */
  lemma WhereAfter(h: Split, e: Move, t: Ptr)
    requires Counted(h)
    ensures Moves(h, Step(h, e), e, t,
      t in h.sem.waiting && (e == Destroys || (e == Ups && h.sem.waiting[0] == t)))
  {
    if e.Ups? {
      UpsMoves(h, t);
      assert |h.sem.waiting| > 0 && h.sem.waiting[0] == t ==> t in h.sem.waiting;
    } else {
      OthersMove(h, e, t);
    }
  }
}
