/** The message queue of kernel/mqueue.c (lines 123-252): any number of tasks, each at its own point
    of mqueue_send or mqueue_recv, over three semaphores and one ring. One step of a task is one
    kernel call: a sem_down up to its end or suspension, the rest of a sem_down after the wake-up,
    one ring operation, or one sem_up with the task_awake it makes. */
module MsgQueue {
  import opened Queues
  import opened Semaphores
  import opened Ring

  type Msg = seq<byte>

  /** The program points. A sender carries its message m, a receiver the content d of its buffer;
      Wait means suspended in a sem_down, Granted woken but not resumed. */
  datatype Pc =
    | Idle
    // mqueue_send
    | SpaceWait(m: Msg) | SpaceGranted(m: Msg) | SpaceHeld(m: Msg)
    | SendLockWait(m: Msg) | SendLockGranted(m: Msg) | SendLocked(m: Msg)
    | Added(m: Msg) | SendUnlocked(m: Msg)
    // mqueue_recv
    | ItemWait(d: Msg) | ItemGranted(d: Msg) | ItemHeld(d: Msg)
    | RecvLockWait(d: Msg) | RecvLockGranted(d: Msg) | RecvLocked(d: Msg)
    | Taken(d: Msg) | RecvUnlocked(d: Msg)

  /** A call that has ended: whose it was, what it returned, and what the caller's buffer then holds. */
  datatype Done = Done(task: nat, code: int, data: Msg)

  /** sent and received list the messages put into and taken out of the ring so far; results the calls
      that have ended. Task 0, the kernel, makes no calls. */
  datatype Mq = Mq(
    space: Sem,
    items: Sem,
    lock: Sem,
    ring: RingBuf,
    tasks: seq<Pc>,
    sent: seq<Msg>,
    received: seq<Msg>,
    results: seq<Done>
  )

  /** What an idle task does when it runs. */
  datatype Call = Send(m: Msg) | Recv(d: Msg) | Nothing

  datatype Turn = Turn(task: nat, call: Call)

  /** mqueue_create, all of whose allocations have succeeded. */
  function Init(memory: seq<byte>, maxMsgs: nat, msgSize: nat, n: nat): Mq {
    Mq(Create(maxMsgs), Create(0), Create(1), NewRing(memory, maxMsgs, msgSize), seq(n + 1, _ => Idle), [], [], [])
  }

  function At(q: Mq, t: nat, pc: Pc): Mq
    requires t < |q.tasks|
  {
    q.(tasks := q.tasks[t := pc])
  }

  /** What the buffer of a call holds at a program point. */
  function Buffer(pc: Pc): Msg {
    match pc
    case Idle => []
    case SpaceWait(m) => m
    case SpaceGranted(m) => m
    case SpaceHeld(m) => m
    case SendLockWait(m) => m
    case SendLockGranted(m) => m
    case SendLocked(m) => m
    case Added(m) => m
    case SendUnlocked(m) => m
    case ItemWait(d) => d
    case ItemGranted(d) => d
    case ItemHeld(d) => d
    case RecvLockWait(d) => d
    case RecvLockGranted(d) => d
    case RecvLocked(d) => d
    case Taken(d) => d
    case RecvUnlocked(d) => d
  }

  function Return(q: Mq, t: nat, code: int, data: Msg): Mq
    requires t < |q.tasks|
  {
    At(q, t, Idle).(results := q.results + [Done(t, code, data)])
  }

  /** The program point of a suspended task once task_awake has made it ready. */
  function Woken(pc: Pc): Pc {
    match pc
    case SpaceWait(m) => SpaceGranted(m)
    case SendLockWait(m) => SendLockGranted(m)
    case ItemWait(d) => ItemGranted(d)
    case RecvLockWait(d) => RecvLockGranted(d)
    case _ => pc
  }

  function Awake(tasks: seq<Pc>, t: Ptr): seq<Pc> {
    if t == NULL || t >= |tasks| then tasks else tasks[t := Woken(tasks[t])]
  }

  /** Where a sem_down leads: on when granted, to the wait point when suspended, out when failed. */
  function AfterDown(q: Mq, t: nat, outcome: Outcome, on: Pc, wait: Pc): Mq
    requires t < |q.tasks|
  {
    match outcome
    case Granted => At(q, t, on)
    case Suspended => At(q, t, wait)
    case Failed => Return(q, t, ERROR, Buffer(on))
  }

  function DownSpace(q: Mq, t: nat, m: Msg): Mq
    requires t < |q.tasks|
  {
    var (sem, outcome) := Down(q.space, t);
    AfterDown(q.(space := sem), t, outcome, SpaceHeld(m), SpaceWait(m))
  }

  function DownItems(q: Mq, t: nat, d: Msg): Mq
    requires t < |q.tasks|
  {
    var (sem, outcome) := Down(q.items, t);
    AfterDown(q.(items := sem), t, outcome, ItemHeld(d), ItemWait(d))
  }

  function DownLock(q: Mq, t: nat, on: Pc, wait: Pc): Mq
    requires t < |q.tasks|
  {
    var (sem, outcome) := Down(q.lock, t);
    AfterDown(q.(lock := sem), t, outcome, on, wait)
  }

  function UpLock(q: Mq, t: nat, on: Pc): Mq
    requires t < |q.tasks|
  {
    var (sem, outcome, wake) := Up(q.lock);
    if outcome == Failed then Return(q, t, ERROR, Buffer(on))
    else At(q, t, on).(lock := sem, tasks := Awake(q.tasks[t := on], wake))
  }

  /** The last statement of mqueue_send. */
  function UpItems(q: Mq, t: nat): Mq
    requires t < |q.tasks|
  {
    var (sem, outcome, wake) := Up(q.items);
    if outcome == Failed then Return(q, t, ERROR, Buffer(q.tasks[t]))
    else Return(q, t, NOERROR, Buffer(q.tasks[t])).(items := sem, tasks := Awake(q.tasks[t := Idle], wake))
  }

  /** The last statement of mqueue_recv. */
  function UpSpace(q: Mq, t: nat): Mq
    requires t < |q.tasks|
  {
    var (sem, outcome, wake) := Up(q.space);
    if outcome == Failed then Return(q, t, ERROR, Buffer(q.tasks[t]))
    else Return(q, t, NOERROR, Buffer(q.tasks[t])).(space := sem, tasks := Awake(q.tasks[t := Idle], wake))
  }

  /** circular_buffer_add; a full ring would make the call return while it holds the mutex. */
  function Insert(q: Mq, t: nat, m: Msg): Mq
    requires t < |q.tasks| && Wf(q.ring) && |m| == q.ring.itemSize
  {
    var (ring, code) := Inserted(q.ring, m);
    if code != CB_NOERROR then Return(q.(ring := ring), t, ERROR, m)
    else At(q, t, Added(m)).(ring := ring, sent := q.sent + [m])
  }

  /** circular_buffer_remove. Its result is compared with ERROR (-1), which it never returns, so an
      empty ring would go unnoticed and leave the destination as it was. */
  function Extract(q: Mq, t: nat, d: Msg): Mq
    requires t < |q.tasks| && Wf(q.ring)
  {
    var (ring, code, item) := Removed(q.ring, d);
    if code == ERROR then Return(q.(ring := ring), t, ERROR, item)
    else At(q, t, Taken(item)).(ring := ring, received := if code == CB_NOERROR then q.received + [item] else q.received)
  }

  ghost predicate Typed(q: Mq) {
    && Wf(q.ring)
    && |q.tasks| > 0 && q.tasks[0] == Idle
    && forall t :: 0 <= t < |q.tasks| ==> Sized(q.tasks[t], q.ring.itemSize)
  }

  /** Messages have the size the queue was made for. */
  predicate Sized(pc: Pc, size: nat) {
    pc != Idle ==> |Buffer(pc)| == size
  }

  /** One step of a task. A suspended task cannot run, and a call passes buffers of the right size. */
  function Step(q: Mq, turn: Turn): Mq
    requires Typed(q)
  {
    var t := turn.task;
    if t == 0 || t >= |q.tasks| then q
    else
      match q.tasks[t]
      case Idle =>
        (match turn.call
         case Send(m) => if |m| == q.ring.itemSize then DownSpace(q, t, m) else q
         case Recv(d) => if |d| == q.ring.itemSize then DownItems(q, t, d) else q
         case Nothing => q)
      case SpaceWait(_) => q
      case SpaceGranted(m) =>
        var (sem, outcome) := Resume(q.space);
        AfterDown(q.(space := sem), t, outcome, SpaceHeld(m), SpaceWait(m))
      case SpaceHeld(m) => DownLock(q, t, SendLocked(m), SendLockWait(m))
      case SendLockWait(_) => q
      case SendLockGranted(m) =>
        var (sem, outcome) := Resume(q.lock);
        AfterDown(q.(lock := sem), t, outcome, SendLocked(m), SendLockWait(m))
      case SendLocked(m) => assert Sized(q.tasks[t], q.ring.itemSize); Insert(q, t, m)
      case Added(m) => UpLock(q, t, SendUnlocked(m))
      case SendUnlocked(_) => UpItems(q, t)
      case ItemWait(_) => q
      case ItemGranted(d) =>
        var (sem, outcome) := Resume(q.items);
        AfterDown(q.(items := sem), t, outcome, ItemHeld(d), ItemWait(d))
      case ItemHeld(d) => DownLock(q, t, RecvLocked(d), RecvLockWait(d))
      case RecvLockWait(_) => q
      case RecvLockGranted(d) =>
        var (sem, outcome) := Resume(q.lock);
        AfterDown(q.(lock := sem), t, outcome, RecvLocked(d), RecvLockWait(d))
      case RecvLocked(d) => Extract(q, t, d)
      case Taken(d) => UpLock(q, t, RecvUnlocked(d))
      case RecvUnlocked(_) => UpSpace(q, t)
  }

  // ----- counting program points -----

  /** A token of space is held by a sender that has not filled the slot yet, or by a receiver that has
      emptied one and not given it back yet. */
  predicate UsesSpace(pc: Pc) {
    pc.SpaceGranted? || pc.SpaceHeld? || pc.SendLockWait? || pc.SendLockGranted? || pc.SendLocked? ||
    pc.Taken? || pc.RecvUnlocked?
  }

  /** An item in the ring is claimed by a receiver on its way to it, or not announced yet. */
  predicate UsesItem(pc: Pc) {
    pc.ItemGranted? || pc.ItemHeld? || pc.RecvLockWait? || pc.RecvLockGranted? || pc.RecvLocked? ||
    pc.Added? || pc.SendUnlocked?
  }

  /** Between sem_down and sem_up of the mutex, or granted it. */
  predicate UsesLock(pc: Pc) {
    pc.SendLockGranted? || pc.RecvLockGranted? || InSection(pc)
  }

  predicate InSection(pc: Pc) {
    pc.SendLocked? || pc.RecvLocked? || pc.Added? || pc.Taken?
  }

  predicate WaitsLock(pc: Pc) {
    pc.SendLockWait? || pc.RecvLockWait?
  }

  predicate Blocked(pc: Pc) {
    pc.SpaceWait? || pc.ItemWait? || WaitsLock(pc)
  }

  function Count(tasks: seq<Pc>, p: Pc -> bool): nat {
    if |tasks| == 0 then 0 else Count(tasks[..|tasks| - 1], p) + if p(tasks[|tasks| - 1]) then 1 else 0
  }

  lemma {:induction false} CountUpdate(tasks: seq<Pc>, t: nat, pc: Pc, p: Pc -> bool)
    requires t < |tasks|
    ensures Count(tasks[t := pc], p) == Count(tasks, p) - (if p(tasks[t]) then 1 else 0) + (if p(pc) then 1 else 0)
  {
    var n := |tasks| - 1;
    if t == n {
      assert tasks[t := pc][..n] == tasks[..n];
    } else {
      assert tasks[t := pc][..n] == tasks[..n][t := pc];
      CountUpdate(tasks[..n], t, pc, p);
    }
  }

  lemma {:induction false} CountNone(tasks: seq<Pc>, p: Pc -> bool)
    requires forall t :: 0 <= t < |tasks| ==> !p(tasks[t])
    ensures Count(tasks, p) == 0
  {
    if |tasks| > 0 {
      CountNone(tasks[..|tasks| - 1], p);
    }
  }

  lemma {:induction false} CountSome(tasks: seq<Pc>, p: Pc -> bool, t: nat)
    requires t < |tasks| && p(tasks[t])
    ensures Count(tasks, p) >= 1
  {
    if t < |tasks| - 1 {
      CountSome(tasks[..|tasks| - 1], p, t);
    }
  }

  lemma {:induction false} CountTwo(tasks: seq<Pc>, p: Pc -> bool, t: nat, u: nat)
    requires t < u < |tasks| && p(tasks[t]) && p(tasks[u])
    ensures Count(tasks, p) >= 2
  {
    if u < |tasks| - 1 {
      CountTwo(tasks[..|tasks| - 1], p, t, u);
    } else {
      CountSome(tasks[..u], p, t);
    }
  }

  // ----- the invariant -----

  /** A living semaphore whose wait queue is as long as its value is negative. */
  ghost predicate SemOk(s: Sem, n: nat) {
    && !s.destroyed
    && |s.waiting| == (if s.value < 0 then -s.value else 0)
    && Distinct(s.waiting)
    && forall t :: t in s.waiting ==> 1 <= t < n
  }

  /** Who is on which wait queue. */
  ghost predicate Linked(q: Mq, t: nat)
    requires t < |q.tasks|
  {
    && (t in q.space.waiting <==> q.tasks[t].SpaceWait?)
    && (t in q.items.waiting <==> q.tasks[t].ItemWait?)
    && (t in q.lock.waiting <==> WaitsLock(q.tasks[t]))
  }

  /** Space tokens free or in use and stored items make up the capacity; item tokens free or in use
      make up the stored items; the mutex has one token. */
  ghost predicate Tokens(space: int, items: int, lock: int, r: RingBuf, tasks: seq<Pc>) {
    && space + Count(tasks, UsesSpace) + r.quant == r.capacity
    && items + Count(tasks, UsesItem) == r.quant
    && lock + Count(tasks, UsesLock) == 1
  }

  ghost predicate Inv(q: Mq) {
    && Typed(q)
    && SemOk(q.space, |q.tasks|) && SemOk(q.items, |q.tasks|) && SemOk(q.lock, |q.tasks|)
    && (forall t :: 0 <= t < |q.tasks| ==> Linked(q, t))
    && Tokens(Free(q.space), Free(q.items), Free(q.lock), q.ring, q.tasks)
    && q.received + StoredItems(q.ring) == q.sent
    && (forall i :: 0 <= i < |q.results| ==> q.results[i].code == NOERROR)
  }

  lemma InitInv(memory: seq<byte>, maxMsgs: nat, msgSize: nat, n: nat)
    requires maxMsgs > 0 && msgSize > 1 && |memory| == maxMsgs * msgSize
    ensures Inv(Init(memory, maxMsgs, msgSize, n))
  {
    NewRingIsEmpty(memory, maxMsgs, msgSize);
    var q := Init(memory, maxMsgs, msgSize, n);
    CountNone(q.tasks, UsesSpace);
    CountNone(q.tasks, UsesItem);
    CountNone(q.tasks, UsesLock);
  }

  /** How much a weight gains when a task moves from one point to another. */
  function Gain(p: Pc -> bool, from: Pc, to: Pc): int {
    (if p(to) then 1 else 0) - (if p(from) then 1 else 0)
  }

  /** The three counts after one task has moved. */
  lemma Moved(tasks: seq<Pc>, t: nat, pc: Pc)
    requires t < |tasks|
    ensures Count(tasks[t := pc], UsesSpace) == Count(tasks, UsesSpace) + Gain(UsesSpace, tasks[t], pc)
    ensures Count(tasks[t := pc], UsesItem) == Count(tasks, UsesItem) + Gain(UsesItem, tasks[t], pc)
    ensures Count(tasks[t := pc], UsesLock) == Count(tasks, UsesLock) + Gain(UsesLock, tasks[t], pc)
  {
    CountUpdate(tasks, t, pc, UsesSpace);
    CountUpdate(tasks, t, pc, UsesItem);
    CountUpdate(tasks, t, pc, UsesLock);
  }

  lemma DownOk(s: Sem, t: nat, n: nat)
    requires SemOk(s, n) && 1 <= t < n && t !in s.waiting
    ensures var (s1, outcome) := Down(s, t);
      && SemOk(s1, n) && outcome != Failed
      && (outcome == Granted ==> Free(s1) == Free(s) - 1 && s1.waiting == s.waiting)
      && (outcome == Suspended ==> Free(s1) == Free(s) && forall u :: u in s1.waiting <==> u in s.waiting || u == t)
  {
    AppendMembers(s.waiting, t);
  }

  lemma UpOk(s: Sem, n: nat)
    requires SemOk(s, n)
    ensures var (s1, outcome, wake) := Up(s);
      && SemOk(s1, n) && outcome == Granted
      && (wake == NULL ==> Free(s1) == Free(s) + 1 && s1.waiting == s.waiting == [])
      && (wake != NULL ==> Free(s1) == Free(s) && 1 <= wake < n && wake in s.waiting)
      && (wake != NULL ==> forall u :: u in s1.waiting <==> u in s.waiting && u != wake)
  {
    if |s.waiting| > 0 {
      var first, rest := s.waiting[0], s.waiting[1..];
      assert s.waiting == [first] + rest && first in s.waiting;
      assert forall u :: u in rest ==> u in s.waiting;
    }
  }

  /** The wait queue s1 is s, except that t is on it exactly when it now waits there. */
  ghost predicate Rejoined(s1: Sem, s: Sem, t: nat, waits: bool) {
    (t in s1.waiting <==> waits) && forall u :: u != t ==> (u in s1.waiting <==> u in s.waiting)
  }

  /** One task moves, and the semaphores gain what its move gives up. */
  lemma MoveKeeps(q: Mq, q1: Mq, t: nat, pc: Pc)
    requires Inv(q) && 1 <= t < |q.tasks| && Sized(pc, q.ring.itemSize)
    requires q1 == q.(space := q1.space, items := q1.items, lock := q1.lock, tasks := q.tasks[t := pc])
    requires SemOk(q1.space, |q.tasks|) && SemOk(q1.items, |q.tasks|) && SemOk(q1.lock, |q.tasks|)
    requires Rejoined(q1.space, q.space, t, pc.SpaceWait?) && Rejoined(q1.items, q.items, t, pc.ItemWait?)
    requires Rejoined(q1.lock, q.lock, t, WaitsLock(pc))
    requires Free(q1.space) == Free(q.space) - Gain(UsesSpace, q.tasks[t], pc)
    requires Free(q1.items) == Free(q.items) - Gain(UsesItem, q.tasks[t], pc)
    requires Free(q1.lock) == Free(q.lock) - Gain(UsesLock, q.tasks[t], pc)
    ensures Inv(q1)
  {
    Moved(q.tasks, t, pc);
    forall u | 0 <= u < |q1.tasks|
      ensures Linked(q1, u)
    {
      assert Linked(q, u);
    }
  }

  lemma DownSpaceInv(q: Mq, t: nat, m: Msg)
    requires Inv(q) && 1 <= t < |q.tasks| && q.tasks[t] == Idle && |m| == q.ring.itemSize
    ensures Inv(DownSpace(q, t, m))
  {
    assert Linked(q, t);
    DownOk(q.space, t, |q.tasks|);
    MoveKeeps(q, DownSpace(q, t, m), t, DownSpace(q, t, m).tasks[t]);
  }

  lemma DownItemsInv(q: Mq, t: nat, d: Msg)
    requires Inv(q) && 1 <= t < |q.tasks| && q.tasks[t] == Idle && |d| == q.ring.itemSize
    ensures Inv(DownItems(q, t, d))
  {
    assert Linked(q, t);
    DownOk(q.items, t, |q.tasks|);
    MoveKeeps(q, DownItems(q, t, d), t, DownItems(q, t, d).tasks[t]);
  }

  /** From a point before the mutex to the point inside it, or to the wait for it. */
  predicate LockPath(pc: Pc, on: Pc, wait: Pc) {
    || (pc.SpaceHeld? && on == SendLocked(pc.m) && wait == SendLockWait(pc.m))
    || (pc.ItemHeld? && on == RecvLocked(pc.d) && wait == RecvLockWait(pc.d))
  }

  /** What the mutex loses is what the move gains. */
  lemma DownLockGains(q: Mq, t: nat, on: Pc, wait: Pc)
    requires SemOk(q.lock, |q.tasks|) && 1 <= t < |q.tasks| && LockPath(q.tasks[t], on, wait) && Linked(q, t)
    ensures var q1, pc := DownLock(q, t, on, wait), if Down(q.lock, t).1 == Granted then on else wait;
      && q1 == q.(lock := Down(q.lock, t).0, tasks := q.tasks[t := pc]) && SemOk(q1.lock, |q.tasks|)
      && Rejoined(q1.lock, q.lock, t, WaitsLock(pc)) && Free(q1.lock) == Free(q.lock) - Gain(UsesLock, q.tasks[t], pc)
      && Gain(UsesSpace, q.tasks[t], pc) == Gain(UsesItem, q.tasks[t], pc) == 0
  {
    DownOk(q.lock, t, |q.tasks|);
  }

  lemma DownLockInv(q: Mq, t: nat, on: Pc, wait: Pc)
    requires Inv(q) && 1 <= t < |q.tasks| && LockPath(q.tasks[t], on, wait)
    ensures Inv(DownLock(q, t, on, wait))
  {
    assert Linked(q, t) && Sized(q.tasks[t], q.ring.itemSize);
    DownLockGains(q, t, on, wait);
    MoveKeeps(q, DownLock(q, t, on, wait), t, if Down(q.lock, t).1 == Granted then on else wait);
  }

  /** A move that no semaphore and no count notices. */
  lemma QuietMoveInv(q: Mq, t: nat, pc: Pc)
    requires Inv(q) && 1 <= t < |q.tasks| && Sized(pc, q.ring.itemSize)
    requires !Blocked(q.tasks[t]) && !Blocked(pc)
    requires UsesSpace(q.tasks[t]) == UsesSpace(pc) && UsesItem(q.tasks[t]) == UsesItem(pc)
    requires UsesLock(q.tasks[t]) == UsesLock(pc)
    ensures Inv(At(q, t, pc))
  {
    assert Linked(q, t);
    MoveKeeps(q, At(q, t, pc), t, pc);
  }

  /** An up moves its caller and the task it hands the token to, if any. */
  lemma UpCounts(q: Mq, t: nat, on: Pc, wake: Ptr, p: Pc -> bool)
    requires t < |q.tasks| && wake < |q.tasks| && wake != t
    ensures Count(Awake(q.tasks[t := on], wake), p) == Count(q.tasks, p) + Gain(p, q.tasks[t], on)
      + if wake == NULL then 0 else Gain(p, q.tasks[wake], Woken(q.tasks[wake]))
  {
    CountUpdate(q.tasks, t, on, p);
    if wake != NULL {
      CountUpdate(q.tasks[t := on], wake, Woken(q.tasks[wake]), p);
    }
  }

  /** The waiter and the caller leave their points; nobody else moves. */
  lemma UpTasks(q: Mq, t: nat, on: Pc, wake: Ptr)
    requires Inv(q) && 1 <= t < |q.tasks| && wake < |q.tasks| && wake != t && Sized(on, q.ring.itemSize)
    ensures var tasks := Awake(q.tasks[t := on], wake);
      && |tasks| == |q.tasks|
      && (forall u :: 0 <= u < |tasks| ==> Sized(tasks[u], q.ring.itemSize))
      && (forall u :: 0 <= u < |tasks| ==>
            tasks[u] == if u == t then on else if u == wake != NULL then Woken(q.tasks[u]) else q.tasks[u])
      && tasks[0] == Idle
  {
    assert wake != NULL ==> Sized(q.tasks[wake], q.ring.itemSize);
  }

  ghost predicate LessWoken(s1: Sem, s: Sem, wake: Ptr) {
    forall u :: u in s1.waiting <==> u in s.waiting && u != wake
  }

  lemma UpLinks(q: Mq, q1: Mq, t: nat, on: Pc, wake: Ptr)
    requires Inv(q) && 1 <= t < |q.tasks| && wake < |q.tasks| && wake != t && !Blocked(q.tasks[t]) && !Blocked(on)
    requires q1.tasks == Awake(q.tasks[t := on], wake) && Sized(on, q.ring.itemSize)
    requires LessWoken(q1.space, q.space, wake) && LessWoken(q1.items, q.items, wake) && LessWoken(q1.lock, q.lock, wake)
    ensures forall u :: 0 <= u < |q1.tasks| ==> Linked(q1, u)
  {
    UpTasks(q, t, on, wake);
    forall u | 0 <= u < |q1.tasks|
      ensures Linked(q1, u)
    {
      assert Linked(q, u);
    }
  }

  lemma UpAllCounts(q: Mq, t: nat, on: Pc, wake: Ptr)
    requires t < |q.tasks| && wake < |q.tasks| && wake != t
    ensures var tasks := Awake(q.tasks[t := on], wake);
      var from, to := q.tasks[wake], Woken(q.tasks[wake]);
      && Count(tasks, UsesSpace) == Count(q.tasks, UsesSpace) + Gain(UsesSpace, q.tasks[t], on) +
           (if wake == NULL then 0 else Gain(UsesSpace, from, to))
      && Count(tasks, UsesItem) == Count(q.tasks, UsesItem) + Gain(UsesItem, q.tasks[t], on) +
           (if wake == NULL then 0 else Gain(UsesItem, from, to))
      && Count(tasks, UsesLock) == Count(q.tasks, UsesLock) + Gain(UsesLock, q.tasks[t], on) +
           (if wake == NULL then 0 else Gain(UsesLock, from, to))
  {
    UpCounts(q, t, on, wake, UsesSpace);
    UpCounts(q, t, on, wake, UsesItem);
    UpCounts(q, t, on, wake, UsesLock);
  }

  /** The tokens after an up: each semaphore has gained what the two moves have given up. */
  ghost predicate Balanced(q: Mq, q1: Mq, t: nat, on: Pc, wake: Ptr)
    requires t < |q.tasks| && wake < |q.tasks|
  {
    var c, w := q.tasks[t], q.tasks[wake];
    var w1 := if wake == NULL then w else Woken(w);
    && Free(q1.space) == Free(q.space) - Gain(UsesSpace, c, on) - Gain(UsesSpace, w, w1)
    && Free(q1.items) == Free(q.items) - Gain(UsesItem, c, on) - Gain(UsesItem, w, w1)
    && Free(q1.lock) == Free(q.lock) - Gain(UsesLock, c, on) - Gain(UsesLock, w, w1)
  }

  lemma UpTokens(q: Mq, q1: Mq, t: nat, on: Pc, wake: Ptr)
    requires t < |q.tasks| && wake < |q.tasks| && wake != t && Balanced(q, q1, t, on, wake)
    requires Tokens(Free(q.space), Free(q.items), Free(q.lock), q.ring, q.tasks)
    ensures Tokens(Free(q1.space), Free(q1.items), Free(q1.lock), q.ring, Awake(q.tasks[t := on], wake))
  {
    UpAllCounts(q, t, on, wake);
  }

  lemma UpKeeps(q: Mq, q1: Mq, t: nat, on: Pc, wake: Ptr)
    requires Inv(q) && 1 <= t < |q.tasks| && wake < |q.tasks| && wake != t && !Blocked(q.tasks[t]) && !Blocked(on)
    requires q1 == q.(space := q1.space, items := q1.items, lock := q1.lock, tasks := q1.tasks, results := q1.results)
    requires q1.tasks == Awake(q.tasks[t := on], wake) && Sized(on, q.ring.itemSize)
    requires SemOk(q1.space, |q.tasks|) && SemOk(q1.items, |q.tasks|) && SemOk(q1.lock, |q.tasks|)
    requires LessWoken(q1.space, q.space, wake) && LessWoken(q1.items, q.items, wake) && LessWoken(q1.lock, q.lock, wake)
    requires Balanced(q, q1, t, on, wake)
    requires q1.results == q.results || q1.results == q.results + [Done(t, NOERROR, Buffer(q.tasks[t]))]
    ensures Inv(q1)
  {
    UpLinks(q, q1, t, on, wake);
    UpTasks(q, t, on, wake);
    UpTokens(q, q1, t, on, wake);
  }

  lemma UpLockBalanced(q: Mq, t: nat, on: Pc)
    requires SemOk(q.lock, |q.tasks|) && 1 <= t < |q.tasks|
    requires (q.tasks[t].Added? && on.SendUnlocked?) || (q.tasks[t].Taken? && on.RecvUnlocked?)
    requires Up(q.lock).2 < |q.tasks| && Linked(q, Up(q.lock).2)
    ensures Balanced(q, UpLock(q, t, on), t, on, Up(q.lock).2)
  {
    UpOk(q.lock, |q.tasks|);
  }

  lemma UpLockInv(q: Mq, t: nat, on: Pc)
    requires Inv(q) && 1 <= t < |q.tasks|
    requires (q.tasks[t].Added? && on == SendUnlocked(q.tasks[t].m)) ||
             (q.tasks[t].Taken? && on == RecvUnlocked(q.tasks[t].d))
    ensures Inv(UpLock(q, t, on))
  {
    var wake := Up(q.lock).2;
    UpOk(q.lock, |q.tasks|);
    assert Linked(q, t) && Linked(q, wake) && Sized(q.tasks[t], q.ring.itemSize);
    UpLockBalanced(q, t, on);
    UpKeeps(q, UpLock(q, t, on), t, on, wake);
  }

  lemma UpItemsInv(q: Mq, t: nat)
    requires Inv(q) && 1 <= t < |q.tasks| && q.tasks[t].SendUnlocked?
    ensures Inv(UpItems(q, t))
  {
    UpOk(q.items, |q.tasks|);
    var wake := Up(q.items).2;
    assert Linked(q, t) && Linked(q, wake);
    UpKeeps(q, UpItems(q, t), t, Idle, wake);
  }

  lemma UpSpaceInv(q: Mq, t: nat)
    requires Inv(q) && 1 <= t < |q.tasks| && q.tasks[t].RecvUnlocked?
    ensures Inv(UpSpace(q, t))
  {
    UpOk(q.space, |q.tasks|);
    var wake := Up(q.space).2;
    assert Linked(q, t) && Linked(q, wake);
    UpKeeps(q, UpSpace(q, t), t, Idle, wake);
  }

  /** A task about to add finds room; a task about to remove finds an item. */
  lemma RingNeverFullNeverEmpty(q: Mq, t: nat)
    requires Inv(q) && t < |q.tasks|
    ensures q.tasks[t].SendLocked? ==> q.ring.quant < q.ring.capacity
    ensures q.tasks[t].RecvLocked? ==> q.ring.quant > 0
  {
    if q.tasks[t].SendLocked? {
      CountSome(q.tasks, UsesSpace, t);
    }
    if q.tasks[t].RecvLocked? {
      CountSome(q.tasks, UsesItem, t);
    }
  }

  /** A task fills or empties a slot of the ring. */
  lemma RingMoveKeeps(q: Mq, q1: Mq, t: nat, pc: Pc)
    requires Inv(q) && 1 <= t < |q.tasks| && Sized(pc, q.ring.itemSize) && !Blocked(q.tasks[t]) && !Blocked(pc)
    requires q1 == q.(ring := q1.ring, tasks := q.tasks[t := pc], sent := q1.sent, received := q1.received)
    requires Wf(q1.ring) && q1.ring.capacity == q.ring.capacity && q1.ring.itemSize == q.ring.itemSize
    requires q1.ring.quant == q.ring.quant - Gain(UsesSpace, q.tasks[t], pc)
    requires q1.ring.quant == q.ring.quant + Gain(UsesItem, q.tasks[t], pc)
    requires Gain(UsesLock, q.tasks[t], pc) == 0
    requires q1.received + StoredItems(q1.ring) == q1.sent
    ensures Inv(q1)
  {
    Moved(q.tasks, t, pc);
    forall u | 0 <= u < |q1.tasks|
      ensures Linked(q1, u) && Sized(q1.tasks[u], q.ring.itemSize)
    {
      assert Linked(q, u) && Sized(q.tasks[u], q.ring.itemSize);
    }
  }

  lemma InsertInv(q: Mq, t: nat, m: Msg)
    requires Inv(q) && 1 <= t < |q.tasks| && q.tasks[t] == SendLocked(m) && |m| == q.ring.itemSize
    ensures Inv(Insert(q, t, m)) && Insert(q, t, m).sent == q.sent + [m]
  {
    RingNeverFullNeverEmpty(q, t);
    AddAppends(q.ring, m);
    assert q.received + (StoredItems(q.ring) + [m]) == (q.received + StoredItems(q.ring)) + [m];
    RingMoveKeeps(q, Insert(q, t, m), t, Added(m));
  }

  /** Taking the first of the items that follow the received ones. */
  lemma OldestOut(received: seq<Msg>, item: Msg, rest: seq<Msg>)
    ensures var sent := received + ([item] + rest);
      && (received + [item]) + rest == sent && |received| < |sent|
      && sent[|received|] == item && sent[..|received| + 1] == received + [item]
  {
    assert (received + [item]) + rest == received + ([item] + rest);
  }

  /** The message a receiver takes is the oldest one inserted and not yet taken. */
  lemma ExtractInv(q: Mq, t: nat, d: Msg)
    requires Inv(q) && 1 <= t < |q.tasks| && q.tasks[t] == RecvLocked(d)
    ensures Inv(Extract(q, t, d)) && |q.received| < |q.sent|
    ensures Extract(q, t, d).tasks[t] == Taken(q.sent[|q.received|])
    ensures Extract(q, t, d).received == q.sent[..|q.received| + 1]
  {
    RingNeverFullNeverEmpty(q, t);
    RemoveTakesOldest(q.ring, d);
    var (ring, code, item) := Removed(q.ring, d);
    OldestOut(q.received, item, StoredItems(ring));
    RingMoveKeeps(q, Extract(q, t, d), t, Taken(item));
  }

  lemma SendStepInv(q: Mq, turn: Turn)
    requires Inv(q) && 1 <= turn.task < |q.tasks| && Sending(q.tasks[turn.task])
    ensures Inv(Step(q, turn))
  {
    var t := turn.task;
    assert Sized(q.tasks[t], q.ring.itemSize);
    match q.tasks[t]
    case SpaceGranted(m) => QuietMoveInv(q, t, SpaceHeld(m));
    case SpaceHeld(m) => DownLockInv(q, t, SendLocked(m), SendLockWait(m));
    case SendLockGranted(m) => QuietMoveInv(q, t, SendLocked(m));
    case SendLocked(m) => InsertInv(q, t, m);
    case Added(m) => UpLockInv(q, t, SendUnlocked(m));
    case SendUnlocked(_) => UpItemsInv(q, t);
    case _ =>
  }

  predicate Sending(pc: Pc) {
    pc.SpaceWait? || pc.SpaceGranted? || pc.SpaceHeld? || pc.SendLockWait? || pc.SendLockGranted? || pc.SendLocked? ||
    pc.Added? || pc.SendUnlocked?
  }

  lemma RecvStepInv(q: Mq, turn: Turn)
    requires Inv(q) && 1 <= turn.task < |q.tasks| && q.tasks[turn.task] != Idle && !Sending(q.tasks[turn.task])
    ensures Inv(Step(q, turn))
  {
    var t := turn.task;
    assert Sized(q.tasks[t], q.ring.itemSize);
    match q.tasks[t]
    case ItemGranted(d) => QuietMoveInv(q, t, ItemHeld(d));
    case ItemHeld(d) => DownLockInv(q, t, RecvLocked(d), RecvLockWait(d));
    case RecvLockGranted(d) => QuietMoveInv(q, t, RecvLocked(d));
    case RecvLocked(d) => ExtractInv(q, t, d);
    case Taken(d) => UpLockInv(q, t, RecvUnlocked(d));
    case RecvUnlocked(_) => UpSpaceInv(q, t);
    case _ =>
  }

  /** Every step of every task keeps the invariant. */
  lemma StepInv(q: Mq, turn: Turn)
    requires Inv(q)
    ensures Inv(Step(q, turn))
  {
    var t := turn.task;
    if 1 <= t < |q.tasks| {
      if q.tasks[t] != Idle && Sending(q.tasks[t]) {
        SendStepInv(q, turn);
      } else if q.tasks[t] != Idle {
        RecvStepInv(q, turn);
      } else {
        match turn.call
        case Send(m) => if |m| == q.ring.itemSize { DownSpaceInv(q, t, m); }
        case Recv(d) => if |d| == q.ring.itemSize { DownItemsInv(q, t, d); }
        case Nothing =>
      }
    }
  }

  // ----- runs -----

  function Run(q: Mq, turns: seq<Turn>): (r: Mq)
    requires Inv(q)
    ensures Inv(r)
    decreases |turns|
  {
    if |turns| == 0 then q
    else
      StepInv(q, turns[0]);
      Run(Step(q, turns[0]), turns[1..])
  }

  /** In every interleaving of any number of senders and receivers: what has been taken out followed
      by what is in the ring is, byte for byte and in order, what has been put in; mqueue_msgs is the
      difference of the two lengths; and no call has returned an error. */
  lemma FirstInFirstOut(memory: seq<byte>, maxMsgs: nat, msgSize: nat, n: nat, turns: seq<Turn>)
    requires maxMsgs > 0 && msgSize > 1 && |memory| == maxMsgs * msgSize
    ensures Inv(Init(memory, maxMsgs, msgSize, n))
    ensures var r := Run(Init(memory, maxMsgs, msgSize, n), turns);
      && r.received + StoredItems(r.ring) == r.sent
      && r.received == r.sent[..|r.received|]
      && r.ring.quant == |r.sent| - |r.received|
      && (forall i :: 0 <= i < |r.results| ==> r.results[i].code == NOERROR)
  {
    InitInv(memory, maxMsgs, msgSize, n);
    var r := Run(Init(memory, maxMsgs, msgSize, n), turns);
    assert r.sent[..|r.received|] == r.received;
  }

  /** Space tokens free, granted or held, items stored, and slots emptied but not released add up to
      max_msgs; at most one task is between sem_down and sem_up of the mutex. */
  lemma Conservation(q: Mq, t: nat, u: nat)
    requires Inv(q) && t < u < |q.tasks|
    ensures (if q.space.value > 0 then q.space.value else 0) + Count(q.tasks, UsesSpace) + q.ring.quant == q.ring.capacity
    ensures (if q.items.value > 0 then q.items.value else 0) + Count(q.tasks, UsesItem) == q.ring.quant
    ensures !(InSection(q.tasks[t]) && InSection(q.tasks[u]))
  {
    if InSection(q.tasks[t]) && InSection(q.tasks[u]) {
      CountTwo(q.tasks, UsesLock, t, u);
    }
  }

  lemma StepKeepsCapacity(q: Mq, turn: Turn)
    requires Typed(q)
    ensures Step(q, turn).ring.capacity == q.ring.capacity
  {
    var t := turn.task;
    if 0 < t < |q.tasks| && q.tasks[t].SendLocked? {
      assert Sized(q.tasks[t], q.ring.itemSize);
    }
  }

  lemma {:induction false} CapacityStays(q: Mq, turns: seq<Turn>)
    requires Inv(q)
    ensures Run(q, turns).ring.capacity == q.ring.capacity
    decreases |turns|
  {
    if |turns| > 0 {
      StepInv(q, turns[0]);
      StepKeepsCapacity(q, turns[0]);
      CapacityStays(Step(q, turns[0]), turns[1..]);
    }
  }

  /** The same in every run from mqueue_create, where the capacity is max_msgs. */
  lemma RunConserves(memory: seq<byte>, maxMsgs: nat, msgSize: nat, n: nat, turns: seq<Turn>)
    requires maxMsgs > 0 && msgSize > 1 && |memory| == maxMsgs * msgSize
    ensures Inv(Init(memory, maxMsgs, msgSize, n))
    ensures var r := Run(Init(memory, maxMsgs, msgSize, n), turns);
      && (if r.space.value > 0 then r.space.value else 0) + Count(r.tasks, UsesSpace) + r.ring.quant == maxMsgs
      && (if r.items.value > 0 then r.items.value else 0) + Count(r.tasks, UsesItem) == r.ring.quant
      && forall t, u :: 0 <= t < u < |r.tasks| ==> !(InSection(r.tasks[t]) && InSection(r.tasks[u]))
  {
    InitInv(memory, maxMsgs, msgSize, n);
    var q := Init(memory, maxMsgs, msgSize, n);
    var r := Run(q, turns);
    CapacityStays(q, turns);
    forall t, u | 0 <= t < u < |r.tasks|
      ensures !(InSection(r.tasks[t]) && InSection(r.tasks[u]))
    {
      Conservation(r, t, u);
    }
  }

  ghost predicate AllStopped(q: Mq) {
    forall t :: 0 <= t < |q.tasks| ==> q.tasks[t] == Idle || Blocked(q.tasks[t])
  }

  /** When every call in progress is suspended, none is suspended on the mutex, and either all are
      senders facing a full ring or all are receivers facing an empty one. */
  lemma OnlyDeadlocks(q: Mq, t: nat)
    requires Inv(q) && AllStopped(q) && t < |q.tasks| && Blocked(q.tasks[t])
    ensures forall u :: 0 <= u < |q.tasks| ==> !WaitsLock(q.tasks[u])
    ensures q.tasks[t].SpaceWait? ==>
      q.ring.quant == q.ring.capacity && forall u :: 0 <= u < |q.tasks| ==> q.tasks[u] == Idle || q.tasks[u].SpaceWait?
    ensures q.tasks[t].ItemWait? ==>
      q.ring.quant == 0 && forall u :: 0 <= u < |q.tasks| ==> q.tasks[u] == Idle || q.tasks[u].ItemWait?
  {
    CountNone(q.tasks, UsesLock);
    assert q.lock.waiting == [];
    forall u | 0 <= u < |q.tasks|
      ensures !WaitsLock(q.tasks[u])
    {
      assert Linked(q, u);
    }
    CountNone(q.tasks, UsesSpace);
    CountNone(q.tasks, UsesItem);
    assert Linked(q, t);
    forall u | 0 <= u < |q.tasks|
      ensures q.tasks[t].SpaceWait? ==> !q.tasks[u].ItemWait?
      ensures q.tasks[t].ItemWait? ==> !q.tasks[u].SpaceWait?
    {
      assert Linked(q, u);
    }
  }
}
