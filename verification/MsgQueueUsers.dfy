/** What the users of a message queue see: the view below is made from the arguments of their calls and
    the moments at which the ring is used, not from what the steps of module MsgQueue write. */
module MsgQueueUsers {
  import opened Queues
  import opened Ring
  import opened MsgQueue

  /** For each task its latest call and the message it was last given; the messages passed to
      mqueue_send, in the order in which circular_buffer_add runs for them; how many have been taken out;
      and the calls that have returned, with what their callers' buffers should hold. */
  datatype View = View(calls: seq<Call>, given: seq<Msg>, inserted: seq<Msg>, removed: nat, ended: seq<Done>)

  function Start(n: nat): View {
    View(seq(n + 1, _ => Nothing), seq(n + 1, _ => []), [], 0, [])
  }

  function Argument(c: Call): Msg {
    match c
    case Send(m) => m
    case Recv(d) => d
    case Nothing => []
  }

  /** What the turn of a task is to its users: a new call of the right size, a use of the ring, a return,
      or nothing. */
  function Watch(v: View, q: Mq, turn: Turn): View
    requires |v.calls| == |v.given| == |q.tasks|
  {
    var t := turn.task;
    if t == 0 || t >= |q.tasks| then v
    else
      match q.tasks[t]
      case Idle =>
        if turn.call != Nothing && |Argument(turn.call)| == q.ring.itemSize then v.(calls := v.calls[t := turn.call])
        else v
      case SendLocked(_) => v.(inserted := v.inserted + [Argument(v.calls[t])])
      case RecvLocked(_) =>
        if v.removed < |v.inserted| then
          v.(given := v.given[t := v.inserted[v.removed]], removed := v.removed + 1)
        else v
      case SendUnlocked(_) => v.(ended := v.ended + [Done(t, NOERROR, Argument(v.calls[t]))])
      case RecvUnlocked(_) => v.(ended := v.ended + [Done(t, NOERROR, v.given[t])])
      case _ => v
  }

  /** A task inside mqueue_send carries the message it was called with; one inside mqueue_recv has its
      caller's buffer, and from the removal on the message it was given. */
  predicate Carries(pc: Pc, call: Call, given: Msg) {
    match pc
    case Idle => true
    case ItemWait(d) => call == Recv(d)
    case ItemGranted(d) => call == Recv(d)
    case ItemHeld(d) => call == Recv(d)
    case RecvLockWait(d) => call == Recv(d)
    case RecvLockGranted(d) => call == Recv(d)
    case RecvLocked(d) => call == Recv(d)
    case Taken(d) => call.Recv? && d == given
    case RecvUnlocked(d) => call.Recv? && d == given
    case _ => call == Send(Buffer(pc))
  }

  ghost predicate Agrees(v: View, q: Mq) {
    && |v.calls| == |v.given| == |q.tasks|
    && (forall t :: 0 <= t < |q.tasks| ==> Carries(q.tasks[t], v.calls[t], v.given[t]))
    && q.sent == v.inserted && v.removed <= |v.inserted| && q.received == v.inserted[..v.removed]
    && q.results == v.ended
  }

  /** Waking a task changes nothing of what it carries. */
  lemma WokenCarries(pc: Pc, call: Call, given: Msg)
    ensures Carries(Woken(pc), call, given) == Carries(pc, call, given)
  {
  }

  /** A step moves its task, and perhaps wakes another one. */
  ghost predicate OnlyMoves(q: Mq, q1: Mq, t: nat) {
    && |q1.tasks| == |q.tasks|
    && forall u :: 0 <= u < |q.tasks| && u != t ==> q1.tasks[u] == q.tasks[u] || q1.tasks[u] == Woken(q.tasks[u])
  }

  lemma OthersCarry(v: View, v1: View, q: Mq, q1: Mq, t: nat)
    requires Agrees(v, q) && OnlyMoves(q, q1, t) && |v1.calls| == |v1.given| == |q1.tasks|
    requires forall u :: 0 <= u < |q.tasks| && u != t ==> v1.calls[u] == v.calls[u] && v1.given[u] == v.given[u]
    requires t < |q.tasks| ==> Carries(q1.tasks[t], v1.calls[t], v1.given[t])
    ensures forall u :: 0 <= u < |q1.tasks| ==> Carries(q1.tasks[u], v1.calls[u], v1.given[u])
  {
    forall u | 0 <= u < |q1.tasks|
      ensures Carries(q1.tasks[u], v1.calls[u], v1.given[u])
    {
      if u != t {
        WokenCarries(q.tasks[u], v.calls[u], v.given[u]);
      }
    }
  }

  lemma CallAgrees(v: View, q: Mq, turn: Turn)
    requires Inv(q) && Agrees(v, q) && 0 < turn.task < |q.tasks| && q.tasks[turn.task] == Idle
    ensures Agrees(Watch(v, q, turn), Step(q, turn))
  {
    var t := turn.task;
    assert Linked(q, t);
    OthersCarry(v, Watch(v, q, turn), q, Step(q, turn), t);
  }

  lemma SendAgrees(v: View, q: Mq, turn: Turn)
    requires Inv(q) && Agrees(v, q) && 0 < turn.task < |q.tasks| && Sending(q.tasks[turn.task])
    ensures Agrees(Watch(v, q, turn), Step(q, turn))
  {
    var t := turn.task;
    assert Carries(q.tasks[t], v.calls[t], v.given[t]) && Sized(q.tasks[t], q.ring.itemSize);
    if q.tasks[t].SendLocked? {
      RingNeverFullNeverEmpty(q, t);
    }
    OthersCarry(v, Watch(v, q, turn), q, Step(q, turn), t);
  }

  lemma RemovalAgrees(v: View, q: Mq, turn: Turn)
    requires Inv(q) && Agrees(v, q) && 0 < turn.task < |q.tasks| && q.tasks[turn.task].RecvLocked?
    ensures Agrees(Watch(v, q, turn), Step(q, turn))
  {
    var t := turn.task;
    assert Carries(q.tasks[t], v.calls[t], v.given[t]);
    ExtractInv(q, t, q.tasks[t].d);
    assert q.received + [q.sent[|q.received|]] == v.inserted[..v.removed + 1];
    OthersCarry(v, Watch(v, q, turn), q, Step(q, turn), t);
  }

  lemma EntryAgrees(v: View, q: Mq, turn: Turn)
    requires Inv(q) && Agrees(v, q) && 0 < turn.task < |q.tasks|
    requires q.tasks[turn.task] != Idle && !Sending(q.tasks[turn.task]) && !q.tasks[turn.task].RecvLocked?
    requires !q.tasks[turn.task].Taken? && !q.tasks[turn.task].RecvUnlocked?
    ensures Agrees(Watch(v, q, turn), Step(q, turn))
  {
    var t := turn.task;
    assert Carries(q.tasks[t], v.calls[t], v.given[t]);
    OthersCarry(v, Watch(v, q, turn), q, Step(q, turn), t);
  }

  lemma ReturnAgrees(v: View, q: Mq, turn: Turn)
    requires Inv(q) && Agrees(v, q) && 0 < turn.task < |q.tasks|
    requires q.tasks[turn.task].Taken? || q.tasks[turn.task].RecvUnlocked?
    ensures Agrees(Watch(v, q, turn), Step(q, turn))
  {
    var t := turn.task;
    assert Carries(q.tasks[t], v.calls[t], v.given[t]);
    OthersCarry(v, Watch(v, q, turn), q, Step(q, turn), t);
  }

  /** Every step does to the queue what its users see of it. */
  lemma StepAgrees(v: View, q: Mq, turn: Turn)
    requires Inv(q) && Agrees(v, q)
    ensures Agrees(Watch(v, q, turn), Step(q, turn))
  {
    var t := turn.task;
    if 0 < t < |q.tasks| {
      if q.tasks[t] == Idle {
        CallAgrees(v, q, turn);
      } else if Sending(q.tasks[t]) {
        SendAgrees(v, q, turn);
      } else if q.tasks[t].RecvLocked? {
        RemovalAgrees(v, q, turn);
      } else if q.tasks[t].Taken? || q.tasks[t].RecvUnlocked? {
        ReturnAgrees(v, q, turn);
      } else {
        EntryAgrees(v, q, turn);
      }
    }
  }

  function Watched(v: View, q: Mq, turns: seq<Turn>): View
    requires Inv(q) && |v.calls| == |v.given| == |q.tasks|
    decreases |turns|
  {
    if |turns| == 0 then v
    else
      StepInv(q, turns[0]);
      SameTasks(q, turns[0]);
      Watched(Watch(v, q, turns[0]), Step(q, turns[0]), turns[1..])
  }

  lemma SameTasks(q: Mq, turn: Turn)
    requires Inv(q)
    ensures |Step(q, turn).tasks| == |q.tasks|
  {
    var t := turn.task;
    if 0 < t < |q.tasks| && q.tasks[t].SendLocked? {
      assert Sized(q.tasks[t], q.ring.itemSize);
    }
  }

  lemma {:induction false} RunAgrees(v: View, q: Mq, turns: seq<Turn>)
    requires Inv(q) && Agrees(v, q)
    ensures Agrees(Watched(v, q, turns), Run(q, turns))
    decreases |turns|
  {
    if |turns| > 0 {
      StepInv(q, turns[0]);
      StepAgrees(v, q, turns[0]);
      RunAgrees(Watch(v, q, turns[0]), Step(q, turns[0]), turns[1..]);
    }
  }

  /** In every interleaving, end to end: what is in the ring are the messages passed to mqueue_send, in the
      order in which they were inserted, without the oldest ones, which receivers have been given; every
      call returns NOERROR; and when a mqueue_recv returns its caller's buffer holds the message that was
      the oldest when it was taken out. */
  lemma EndToEnd(memory: seq<byte>, maxMsgs: nat, msgSize: nat, n: nat, turns: seq<Turn>)
    requires maxMsgs > 0 && msgSize > 1 && |memory| == maxMsgs * msgSize
    ensures Inv(Init(memory, maxMsgs, msgSize, n))
    ensures var q := Init(memory, maxMsgs, msgSize, n);
      var r, v := Run(q, turns), Watched(Start(n), q, turns);
      && v.removed <= |v.inserted| && StoredItems(r.ring) == v.inserted[v.removed..]
      && r.results == v.ended
      && |v.calls| == |v.given| == |r.tasks|
      && (forall t :: 0 <= t < |r.tasks| ==> Carries(r.tasks[t], v.calls[t], v.given[t]))
  {
    InitInv(memory, maxMsgs, msgSize, n);
    var q := Init(memory, maxMsgs, msgSize, n);
    RunAgrees(Start(n), q, turns);
    var r, v := Run(q, turns), Watched(Start(n), q, turns);
    assert r.received + StoredItems(r.ring) == v.inserted;
  }

  // ----- how a call goes on -----

  /** The program point of a task after its own turn: a sem_down goes on if there is a token and waits
      otherwise, a waiting task stays where it is, and everything else goes on. */
  function NextPc(q: Mq, turn: Turn): Pc
    requires turn.task < |q.tasks|
  {
    match q.tasks[turn.task]
    case Idle =>
      if turn.call == Nothing || |Argument(turn.call)| != q.ring.itemSize then Idle
      else if turn.call.Send? then (if q.space.value > 0 then SpaceHeld(turn.call.m) else SpaceWait(turn.call.m))
      else if q.items.value > 0 then ItemHeld(turn.call.d)
      else ItemWait(turn.call.d)
    case SpaceWait(m) => SpaceWait(m)
    case SpaceGranted(m) => SpaceHeld(m)
    case SpaceHeld(m) => if q.lock.value > 0 then SendLocked(m) else SendLockWait(m)
    case SendLockWait(m) => SendLockWait(m)
    case SendLockGranted(m) => SendLocked(m)
    case SendLocked(m) => Added(m)
    case Added(m) => SendUnlocked(m)
    case SendUnlocked(_) => Idle
    case ItemWait(d) => ItemWait(d)
    case ItemGranted(d) => ItemHeld(d)
    case ItemHeld(d) => if q.lock.value > 0 then RecvLocked(d) else RecvLockWait(d)
    case RecvLockWait(d) => RecvLockWait(d)
    case RecvLockGranted(d) => RecvLocked(d)
    case RecvLocked(d) => if |q.received| < |q.sent| then Taken(q.sent[|q.received|]) else Taken(d)
    case Taken(d) => RecvUnlocked(d)
    case RecvUnlocked(_) => Idle
  }

  lemma SenderGoesOn(q: Mq, turn: Turn)
    requires Inv(q) && 0 < turn.task < |q.tasks| && Sending(q.tasks[turn.task])
    ensures |Step(q, turn).tasks| == |q.tasks| && Step(q, turn).tasks[turn.task] == NextPc(q, turn)
  {
    var t := turn.task;
    assert Linked(q, t) && Sized(q.tasks[t], q.ring.itemSize);
    if q.tasks[t].SendLocked? {
      RingNeverFullNeverEmpty(q, t);
    }
  }

  lemma ReceiverGoesOn(q: Mq, turn: Turn)
    requires Inv(q) && 0 < turn.task < |q.tasks| && !Sending(q.tasks[turn.task])
    ensures |Step(q, turn).tasks| == |q.tasks| && Step(q, turn).tasks[turn.task] == NextPc(q, turn)
  {
    var t := turn.task;
    assert Linked(q, t);
    if q.tasks[t].RecvLocked? {
      ExtractInv(q, t, q.tasks[t].d);
    }
  }

  /** No call stops half-way for anything but a sem_down without a token. */
  lemma GoesOn(q: Mq, turn: Turn)
    requires Inv(q) && 0 < turn.task < |q.tasks|
    ensures |Step(q, turn).tasks| == |q.tasks| && Step(q, turn).tasks[turn.task] == NextPc(q, turn)
  {
    if Sending(q.tasks[turn.task]) {
      SenderGoesOn(q, turn);
    } else {
      ReceiverGoesOn(q, turn);
    }
  }
}
