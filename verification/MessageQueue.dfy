/** struct mqueue_t as an object over its ring and its three semaphores. Each method is a stretch of
    mqueue_send or mqueue_recv that ends in one kernel call, and is proved to be the step of module
    MsgQueue with the same name; Advance runs the next stretch of a task. */
module MessageQueue {
  import opened Queues
  import opened Semaphores
  import opened Ring
  import M = MsgQueue

  /** The points of mqueue_send at which a task can run. */
  predicate Sending(pc: M.Pc) {
    pc.SpaceGranted? || pc.SpaceHeld? || pc.SendLockGranted? || pc.SendLocked? || pc.Added? || pc.SendUnlocked?
  }

  class Mqueue {
    const ring: CircularBuffer
    const space: Semaphore
    const items: Semaphore
    const lock: Semaphore
    var tasks: seq<M.Pc>
    ghost var sent: seq<M.Msg>
    ghost var received: seq<M.Msg>
    ghost var results: seq<M.Done>

    ghost function Repr(): set<object>
      reads this, ring
    {
      {this, ring, ring.buffer, space, items, lock}
    }

    ghost predicate Separate()
      reads this, ring
    {
      && space != items && items != lock && space != lock
      && ring.itemSize > 0 && ring.itemQuant >= 0 && ring.maxCapacity > 0 && ring.start >= 0 && ring.end >= 0
    }

    ghost function State(): M.Mq
      requires Separate()
      reads this, ring, Repr()
    {
      M.Mq(space.State(), items.State(), lock.State(), ring.State(), tasks, sent, received, results)
    }

    ghost predicate Valid()
      reads this, ring, Repr()
    {
      Sound() && M.Inv(State())
    }

    /** The parts are well formed, whatever the protocol is up to. */
    ghost predicate Sound()
      reads this, ring, Repr()
    {
      Separate() && ring.Valid() && space.Valid() && items.Valid() && lock.Valid()
    }

    /** mqueue_create, with n tasks about to use the queue. */
    constructor (memory: array<byte>, maxMsgs: int, msgSize: int, n: nat)
      requires maxMsgs > 0 && msgSize > 1 && memory.Length == maxMsgs * msgSize
      ensures Valid() && State() == M.Init(memory[..], maxMsgs, msgSize, n)
    {
      ring := new CircularBuffer(memory, maxMsgs, msgSize);
      space := new Semaphore(maxMsgs);
      items := new Semaphore(0);
      lock := new Semaphore(1);
      tasks := seq(n + 1, _ => M.Idle);
      sent, received, results := [], [], [];
      new;
      M.InitInv(memory[..], maxMsgs, msgSize, n);
    }

    /** What the caller of a sem_down does with its outcome. */
    method Continue(t: nat, outcome: Outcome, on: M.Pc, wait: M.Pc)
      requires t < |tasks| && Separate()
      modifies this
      ensures State() == M.AfterDown(old(State()), t, outcome, on, wait)
    {
      match outcome
      case Granted => tasks := tasks[t := on];
      case Suspended => tasks := tasks[t := wait];
      case Failed =>
        tasks := tasks[t := M.Idle];
        results := results + [M.Done(t, ERROR, M.Buffer(on))];
    }

    method DownSpace(t: nat, m: M.Msg)
      requires Separate() && space.Valid() && 0 < t < |tasks|
      modifies this, space
      ensures space.Valid() && Separate() && State() == M.DownSpace(old(State()), t, m)
    {
      var outcome := space.SemDown(t);
      Continue(t, outcome, M.SpaceHeld(m), M.SpaceWait(m));
    }

    method DownItems(t: nat, d: M.Msg)
      requires Separate() && items.Valid() && 0 < t < |tasks|
      modifies this, items
      ensures items.Valid() && Separate() && State() == M.DownItems(old(State()), t, d)
    {
      var outcome := items.SemDown(t);
      Continue(t, outcome, M.ItemHeld(d), M.ItemWait(d));
    }

    method DownLock(t: nat, on: M.Pc, wait: M.Pc)
      requires Separate() && lock.Valid() && 0 < t < |tasks|
      modifies this, lock
      ensures lock.Valid() && Separate() && State() == M.DownLock(old(State()), t, on, wait)
    {
      var outcome := lock.SemDown(t);
      Continue(t, outcome, on, wait);
    }

    /** task_awake of the task a sem_up returned. */
    method Awake(t: Ptr)
      requires Separate()
      modifies this`tasks
      ensures tasks == M.Awake(old(tasks), t)
    {
      if t != NULL && t < |tasks| {
        tasks := tasks[t := M.Woken(tasks[t])];
      }
    }

    method UpLock(t: nat, on: M.Pc)
      requires Separate() && lock.Valid() && t < |tasks|
      modifies this, lock
      ensures lock.Valid() && Separate() && State() == M.UpLock(old(State()), t, on)
    {
      var outcome, wake := lock.SemUp();
      if outcome == Failed {
        Continue(t, Failed, on, on);
        return;
      }
      tasks := tasks[t := on];
      Awake(wake);
    }

    method UpItems(t: nat)
      requires Separate() && items.Valid() && t < |tasks|
      modifies this, items
      ensures items.Valid() && Separate() && State() == M.UpItems(old(State()), t)
    {
      var outcome, wake := items.SemUp();
      var data := M.Buffer(tasks[t]);
      tasks := tasks[t := M.Idle];
      if outcome == Failed {
        results := results + [M.Done(t, ERROR, data)];
        return;
      }
      results := results + [M.Done(t, NOERROR, data)];
      Awake(wake);
    }

    method UpSpace(t: nat)
      requires Separate() && space.Valid() && t < |tasks|
      modifies this, space
      ensures space.Valid() && Separate() && State() == M.UpSpace(old(State()), t)
    {
      var outcome, wake := space.SemUp();
      var data := M.Buffer(tasks[t]);
      tasks := tasks[t := M.Idle];
      if outcome == Failed {
        results := results + [M.Done(t, ERROR, data)];
        return;
      }
      results := results + [M.Done(t, NOERROR, data)];
      Awake(wake);
    }

    /** circular_buffer_add on the caller's message. */
    method Insert(t: nat, m: M.Msg)
      requires Separate() && ring.Valid() && t < |tasks| && |m| == ring.itemSize
      modifies this, ring, ring.buffer
      ensures ring.buffer == old(ring.buffer) && ring.Valid() && Separate()
      ensures State() == M.Insert(old(State()), t, m)
    {
      var item := new byte[|m|](i requires 0 <= i < |m| => m[i]);
      assert item[..ring.itemSize] == m;
      var code := ring.Add(item);
      if code != CB_NOERROR {
        tasks := tasks[t := M.Idle];
        results := results + [M.Done(t, ERROR, m)];
      } else {
        tasks := tasks[t := M.Added(m)];
        sent := sent + [m];
      }
    }

    /** circular_buffer_remove into the caller's buffer, and the comparison of its result with ERROR. */
    method Extract(t: nat, d: M.Msg)
      requires Separate() && ring.Valid() && t < |tasks| && |d| == ring.itemSize
      modifies this, ring
      ensures ring.buffer == old(ring.buffer) && ring.Valid() && Separate()
      ensures State() == M.Extract(old(State()), t, d)
    {
      var dest := new byte[|d|](i requires 0 <= i < |d| => d[i]);
      assert dest[..ring.itemSize] == d;
      var code := ring.Remove(dest);
      if code == ERROR {
        assert false; // the ring's results are 0 to 3, so the code never takes this branch
      } else {
        tasks := tasks[t := M.Taken(dest[..])];
        received := if code == CB_NOERROR then received + [dest[..]] else received;
        assert dest[..] == dest[..ring.itemSize];
      }
    }

    method Resumed(t: nat, sem: Semaphore, on: M.Pc, wait: M.Pc)
      requires Separate() && sem.Valid() && t < |tasks| && (sem == space || sem == items || sem == lock)
      modifies this, sem
      ensures sem.Valid() && Separate()
      ensures var (s1, outcome) := Resume(old(sem.State()));
        State() == M.AfterDown(
          old(State()).(space := if sem == space then s1 else old(space.State()),
                        items := if sem == items then s1 else old(items.State()),
                        lock := if sem == lock then s1 else old(lock.State())), t, outcome, on, wait)
    {
      var outcome := sem.SemDownResume();
      Continue(t, outcome, on, wait);
    }

    /** The first sem_down of a call. */
    method AdvanceIdle(turn: M.Turn)
      requires Sound() && M.Typed(State()) && 0 < turn.task < |tasks| && tasks[turn.task] == M.Idle
      modifies this, space, items
      ensures Sound() && Repr() == old(Repr()) && State() == M.Step(old(State()), turn)
    {
      match turn.call {
        case Send(m) => if |m| == ring.itemSize { DownSpace(turn.task, m); }
        case Recv(d) => if |d| == ring.itemSize { DownItems(turn.task, d); }
        case Nothing =>
      }
    }

    method AdvanceSender(turn: M.Turn)
      requires Sound() && M.Typed(State()) && 0 < turn.task < |tasks|
      requires Sending(tasks[turn.task])
      modifies Repr()
      ensures Sound() && Repr() == old(Repr()) && State() == M.Step(old(State()), turn)
    {
      var t := turn.task;
      assert M.Sized(tasks[t], ring.itemSize);
      match tasks[t] {
        case SpaceGranted(m) => Resumed(t, space, M.SpaceHeld(m), M.SpaceWait(m));
        case SpaceHeld(m) => DownLock(t, M.SendLocked(m), M.SendLockWait(m));
        case SendLockGranted(m) => Resumed(t, lock, M.SendLocked(m), M.SendLockWait(m));
        case SendLocked(m) => Insert(t, m);
        case Added(m) => UpLock(t, M.SendUnlocked(m));
        case SendUnlocked(_) => UpItems(t);
      }
    }

    method AdvanceReceiver(turn: M.Turn)
      requires Sound() && M.Typed(State()) && 0 < turn.task < |tasks|
      requires !Sending(tasks[turn.task]) && tasks[turn.task] != M.Idle && !M.Blocked(tasks[turn.task])
      modifies Repr()
      ensures Sound() && Repr() == old(Repr()) && State() == M.Step(old(State()), turn)
    {
      var t := turn.task;
      assert M.Sized(tasks[t], ring.itemSize);
      match tasks[t] {
        case ItemGranted(d) => Resumed(t, items, M.ItemHeld(d), M.ItemWait(d));
        case ItemHeld(d) => DownLock(t, M.RecvLocked(d), M.RecvLockWait(d));
        case RecvLockGranted(d) => Resumed(t, lock, M.RecvLocked(d), M.RecvLockWait(d));
        case RecvLocked(d) => Extract(t, d);
        case Taken(d) => UpLock(t, M.RecvUnlocked(d));
        case RecvUnlocked(_) => UpSpace(t);
      }
    }

    /** Runs the task of the turn up to its next kernel call. */
    method Advance(turn: M.Turn)
      requires Valid()
      modifies Repr()
      ensures Valid() && Repr() == old(Repr()) && State() == M.Step(old(State()), turn)
    {
      var t := turn.task;
      M.StepInv(State(), turn);
      if t == 0 || t >= |tasks| || M.Blocked(tasks[t]) {
        return;
      }
      if tasks[t] == M.Idle {
        AdvanceIdle(turn);
      } else if Sending(tasks[t]) {
        AdvanceSender(turn);
      } else {
        AdvanceReceiver(turn);
      }
    }

    /** mqueue_msgs */
    method Msgs() returns (n: int)
      requires Valid()
      ensures n == |StoredItems(ring.State())| == |sent| - |received|
    {
      assert State().received + StoredItems(ring.State()) == State().sent;
      n := ring.itemQuant;
    }
  }

  /** mqueue_create, whose allocations succeed; memory is the buffer of the ring. */
  method MqueueCreate(memory: array<byte>, maxMsgs: int, msgSize: int, n: nat) returns (q: Mqueue?)
    requires maxMsgs > 0 && msgSize > 1 ==> memory.Length == maxMsgs * msgSize
    ensures q == null <==> maxMsgs <= 0 || msgSize <= 1
    ensures q != null ==> fresh(q) && q.Valid() && q.State() == M.Init(memory[..], maxMsgs, msgSize, n)
  {
    if maxMsgs <= 0 || msgSize <= 1 {
      return null;
    }
    q := new Mqueue(memory, maxMsgs, msgSize, n);
  }
}
