/** The functions of kernel/dispatcher.c as they change the kernel's global variables. Each is
    proved to act as the step of module Dispatcher that carries its name, and the assertions of
    the code appear as assertions. */
module TaskSystem {
  import opened Queues
  import opened Sweeps
  import opened Dispatcher

  /** Every task in the queue is suspended there. */
  ghost predicate SuspendedIn(s: seq<Ptr>, tasks: seq<Tcb>, asleep: bool) {
    forall x :: x in s ==> x < |tasks| && tasks[x].status == Suspended && tasks[x].sleeping == asleep
  }

  lemma HandOver(tasks: seq<Tcb>, t: nat, code: int)
    requires t < |tasks| && !tasks[t].sleeping
    ensures var tasks1 := tasks[t := tasks[t].(targetExit := code)];
      tasks1[t := tasks1[t].(status := Ready, sleeping := false)]
      == tasks[t := tasks[t].(status := Ready, targetExit := code)]
  {
  }

  /** A sweep under way: q is the queue that was s, and done what has been woken, which has turned
      the records start into tasks. The sweep of task_exit hands out an exit code, the sweep of the
      sleepers (asleep) does not. */
  datatype Sweep = Sweep(s: seq<Ptr>, hit: set<Ptr>, start: seq<Tcb>, asleep: bool, code: int) {

    ghost predicate At(q: QState, done: seq<Ptr>, tasks: seq<Tcb>) {
      && q.cursor <= |q.items|
      && Distinct(q.items)
      && NULL !in q.items
      && (forall x :: x in q.items ==> x !in done)
      && Outcome(q, hit) == Kept(s, hit)
      && done + Coming(q, hit) == Woken(s, hit)
      && SuspendedIn(q.items, tasks, asleep)
      && tasks == Released(done)
    }

    function Released(done: seq<Ptr>): seq<Tcb> {
      if asleep then ReleaseSleepers(start, done) else ReleaseWaiters(start, done, code)
    }

    /** What a woken task's record becomes. */
    function Release(tcb: Tcb): Tcb {
      if asleep then tcb.(status := Ready, sleeping := false) else tcb.(status := Ready, targetExit := code)
    }

    lemma Begin(q: QState)
      requires q == QState(s, 0) && Distinct(s) && NULL !in s && SuspendedIn(s, start, asleep)
      ensures At(q, [], start)
    {
      assert s[0..] == s;
      assert Released([]) == start;
    }

    lemma Delete(q: QState, done: seq<Ptr>, tasks: seq<Tcb>)
      requires At(q, done, tasks) && q.Item() != NULL && q.Item() in hit
      ensures q.Item() in q.items && q.Item() < |tasks| == |start| && tasks[q.Item()] == start[q.Item()]
      ensures tasks[q.Item()].status == Suspended && tasks[q.Item()].sleeping == asleep
      ensures var q1 := q.Del(q.Item()).Next();
        At(q1, done + [q.Item()], tasks[q.Item() := Release(start[q.Item()])]) &&
        |q1.items| - q1.cursor < |q.items| - q.cursor
    {
      var x := q.Item();
      assert x in q.items;
      var tasks1 := tasks[x := Release(start[x])];
      DeleteUnderCursor(q, hit);
      RemoveMembers(q.items, x);
      var q1 := q.Del(x).Next();
      assert q1.items == Remove(q.items, x);
      assert (done + [x]) + Coming(q1, hit) == done + ([x] + Coming(q1, hit));
      assert tasks1 == Released(done + [x]);
    }

    lemma Pass(q: QState, done: seq<Ptr>, tasks: seq<Tcb>)
      requires At(q, done, tasks) && q.Item() != NULL && q.Item() !in hit
      ensures At(q.Next(), done, tasks) && |q.Next().items| - q.Next().cursor < |q.items| - q.cursor
    {
      PassOver(q, hit);
    }

    lemma Current(q: QState, done: seq<Ptr>, tasks: seq<Tcb>)
      requires At(q, done, tasks) && q.Item() != NULL
      ensures q.Item() in q.items && q.Item() < |tasks| == |start| && tasks[q.Item()] == start[q.Item()]
    {
    }

    lemma Over(q: QState, done: seq<Ptr>, tasks: seq<Tcb>)
      requires At(q, done, tasks) && q.Item() == NULL
      ensures q.items == Kept(s, hit) && done == Woken(s, hit) && tasks == Released(done)
    {
      assert forall i :: 0 <= i < |q.items| ==> q.items[i] in q.items;
      assert q.items[..|q.items|] + [] == q.items && done + [] == done;
    }
  }

  /** Fields changed the way method TaskAwake promises make up the step of that name. */
  lemma AwakeIsStep(k: Kernel, k1: Kernel, t: nat)
    requires t < |k.tasks| && (t != NULL && k.tasks[t].status == Suspended ==>
      t in (if k.tasks[t].sleeping then k.sleeping else k.suspended))
    requires var acts := t != NULL && k.tasks[t].status == Suspended;
      k1 == if !acts then k
        else k.(tasks := k.tasks[t := k.tasks[t].(status := Ready, sleeping := false)], ready := k.ready + [t],
                sleeping := if k.tasks[t].sleeping then Remove(k.sleeping, t) else k.sleeping,
                suspended := if k.tasks[t].sleeping then k.suspended else Remove(k.suspended, t))
    ensures k1 == Dispatcher.TaskAwake(k, t)
  {
  }

  lemma PlacedSuspended(k: Kernel)
    requires Placed(k)
    ensures SuspendedIn(k.suspended, k.tasks, false) && SuspendedIn(k.sleeping, k.tasks, true)
  {
    forall x | x in k.suspended
      ensures x < |k.tasks| && k.tasks[x].status == Suspended && !k.tasks[x].sleeping
    {
      assert InPlace(k, x);
    }
    forall x | x in k.sleeping
      ensures x < |k.tasks| && k.tasks[x].status == Suspended && k.tasks[x].sleeping
    {
      assert InPlace(k, x);
    }
  }

  /** The queues are the sequence-with-cursor that class Queues.Queue is proved to implement. */
  class System {
    var tasks: seq<Tcb>
    var readyQueue: QState
    var suspendedQueue: QState
    var sleepingQueue: QState
    var finishedQueue: QState
    var current: nat
    var clock: int
    ghost var phase: Phase

    ghost function State(): Kernel
      reads this
    {
      Kernel(tasks, readyQueue.items, suspendedQueue.items, sleepingQueue.items, finishedQueue.items,
             current, clock, phase, false)
    }

    ghost predicate Valid()
      reads this
    {
      Placed(State())
    }

    constructor ()
      ensures Valid() && State() == Boot()
    {
      tasks := [NewTcb().(activations := 1, quantum := QUANTUM), NewTcb()];
      readyQueue, suspendedQueue := EmptyQueue().Add(1), EmptyQueue();
      sleepingQueue, finishedQueue := EmptyQueue(), EmptyQueue();
      current, clock, phase := 0, 0, Choosing;
      new;
      BootPlaced();
      assert readyQueue.items == [1];
    }

    /** task_switch(&task_kernel) and the count that precedes it. */
    method ToKernel()
      requires |tasks| > 0
      modifies this
      ensures State() == Dispatcher.ToKernel(old(State()))
    {
      tasks := tasks[0 := tasks[0].(activations := tasks[0].activations + 1)];
      current := 0;
    }

    method TaskRun(task: nat)
      requires task < |tasks|
      modifies this
      ensures State() == Dispatcher.TaskRun(old(State()), task)
    {
      if task !in readyQueue.items {
        return;
      }
      readyQueue := readyQueue.Del(task);
      tasks := tasks[task := tasks[task].(quantum := QUANTUM)];
      tasks := tasks[task := tasks[task].(activations := tasks[task].activations + 1)];
      tasks := tasks[task := tasks[task].(status := Running)];
      tasks := tasks[task := tasks[task].(call := NoCall)];
      current := task;
    }

    method TaskYield()
      requires current < |tasks|
      modifies this
      ensures State() == Dispatcher.TaskYield(old(State()))
    {
      tasks := tasks[current := tasks[current].(quantum := QUANTUM)];
      tasks := tasks[current := tasks[current].(status := Ready)];
      if current != 0 {
        readyQueue := readyQueue.Add(current);
        ToKernel();
      }
    }

    /** The call is the program point at which the task stops. */
    method TaskSuspend(asleep: bool, call: Call)
      requires 0 < current < |tasks|
      modifies this
      ensures State() == Dispatcher.TaskSuspend(old(State()), asleep, call)
    {
      tasks := tasks[current := tasks[current].(status := Suspended, call := call)];
      if asleep {
        sleepingQueue := sleepingQueue.Add(current);
      } else {
        suspendedQueue := suspendedQueue.Add(current);
      }
      ToKernel();
    }

    /** The two removals are inside assert in the code: a suspended task is in the queue they name.
        The contract lists the four fields that may change; AwakeIsStep ties them to the step. */
    method TaskAwake(task: nat)
      requires task < |tasks|
      requires task != NULL && tasks[task].status == Suspended ==>
        task in (if tasks[task].sleeping then sleepingQueue.items else suspendedQueue.items)
      modifies this`tasks, this`readyQueue, this`suspendedQueue, this`sleepingQueue
      ensures var acts, asleep := task != NULL && old(tasks[task].status) == Suspended, old(tasks[task].sleeping);
        sleepingQueue == (if acts && asleep then old(sleepingQueue).Del(task) else old(sleepingQueue)) &&
        suspendedQueue == (if acts && !asleep then old(suspendedQueue).Del(task) else old(suspendedQueue)) &&
        readyQueue == (if acts then old(readyQueue).Add(task) else old(readyQueue)) &&
        tasks == if acts then old(tasks)[task := old(tasks)[task].(status := Ready, sleeping := false)] else old(tasks)
    {
      if task == NULL {
        return;
      }
      if tasks[task].status == Suspended {
        if tasks[task].sleeping {
          assert task in sleepingQueue.items;
          sleepingQueue := sleepingQueue.Del(task);
          tasks := tasks[task := tasks[task].(sleeping := false)];
        } else {
          assert task in suspendedQueue.items;
          suspendedQueue := suspendedQueue.Del(task);
        }
      } else {
        return;
      }
      tasks := tasks[task := tasks[task].(status := Ready)];
      readyQueue := readyQueue.Add(task);
    }

    /** Up to the suspension. The call returns here only for a null target, with -1, or a finished one,
        with its exit code; otherwise it returns target_exit_code when the caller runs again, and
        DispatcherLaws.WaitAndSleepReturn says what that is. */
    method TaskWait(target: nat) returns (returned: bool, result: int)
      requires 0 < current < |tasks| && target < |tasks|
      modifies this
      ensures State() == Dispatcher.TaskWait(old(State()), target)
      ensures returned <==> target == NULL || old(tasks[target].status) == Finished
      ensures returned ==> result == if target == NULL then -1 else old(tasks[target].exitCode)
    {
      if target == NULL {
        return true, -1;
      }
      if tasks[target].status == Finished {
        return true, tasks[target].exitCode;
      }
      tasks := tasks[current := tasks[current].(target := target)];
      TaskSuspend(false, InWait(target));
      returned, result := false, 0;
    }

    method TaskSleep(t: int)
      requires 0 < current < |tasks|
      modifies this
      ensures State() == Dispatcher.TaskSleep(old(State()), t)
    {
      tasks := tasks[current := tasks[current].(sleeping := true)];
      tasks := tasks[current := tasks[current].(wakeUp := clock + t)];
      TaskSuspend(true, InSleep(clock + t));
    }

    /** The loop deletes from the queue it iterates over, through task_awake. */
    method TaskExit(code: int)
      requires Valid() && current != 0
      modifies this
      ensures Valid() && State() == Dispatcher.TaskExit(old(State()), code)
    {
      TaskExitPlaced(State(), code);
      PlacedSuspended(State());
      assert InPlace(State(), current);
      Leave(code);
    }

    method Leave(code: int)
      requires 0 < current < |tasks| && tasks[current].status == Running
      requires Distinct(suspendedQueue.items) && NULL !in suspendedQueue.items
      requires SuspendedIn(suspendedQueue.items, tasks, false)
      modifies this
      ensures State() == Dispatcher.TaskExit(old(State()), code)
    {
      tasks := tasks[current := tasks[current].(status := Finished)];
      tasks := tasks[current := tasks[current].(exitCode := code)];
      assert tasks == old(tasks)[current := old(tasks)[current].(status := Finished, exitCode := code)];
      WakeWaiters(code);
      finishedQueue := finishedQueue.Add(current);
      ToKernel();
    }

    /** What the loop of task_exit does with a waiter, which is the item under the iterator. */
    method WakeWaiter(aux: Ptr, code: int, ghost sweep: Sweep, ghost done: seq<Ptr>)
      requires sweep.At(suspendedQueue, done, tasks) && aux == suspendedQueue.Item() && aux != NULL && aux < |tasks|
      requires aux in sweep.hit && !sweep.asleep && sweep.code == code
      modifies this`tasks, this`readyQueue, this`suspendedQueue, this`sleepingQueue
      ensures sleepingQueue == old(sleepingQueue) && readyQueue.items == old(readyQueue.items) + [aux]
      ensures sweep.At(suspendedQueue.Next(), done + [aux], tasks)
      ensures |suspendedQueue.items| - suspendedQueue.Next().cursor < old(|suspendedQueue.items| - suspendedQueue.cursor)
    {
      sweep.Delete(suspendedQueue, done, tasks);
      HandOver(tasks, aux, code);
      tasks := tasks[aux := tasks[aux].(targetExit := code)];
      TaskAwake(aux);
    }

    /** One turn of the loop of task_exit. */
    method PassWaiter(aux: Ptr, code: int, ghost sweep: Sweep, ghost done: seq<Ptr>, ghost ready: seq<Ptr>)
      returns (next: Ptr, ghost done1: seq<Ptr>)
      requires sweep.At(suspendedQueue, done, tasks) && aux == suspendedQueue.Item() && aux != NULL
      requires !sweep.asleep && sweep.code == code && sweep.hit == WaitersOf(sweep.start, current)
      requires readyQueue.items == ready + done
      modifies this`tasks, this`readyQueue, this`suspendedQueue, this`sleepingQueue
      ensures sweep.At(suspendedQueue, done1, tasks) && next == suspendedQueue.Item()
      ensures sleepingQueue == old(sleepingQueue) && readyQueue.items == ready + done1
      ensures |suspendedQueue.items| - suspendedQueue.cursor < old(|suspendedQueue.items| - suspendedQueue.cursor)
    {
      sweep.Current(suspendedQueue, done, tasks);
      done1 := done;
      if tasks[aux].target == current {
        WakeWaiter(aux, code, sweep, done);
        done1 := done + [aux];
      } else {
        sweep.Pass(suspendedQueue, done, tasks);
      }
      suspendedQueue := suspendedQueue.Next();
      next := suspendedQueue.Item();
    }

    /** The loop of task_exit. */
    method WakeWaiters(code: int)
      requires Distinct(suspendedQueue.items) && NULL !in suspendedQueue.items
      requires SuspendedIn(suspendedQueue.items, tasks, false)
      modifies this`tasks, this`readyQueue, this`suspendedQueue, this`sleepingQueue
      ensures sleepingQueue == old(sleepingQueue)
      ensures var hit := WaitersOf(old(tasks), current);
        var woken := Woken(old(suspendedQueue.items), hit);
        tasks == ReleaseWaiters(old(tasks), woken, code) &&
        readyQueue.items == old(readyQueue.items) + woken &&
        suspendedQueue.items == Kept(old(suspendedQueue.items), hit)
    {
      ghost var sweep := Sweep(suspendedQueue.items, WaitersOf(tasks, current), tasks, false, code);
      ghost var done: seq<Ptr> := [];
      suspendedQueue := suspendedQueue.Head();
      var aux := suspendedQueue.Item();
      sweep.Begin(suspendedQueue);
      while aux != NULL
        invariant aux == suspendedQueue.Item() && sleepingQueue == old(sleepingQueue)
        invariant sweep.At(suspendedQueue, done, tasks)
        invariant readyQueue.items == old(readyQueue.items) + done
        decreases |suspendedQueue.items| - suspendedQueue.cursor
      {
        aux, done := PassWaiter(aux, code, sweep, done, old(readyQueue.items));
      }
      sweep.Over(suspendedQueue, done, tasks);
    }

    /** What the dispatcher does when the chosen task is back: the status switch, whose RUNNING case
        asserts false, and the sweep of the sleeping queue. */
    method SweepSleepers(chosen: nat)
      requires Valid() && current == 0 && phase == Sweeping(chosen)
      modifies this
      ensures Valid() && State() == Dispatcher.SweepPass(old(State()), chosen)
    {
      ghost var was := State();
      SweepPassPlaced(was);
      if chosen != NULL {
        assert InPlace(was, chosen);
        assert tasks[chosen].status != Running;
      }
      PlacedSuspended(was);
      WakeExpired();
      phase := Choosing;
    }

    /** What that sweep does with an expired sleeper, which is the item under the iterator. */
    method WakeSleeper(aux: Ptr, ghost sweep: Sweep, ghost done: seq<Ptr>)
      requires sweep.At(sleepingQueue, done, tasks) && aux == sleepingQueue.Item() && aux != NULL && aux < |tasks|
      requires aux in sweep.hit && sweep.asleep
      modifies this`tasks, this`readyQueue, this`suspendedQueue, this`sleepingQueue
      ensures suspendedQueue == old(suspendedQueue) && readyQueue.items == old(readyQueue.items) + [aux]
      ensures sweep.At(sleepingQueue.Next(), done + [aux], tasks)
      ensures |sleepingQueue.items| - sleepingQueue.Next().cursor < old(|sleepingQueue.items| - sleepingQueue.cursor)
    {
      sweep.Delete(sleepingQueue, done, tasks);
      TaskAwake(aux);
    }

    /** One turn of that sweep. */
    method PassSleeper(aux: Ptr, ghost sweep: Sweep, ghost done: seq<Ptr>, ghost ready: seq<Ptr>)
      returns (next: Ptr, ghost done1: seq<Ptr>)
      requires sweep.At(sleepingQueue, done, tasks) && aux == sleepingQueue.Item() && aux != NULL
      requires sweep.asleep && sweep.hit == Expired(sweep.start, clock)
      requires readyQueue.items == ready + done
      modifies this`tasks, this`readyQueue, this`suspendedQueue, this`sleepingQueue
      ensures sweep.At(sleepingQueue, done1, tasks) && next == sleepingQueue.Item()
      ensures suspendedQueue == old(suspendedQueue) && readyQueue.items == ready + done1
      ensures |sleepingQueue.items| - sleepingQueue.cursor < old(|sleepingQueue.items| - sleepingQueue.cursor)
    {
      sweep.Current(sleepingQueue, done, tasks);
      done1 := done;
      if clock >= tasks[aux].wakeUp {
        WakeSleeper(aux, sweep, done);
        done1 := done + [aux];
      } else {
        sweep.Pass(sleepingQueue, done, tasks);
      }
      sleepingQueue := sleepingQueue.Next();
      next := sleepingQueue.Item();
    }

    /** The sweep of the sleeping queue. */
    method WakeExpired()
      requires Distinct(sleepingQueue.items) && NULL !in sleepingQueue.items
      requires SuspendedIn(sleepingQueue.items, tasks, true)
      modifies this`tasks, this`readyQueue, this`suspendedQueue, this`sleepingQueue
      ensures suspendedQueue == old(suspendedQueue)
      ensures var hit := Expired(old(tasks), clock);
        var woken := Woken(old(sleepingQueue.items), hit);
        tasks == ReleaseSleepers(old(tasks), woken) &&
        readyQueue.items == old(readyQueue.items) + woken &&
        sleepingQueue.items == Kept(old(sleepingQueue.items), hit)
    {
      ghost var sweep := Sweep(sleepingQueue.items, Expired(tasks, clock), tasks, true, 0);
      ghost var done: seq<Ptr> := [];
      sleepingQueue := sleepingQueue.Head();
      var aux := sleepingQueue.Item();
      sweep.Begin(sleepingQueue);
      while aux != NULL
        invariant aux == sleepingQueue.Item() && suspendedQueue == old(suspendedQueue)
        invariant sweep.At(sleepingQueue, done, tasks)
        invariant readyQueue.items == old(readyQueue.items) + done
        decreases |sleepingQueue.items| - sleepingQueue.cursor
      {
        aux, done := PassSleeper(aux, sweep, done, old(readyQueue.items));
      }
      sweep.Over(sleepingQueue, done, tasks);
    }

    /** The loop head. The scheduler's answer is the choice-th ready task. */
    method Dispatch(choice: nat, requests: nat)
      requires Valid() && current == 0 && phase == Choosing && (choice < |readyQueue.items| || readyQueue.items == [])
      modifies this
      ensures Valid() && State() == Dispatcher.Dispatch(old(State()), choice, requests)
    {
      DispatchPlaced(State(), choice, requests);
      if |readyQueue.items| > 1 || |sleepingQueue.items| > 0 || requests > 0 {
        var next := if |readyQueue.items| > 0 then readyQueue.items[choice] else NULL;
        if next != NULL {
          assert next in readyQueue.items;
          TaskRun(next);
        }
        phase := Sweeping(next);
      } else {
        phase := Stopped;
      }
    }

    method HandleTimer()
      requires current < |tasks|
      modifies this
      ensures State() == Dispatcher.Tick(old(State()))
    {
      clock := clock + 1;
      tasks := tasks[current := tasks[current].(quantum := tasks[current].quantum - 1)];
      if tasks[current].quantum == 0 {
        TaskYield();
      }
    }

    method TaskCreate() returns (id: nat)
      modifies this
      ensures State() == Dispatcher.TaskCreate(old(State())) && id == old(|tasks|)
    {
      id := |tasks|;
      tasks := tasks + [NewTcb()];
      readyQueue := if id == NULL then QState(readyQueue.items + [id], readyQueue.cursor) else readyQueue.Add(id);
    }
  }
}
