/** kernel/block.c and hardware/disk.c together, in the code's own form: a disk object, user memory, the
    request queue and the manager's program point, changed in place. Every method is one kernel call
    and is proved to be the step of module DiskDriver that bears its name. */
module BlockDriver {
  import opened Queues
  import opened DiskDrive
  import opened DiskDriver

  class System {
    const disk: Disk
    const memory: array<Data>
    var requests: QState
    var pc: Pc
    var request: nat
    var tasks: seq<Task>

    // history
    ghost var log: seq<Entry>
    ghost var entries: seq<nat>
    ghost var initial: seq<Data>
    ghost var completed: nat
    ghost var deleted: nat

    ghost function State(): Driver
      reads this, disk, disk.file, memory
    {
      Driver(disk.Fields(), disk.file[..], memory[..], requests, pc, request, tasks, initial, log, entries,
             completed, deleted)
    }

    ghost predicate Valid()
      reads this, disk, disk.file, memory
    {
      disk.file != memory && Inv(State())
    }

    /** The state that block_init leaves, n user tasks included. */
    constructor (image: array<Data>, userMemory: array<Data>, n: nat)
      requires image != userMemory
      ensures Valid() && Booted(State()) && fresh(disk) && disk.file == image && memory == userMemory
      ensures |tasks| == n + 1 && initial == image[..]
    {
      var d := new Disk(image);
      disk, memory, requests, pc, request := d, userMemory, EmptyQueue(), AtStatus, 0;
      tasks := seq(n + 1, _ => Task(Outside, Request(Read, 0, 0, 0)));
      entries := seq(n + 1, _ => 0);
      initial, log, completed, deleted := image[..], [], 0, 0;
      new;
      var r := disk.HwDiskCmd(Init, 0, DiskDrive.NULL);
      BootedInv(State());
    }

    /** block_read up to task_suspend. */
    method BlockRead(c: nat, block: int, buffer: nat) returns (status: int)
      requires Valid() && (buffer != DiskDrive.NULL ==> MayCall(State(), c, buffer))
      modifies this
      ensures Valid()
      ensures if buffer == DiskDrive.NULL then status == DiskDrive.ERROR && State() == old(State())
              else status == DiskDrive.NOERROR && State() == Step(old(State()), Called(c, Read, block, buffer))
    {
      if buffer == DiskDrive.NULL {
        return DiskDrive.ERROR;
      }
      Enqueue(c, Read, block, buffer);
      status := DiskDrive.NOERROR;
    }

    /** block_write up to task_suspend. */
    method BlockWrite(c: nat, block: int, buffer: nat) returns (status: int)
      requires Valid() && (buffer != DiskDrive.NULL ==> MayCall(State(), c, buffer))
      modifies this
      ensures Valid()
      ensures if buffer == DiskDrive.NULL then status == DiskDrive.ERROR && State() == old(State())
              else status == DiskDrive.NOERROR && State() == Step(old(State()), Called(c, Write, block, buffer))
    {
      if buffer == DiskDrive.NULL {
        return DiskDrive.ERROR;
      }
      Enqueue(c, Write, block, buffer);
      status := DiskDrive.NOERROR;
    }

    method Enqueue(c: nat, kind: Kind, block: int, buffer: nat)
      requires Valid() && MayCall(State(), c, buffer)
      modifies this
      ensures Valid() && State() == Step(old(State()), Called(c, kind, block, buffer))
    {
      StepInv(State(), Called(c, kind, block, buffer));
      tasks := tasks[c := Task(Queued, Request(kind, block, buffer, 0))];
      entries := entries[c := |log|];
      log := log + [Entry(c, kind, block, buffer, memory[buffer])];
      requests := requests.Add(c);
    }

    /** The task_suspend of block_read and block_write. */
    method SuspendCaller(c: nat)
      requires Valid() && c < |tasks| && tasks[c].place == Queued
      modifies this
      ensures Valid() && State() == Step(old(State()), Suspended(c))
    {
      StepInv(State(), Suspended(c));
      tasks := tasks[c := tasks[c].(place := Waiting)];
    }

    /** The return of an awakened caller: the transfer succeeded. */
    method Return(c: nat) returns (status: int)
      requires Valid() && c < |tasks| && tasks[c].place == Awake
      modifies this
      ensures Valid() && State() == Step(old(State()), Returned(c)) && status == DiskDrive.NOERROR
    {
      StepInv(State(), Returned(c));
      assert CallInv(State(), c);
      status := tasks[c].request.returnValue;
      tasks := tasks[c := tasks[c].(place := Outside)];
    }

    /** task_awake, called by the manager. */
    method AwakenTask(c: nat)
      requires c < |tasks|
      modifies this`tasks
      ensures tasks == Awaken(old(tasks), c)
    {
      if tasks[c].place == Waiting {
        tasks := tasks[c := tasks[c].(place := Awake)];
      }
    }

    /** The read or write command of disk_manager. */
    method IssueCommand()
      requires request < |tasks| && disk.file != memory
      modifies this, disk
      ensures State() == Command(old(State()))
    {
      var q := tasks[request].request;
      var r := disk.HwDiskCmd(Transfer(q.kind), q.block, q.buffer);
      tasks := tasks[request := tasks[request].(request := q.(returnValue := r))];
      pc := AtSuspend;
    }

    /** The loop of disk_manager from one kernel or hardware call to the next. */
    method Turn()
      requires request < |tasks| && disk.file != memory
      modifies this, disk
      ensures State() == Manage(old(State()))
    {
      match pc
      case AtStatus =>
        var status := disk.HwDiskCmd(GetStatus, 0, DiskDrive.NULL);
        pc := if status == Unknown.Code() then Gone else if status == Idle.Code() then AtItem else Parked;
      case AtItem =>
        var item := requests.Item();
        if item != Queues.NULL {
          request := item;
          pc := AtCommand;
        } else {
          pc := AtStatus;
        }
      case AtCommand =>
        IssueCommand();
      case AtSuspend =>
        pc := Asleep;
      case AtAwake =>
        AwakenTask(request);
        pc := AtDelete;
      case AtDelete =>
        requests := requests.Del(request);
        pc := AtStatus;
        deleted := deleted + 1;
      case _ =>
    }

    /** disk_manager, whenever it runs. */
    method DiskManager()
      requires Valid() && pc != Asleep
      modifies this, disk
      ensures Valid() && State() == Step(old(State()), Managed)
    {
      StepInv(State(), Managed);
      Turn();
    }

    /** The signal of the disk and handle_disk_signal. */
    method DiskInterrupt()
      requires Valid() && disk.status != Idle
      modifies this, disk, disk.file, memory
      ensures Valid() && State() == Step(old(State()), Interrupted)
    {
      BusyTransfers(State());
      StepInv(State(), Interrupted);
      Signal();
    }

    method Signal()
      requires Transferring(State()) && disk.file != memory
      modifies this, disk, disk.file, memory
      ensures State() == Interrupt(old(State()))
    {
      var aborted := disk.SigHandle(memory);
      assert !aborted;
      completed := completed + 1;
      pc := if pc == Asleep then AtAwake else if pc == Parked then AtStatus else pc;
    }
  }
}
