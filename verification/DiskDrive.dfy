/** The virtual disk of hardware/disk.c: one command at a time, completed later by a signal. The disk
    image is an array of blocks; user memory is an array of block-sized buffers. */
module DiskDrive {

  type Data = seq<bv8>

  const BLOCK_SIZE: int := 64
  const DELAY_MIN: int := 30
  const DELAY_MAX: int := 300
  const NOERROR: int := 0
  const ERROR: int := -1
  const NULL: nat := 0

  datatype Status = Unknown | Idle | Reading | Writing {
    /** DISK_STATUS_UNKNOWN and so on */
    function Code(): int {
      match this
      case Unknown => 0
      case Idle => 1
      case Reading => 2
      case Writing => 3
    }
  }

  datatype Kind = Read | Write {
    function Busy(): Status {
      if this == Read then Reading else Writing
    }
  }

  datatype Query = Init | GetStatus | DiskSize | BlockSize | DelayMin | DelayMax | Transfer(kind: Kind) | Other

  /** The fields that commands change. */
  datatype State = State(status: Status, numBlocks: int, buffer: nat, prevBlock: int, nextBlock: int)

  /** A read or write command is accepted by an idle disk, with a buffer and a block of the disk, and
      then leaves it busy. */
  predicate Accepts(d: State, block: int, buffer: nat) {
    d.status == Idle && buffer != NULL && 0 <= block < d.numBlocks
  }

  function Started(d: State, kind: Kind, block: int, buffer: nat): State {
    d.(status := kind.Busy(), buffer := buffer, nextBlock := block)
  }

  class Disk {
    var status: Status
    var numBlocks: int
    var buffer: nat
    var prevBlock: int
    var nextBlock: int
    const file: array<Data>

    ghost function Fields(): State
      reads this
    {
      State(status, numBlocks, buffer, prevBlock, nextBlock)
    }

    constructor (image: array<Data>)
      ensures file == image && Fields() == State(Unknown, 0, NULL, 0, 0)
    {
      file := image;
      status, numBlocks, buffer, prevBlock, nextBlock := Unknown, 0, NULL, 0, 0;
    }

    /** hw_disk_cmd: what each command answers, and which one changes the disk. */
    method HwDiskCmd(cmd: Query, block: int, buf: nat) returns (r: int)
      modifies this
      ensures cmd == Init ==>
                if old(status) == Unknown then r == NOERROR && Fields() == State(Idle, file.Length, old(buffer), 0, 0)
                else r == ERROR && Fields() == old(Fields())
      ensures cmd.Transfer? ==>
                if Accepts(old(Fields()), block, buf)
                then r == NOERROR && Fields() == Started(old(Fields()), cmd.kind, block, buf)
                else r == ERROR && Fields() == old(Fields())
      ensures !cmd.Init? && !cmd.Transfer? ==> Fields() == old(Fields())
      ensures cmd.GetStatus? ==> r == status.Code()
      ensures cmd.DiskSize? || cmd.BlockSize? || cmd.DelayMin? || cmd.DelayMax? ==> (r == ERROR || status != Unknown)
      ensures cmd.DiskSize? && status != Unknown ==> r == numBlocks
      ensures cmd.BlockSize? && status != Unknown ==> r == BLOCK_SIZE
      ensures cmd.DelayMin? && status != Unknown ==> r == DELAY_MIN
      ensures cmd.DelayMax? && status != Unknown ==> r == DELAY_MAX
      ensures cmd.Other? ==> r == ERROR
    {
      match cmd
      case Init =>
        if status != Unknown {
          return ERROR;
        }
        status := Idle;
        nextBlock, prevBlock := 0, 0;
        numBlocks := file.Length;
        r := NOERROR;
      case GetStatus => r := status.Code();
      case DiskSize => r := if status == Unknown then ERROR else numBlocks;
      case BlockSize => r := if status == Unknown then ERROR else BLOCK_SIZE;
      case DelayMin => r := if status == Unknown then ERROR else DELAY_MIN;
      case DelayMax => r := if status == Unknown then ERROR else DELAY_MAX;
      case Transfer(kind) =>
        if status != Idle {
          return ERROR;
        }
        if buf == NULL {
          return ERROR;
        }
        if block < 0 || block >= numBlocks {
          return ERROR;
        }
        buffer := buf;
        nextBlock := block;
        status := if kind == Read then Reading else Writing;
        r := NOERROR;
      case Other => r := ERROR;
    }

    /** disk_sighandle: the pending transfer happens, and the disk is idle again; without one the
        program aborts. */
    method SigHandle(memory: array<Data>) returns (aborted: bool)
      requires status == Reading || status == Writing ==> 0 <= nextBlock < file.Length && buffer < memory.Length
      requires memory != file
      modifies this, file, memory
      ensures aborted <==> old(status) != Reading && old(status) != Writing
      ensures Fields() == if aborted then old(Fields()) else old(Fields()).(status := Idle, prevBlock := old(nextBlock))
      ensures memory[..] == if old(status) == Reading then old(memory[..])[buffer := old(file[nextBlock])]
                            else old(memory[..])
      ensures file[..] == if old(status) == Writing then old(file[..])[nextBlock := old(memory[buffer])]
                          else old(file[..])
    {
      if status == Reading {
        memory[buffer] := file[nextBlock];
      } else if status == Writing {
        file[nextBlock] := memory[buffer];
      } else {
        return true;
      }
      prevBlock := nextBlock;
      status := Idle;
      aborted := false;
    }
  }
}
