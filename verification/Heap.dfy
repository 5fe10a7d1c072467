/** kernel/memory.c: the heap with its headers and its two byte counters. */
module Heap {
  import opened Blocks
  import opened Allocation
  import opened HeapMemory
  import opened HeapRuns

  const ERROR: int := -1
  const NOERROR: int := 0

  class Heap {
    const headers: array<Header>
    var availableBytes: int
    var allocatedBytes: int
    ghost var blocks: seq<Block>

    ghost function State(): Store
      reads this, headers
    {
      Store(headers[..], availableBytes, allocatedBytes)
    }

    /** The headers follow the block list, and the counters count it. */
    ghost predicate Consistent()
      reads this, headers
    {
      Tracks(State(), blocks)
    }

    ghost predicate Valid()
      reads this, headers
    {
      Wf(blocks) && Consistent()
    }

    /** mem_init */
    constructor ()
      ensures Valid() && fresh(headers) && blocks == Initial()
    {
      headers := new Header[HEAP_SIZE + 1](_ => Header(0, false, NULL, NULL));
      availableBytes, allocatedBytes, blocks := HEAP_SIZE, 0, Initial();
      new;
      headers[0] := Header(HEAP_SIZE - HEADER, false, NULL, NULL);
      InitialWf();
    }

    method MemAvail() returns (n: int)
      requires Valid()
      ensures n == FreeBytes(blocks) + HEADER && n == HEAP_SIZE - allocatedBytes
    {
      n := availableBytes;
    }

    /** The search: the address of the first block that fits, or NULL. */
    method FindFit(need: nat) returns (current: int, ghost i: nat)
      requires Valid()
      ensures i == FirstFit(blocks, need)
      ensures current == if FirstFit(blocks, need) < |blocks| then Start(blocks, FirstFit(blocks, need)) else NULL
    {
      current, i := 0, 0;
      assert At(headers[..], blocks, 0);
      while current != NULL
        invariant i <= |blocks| && current == if i < |blocks| then Start(blocks, i) else NULL
        invariant forall j :: 0 <= j < i ==> !Fits(blocks[j], need)
        decreases |blocks| - i
      {
        assert At(headers[..], blocks, i);
        if !headers[current].used && headers[current].size >= need {
          return;
        }
        current, i := headers[current].next, i + 1;
      }
    }

    /** What mem_alloc does with the block it has found, as the code stands. */
    method Take(current: nat, size: nat, ghost i: nat)
      requires Valid() && i < |blocks| && Fits(blocks[i], size) && size > 0 && size % 16 == 0
      requires current == Start(blocks, i)
      modifies this, headers
      ensures current + HEADER + size < |old(headers[..])|
      ensures var charge := Charge(old(blocks[i].size), size);
        State() == Store(AllocMem(old(headers[..]), current, size), old(availableBytes) - charge,
                         old(allocatedBytes) + charge)
      ensures Safe(old(blocks), i, size) ==> Valid() && blocks == AllocAt(old(blocks), i, size)
    {
      ghost var bs, mem := blocks, headers[..];
      assert At(mem, bs, i);
      AllocKeepsHeap(mem, bs, i, size);
      TakeCounts(bs, i, size);
      var h := headers[current];
      var allocatedSize := size;
      headers[current] := h.(used := true);
      if (h.size - size - HEADER) % TWO_64 >= 16 {
        var newBlock := current + HEADER + size;
        headers[newBlock] := Header((h.size - size - HEADER) % TWO_32, false, h.next, current);
        availableBytes := availableBytes - HEADER;
        allocatedBytes := allocatedBytes + HEADER;
        headers[current] := headers[current].(next := newBlock);
      } else {
        allocatedSize := h.size;
      }
      allocatedBytes := allocatedBytes + allocatedSize;
      availableBytes := availableBytes - allocatedSize;
      headers[current] := headers[current].(size := allocatedSize);
      assert headers[..] == AllocMem(mem, current, size);
      blocks := AllocAt(bs, i, size);
    }

    /** mem_alloc does to the headers and the counters what HeapRuns.AllocStore says; the pointer is NULL
        exactly when no free block holds the rounded size, and otherwise the payload of the lowest that
        does. The block list stays the intended one on requests the code serves correctly. */
    method MemAlloc(size: int) returns (ptr: int)
      requires Valid()
      modifies this, headers
      ensures (State(), ptr) == AllocStore(old(State()), size)
      ensures ptr == AllocCall(old(blocks), size).1
      ensures SafeAlloc(old(blocks), size) ==> Valid() && blocks == AllocCall(old(blocks), size).0
    {
      AllocStoreIs(State(), blocks, size);
      if size <= 0 {
        return NULL;
      }
      if availableBytes < size {
        return NULL;
      }
      var allocatedSize := Rounded(size);
      var current, i := FindFit(allocatedSize);
      if current == NULL {
        return NULL;
      }
      Take(current, allocatedSize, i);
      ptr := current + HEADER;
    }

    /** mem_alloc with the split test in signed arithmetic and the old successor's prev redirected,
        a deviation from the code: it serves every request. */
    method MemAllocRepaired(size: int) returns (ptr: int)
      requires Valid()
      modifies this, headers
      ensures Valid() && (blocks, ptr) == AllocCall(old(blocks), size)
    {
      if size <= 0 {
        return NULL;
      }
      if availableBytes < size {
        return NULL;
      }
      var need := Rounded(size);
      var current, i := FindFit(need);
      if current == NULL {
        return NULL;
      }
      TakeRepaired(current, need, i);
      ptr := current + HEADER;
    }

    method TakeRepaired(current: nat, size: nat, ghost i: nat)
      requires Valid() && i < |blocks| && Fits(blocks[i], size) && size > 0 && size % 16 == 0
      requires current == Start(blocks, i)
      modifies this, headers
      ensures Valid() && blocks == AllocAt(old(blocks), i, size)
    {
      ghost var bs, mem := blocks, headers[..];
      assert At(mem, bs, i);
      AllocKeeps(bs, i, size);
      RepairedRepresents(mem, bs, i, size);
      var h := headers[current];
      var allocatedSize := h.size;
      if h.size - size >= HEADER + 16 {
        var newBlock := current + HEADER + size;
        headers[current] := Header(size, true, newBlock, h.prev);
        headers[newBlock] := Header(h.size - size - HEADER, false, h.next, current);
        if h.next != NULL {
          headers[h.next] := headers[h.next].(prev := newBlock);
        }
        availableBytes := availableBytes - HEADER;
        allocatedBytes := allocatedBytes + HEADER;
        allocatedSize := size;
      } else {
        headers[current] := h.(used := true);
      }
      allocatedBytes := allocatedBytes + allocatedSize;
      availableBytes := availableBytes - allocatedSize;
      assert headers[..] == RepairedMem(mem, current, size);
      blocks := AllocAt(bs, i, size);
    }

    /** The search of mem_free: the block whose header is at toFree, or NULL. */
    method FindBlock(toFree: int) returns (current: int, ghost i: nat)
      requires Valid()
      ensures i <= |blocks| && current == if i < |blocks| then Start(blocks, i) else NULL
      ensures current == WalkTo(headers[..], 0, toFree, headers.Length) && (current == NULL || current == toFree)
      ensures current == NULL ==> forall j :: 0 <= j < |blocks| ==> Start(blocks, j) != toFree
    {
      ManyAddresses(blocks);
      ghost var k := WalkFinds(headers[..], blocks, 0, toFree, headers.Length);
      assert At(headers[..], blocks, 0);
      current, i := 0, 0;
      while current != NULL
        invariant i <= k && current == if i < |blocks| then Start(blocks, i) else NULL
        invariant forall j :: 0 <= j < i ==> Start(blocks, j) != toFree
        decreases |blocks| - i
      {
        assert At(headers[..], blocks, i);
        if current == toFree {
          return;
        }
        current, i := headers[current].next, i + 1;
      }
    }

    /** mem_free: an error exactly when ptr is not a live payload. */
    method MemFree(ptr: int) returns (status: int)
      requires Valid()
      modifies this, headers
      ensures (State(), status == NOERROR) == FreeStore(old(State()), ptr)
      ensures Valid() && blocks == FreeCall(old(blocks), ptr).0
      ensures status == if IsLive(old(blocks), ptr) then NOERROR else ERROR
    {
      FreeSucceeds(blocks, ptr);
      FreeStoreSane(State(), blocks, ptr);
      if availableBytes >= HEAP_SIZE {
        return ERROR;
      }
      if ptr == NULL {
        return ERROR;
      }
      var current, i := FindBlock(ptr - HEADER);
      FoundIsLive(blocks, ptr, i);
      assert i < |blocks| ==> At(headers[..], blocks, i);
      if current == NULL || !headers[current].used {
        return ERROR;
      }
      ReleaseTracks(State(), blocks, i);
      Release(current, i);
      ForwardTracks(State(), blocks, i);
      JoinNext(current, i);
      JoinPrevious(current, i);
      status := NOERROR;
    }

    method Release(current: nat, ghost i: nat)
      requires Consistent() && Good(blocks) && i < |blocks| && blocks[i].used && current == Start(blocks, i)
      modifies this, headers
      ensures current < |old(headers[..])| && State() == Released(old(State()), current)
      ensures blocks == old(blocks)[i := old(blocks)[i].(used := false)]
    {
      ReleaseTracks(State(), blocks, i);
      ghost var mem := headers[..];
      headers[current] := headers[current].(used := false);
      assert headers[..] == mem[current := mem[current].(used := false)];
      allocatedBytes := allocatedBytes - headers[current].size;
      availableBytes := availableBytes + headers[current].size;
      blocks := blocks[i := blocks[i].(used := false)];
    }

    /** The forward merge. */
    method JoinNext(current: nat, ghost i: nat)
      requires Consistent() && Good(blocks) && i < |blocks| && !blocks[i].used && current == Start(blocks, i)
      modifies this, headers
      ensures current < |old(headers[..])| && State() == JoinForward(old(State()), current)
      ensures blocks == MergeForward(old(blocks), i)
    {
      ForwardTracks(State(), blocks, i);
      assert At(headers[..], blocks, i);
      assert i + 1 < |blocks| ==> At(headers[..], blocks, i + 1);
      var next := headers[current].next;
      if next != NULL && !headers[next].used {
        Join(current, next, i);
      }
    }

    /** The backward merge. */
    method JoinPrevious(current: nat, ghost i: nat)
      requires Consistent() && Good(blocks) && i < |blocks| && !blocks[i].used && current == Start(blocks, i)
      modifies this, headers
      ensures current < |old(headers[..])| && State() == JoinBackward(old(State()), current)
      ensures blocks == MergeBackward(old(blocks), i)
    {
      BackwardTracks(State(), blocks, i);
      assert At(headers[..], blocks, i);
      assert i > 0 ==> At(headers[..], blocks, i - 1);
      var prev := headers[current].prev;
      if prev != NULL && !headers[prev].used {
        Join(prev, current, i - 1);
      }
    }

    /** What both merges do: the block at a takes in its successor at b. */
    method Join(a: nat, b: nat, ghost i: nat)
      requires Consistent() && Good(blocks) && i + 1 < |blocks| && !blocks[i].used && !blocks[i + 1].used
      requires a == Start(blocks, i) && b == Start(blocks, i + 1)
      modifies this, headers
      ensures a < |old(headers[..])| && b < |old(headers[..])| && old(headers[..])[b].next < |old(headers[..])|
      ensures State() == JoinStore(old(State()), a, b) && blocks == MergeAt(old(blocks), i)
    {
      ghost var mem := headers[..];
      JoinTracks(State(), blocks, i);
      assert At(mem, blocks, i) && At(mem, blocks, i + 1);
      Apart2(blocks, i, i + 1);
      headers[a] := headers[a].(size := headers[a].size + HEADER + headers[b].size);
      availableBytes := availableBytes + HEADER;
      allocatedBytes := allocatedBytes - HEADER;
      headers[a] := headers[a].(next := headers[b].next);
      if headers[a].next != NULL {
        headers[headers[a].next] := headers[headers[a].next].(prev := a);
      }
      assert headers[..] == MergeMem(mem, a, b);
      blocks := MergeAt(blocks, i);
    }
  }
}
