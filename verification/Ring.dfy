/** The byte-level circular buffer of kernel/mqueue.c (lines 16-121). */
module Ring {
  import opened Arithmetic

  newtype byte = x: int | 0 <= x < 256

  const CB_NOERROR := 0
  const CB_ERROR := 1
  const CB_FULL_BUFFER := 2
  const CB_EMPTY_BUFFER := 3

  /** end is the index of the last item, not one past it. */
  datatype RingBuf = RingBuf(buffer: seq<byte>, itemSize: nat, quant: nat, capacity: nat, start: nat, end: nat)

  function NewRing(buffer: seq<byte>, capacity: nat, itemSize: nat): RingBuf {
    RingBuf(buffer, itemSize, 0, capacity, 0, 0)
  }

  // ----- the two operations -----

  /** The buffer after memcpy of the item to the given offset. */
  function Splice(buffer: seq<byte>, offset: nat, item: seq<byte>): (r: seq<byte>)
    requires offset + |item| <= |buffer|
    ensures |r| == |buffer|
  {
    buffer[..offset] + item + buffer[offset + |item|..]
  }

  ghost predicate Wf(r: RingBuf) {
    && r.itemSize > 0 && r.capacity > 0
    && |r.buffer| == r.capacity * r.itemSize
    && r.start < r.capacity && r.end < r.capacity && r.quant <= r.capacity
    && r.end == (r.start + if r.quant == 0 then 0 else r.quant - 1) % r.capacity
  }

  function Inserted(r: RingBuf, item: seq<byte>): (RingBuf, int)
    requires Wf(r) && |item| == r.itemSize
  {
    if r.quant == r.capacity then (r, CB_FULL_BUFFER)
    else if r.quant == 0 then
      SlotBounds(r, r.start);
      (r.(buffer := Splice(r.buffer, r.start * r.itemSize, item), quant := 1), CB_NOERROR)
    else
      var next := (r.end + 1) % r.capacity;
      SlotBounds(r, next);
      (r.(buffer := Splice(r.buffer, next * r.itemSize, item), end := next, quant := r.quant + 1), CB_NOERROR)
  }

  /** The third component is what the destination holds afterwards. */
  function Removed(r: RingBuf, dest: seq<byte>): (RingBuf, int, seq<byte>)
    requires Wf(r)
  {
    if r.quant == 0 then (r, CB_EMPTY_BUFFER, dest)
    else
      (r.(start := if r.quant > 1 then (r.start + 1) % r.capacity else r.start, quant := r.quant - 1),
       CB_NOERROR, Slot(r, r.start))
  }

  // ----- the sequence of items it stands for -----

  lemma SlotBounds(r: RingBuf, k: nat)
    requires Wf(r) && k < r.capacity
    ensures 0 <= k * r.itemSize && k * r.itemSize + r.itemSize <= |r.buffer|
  {
    MulOrder(k + 1, r.capacity, r.itemSize);
    assert (k + 1) * r.itemSize == k * r.itemSize + r.itemSize;
  }

  lemma MulOrder(a: nat, b: nat, c: nat)
    requires a <= b
    ensures 0 <= a * c <= b * c
  {
    assert b * c == a * c + (b - a) * c;
    assert (b - a) * c >= 0;
  }

  /** The bytes of the k-th slot. */
  function Slot(r: RingBuf, k: nat): (s: seq<byte>)
    requires Wf(r) && k < r.capacity
    ensures |s| == r.itemSize
  {
    SlotBounds(r, k);
    r.buffer[k * r.itemSize..k * r.itemSize + r.itemSize]
  }

  /** Where the i-th stored item is. */
  function Position(r: RingBuf, i: nat): (k: nat)
    requires r.capacity > 0
    ensures k < r.capacity
  {
    (r.start + i) % r.capacity
  }

  /** The items, oldest first. */
  function StoredItems(r: RingBuf): (s: seq<seq<byte>>)
    requires Wf(r)
    ensures |s| == r.quant && forall i {:trigger s[i]} :: 0 <= i < |s| ==> s[i] == Slot(r, Position(r, i))
  {
    seq(r.quant, i requires 0 <= i < r.quant => Slot(r, Position(r, i)))
  }

  lemma NewRingIsEmpty(buffer: seq<byte>, capacity: nat, itemSize: nat)
    requires capacity > 0 && itemSize > 0 && |buffer| == capacity * itemSize
    ensures Wf(NewRing(buffer, capacity, itemSize)) && StoredItems(NewRing(buffer, capacity, itemSize)) == []
  {
    DivModUnique(0, 0, 0, capacity);
  }

  /** Copying an item into one slot changes that slot and no other. */
  lemma SpliceSlots(r: RingBuf, r1: RingBuf, k: nat, j: nat, item: seq<byte>)
    requires Wf(r) && Wf(r1) && k < r.capacity && j < r.capacity && |item| == r.itemSize
    requires r1.capacity == r.capacity && r1.itemSize == r.itemSize
    requires 0 <= k * r.itemSize && k * r.itemSize + r.itemSize <= |r.buffer|
    requires r1.buffer == Splice(r.buffer, k * r.itemSize, item)
    ensures Slot(r1, j) == if j == k then item else Slot(r, j)
  {
    SlotBounds(r, j);
    if j < k {
      MulOrder(j + 1, k, r.itemSize);
      assert (j + 1) * r.itemSize == j * r.itemSize + r.itemSize;
    } else if k < j {
      MulOrder(k + 1, j, r.itemSize);
      assert (k + 1) * r.itemSize == k * r.itemSize + r.itemSize;
    }
  }

  lemma WrapOnce(a: nat, m: nat)
    requires m > 0 && a < 2 * m
    ensures a % m == if a < m then a else a - m
  {
    if a < m {
      DivModUnique(a, 0, a, m);
    } else {
      DivModUnique(a, 1, a - m, m);
    }
  }

  /** Adding to a ring that is not full appends, whether or not the end index moves. */
  lemma AddAppends(r: RingBuf, item: seq<byte>)
    requires Wf(r) && |item| == r.itemSize && r.quant < r.capacity
    ensures var (r1, code) := Inserted(r, item);
      code == CB_NOERROR && Wf(r1) && StoredItems(r1) == StoredItems(r) + [item]
  {
    var (r1, code) := Inserted(r, item);
    var k := Position(r, r.quant);
    WrapOnce(r.start + r.quant, r.capacity);
    WrapOnce(r.start + (if r.quant == 0 then 0 else r.quant - 1), r.capacity);
    WrapOnce(r.end + 1, r.capacity);
    assert r1.end == k;
    SlotBounds(r, k);
    forall i | 0 <= i < r1.quant
      ensures StoredItems(r1)[i] == (StoredItems(r) + [item])[i]
    {
      WrapOnce(r.start + i, r.capacity);
      SpliceSlots(r, r1, k, Position(r, i), item);
    }
  }

  /** Removing from a ring that is not empty takes the oldest item, byte for byte. */
  lemma RemoveTakesOldest(r: RingBuf, dest: seq<byte>)
    requires Wf(r) && r.quant > 0
    ensures var (r1, code, item) := Removed(r, dest);
      code == CB_NOERROR && Wf(r1) && [item] + StoredItems(r1) == StoredItems(r)
  {
    var (r1, code, item) := Removed(r, dest);
    WrapOnce(r.start, r.capacity);
    WrapOnce(r.start + 1, r.capacity);
    WrapOnce(r.start + r.quant - 1, r.capacity);
    WrapOnce(r1.start + (if r1.quant == 0 then 0 else r1.quant - 1), r.capacity);
    forall i | 0 <= i < r1.quant
      ensures StoredItems(r1)[i] == StoredItems(r)[i + 1]
    {
      WrapOnce(r1.start + i, r.capacity);
      WrapOnce(r.start + (i + 1), r.capacity);
      assert Position(r1, i) == Position(r, i + 1);
    }
  }

  // ----- the object -----

  class CircularBuffer {
    var buffer: array<byte>
    var itemSize: int
    var itemQuant: int
    var maxCapacity: int
    var start: int
    var end: int

    ghost predicate Valid()
      reads this, buffer
    {
      && itemSize > 0 && itemQuant >= 0 && maxCapacity > 0 && start >= 0 && end >= 0
      && Wf(State())
    }

    ghost function State(): RingBuf
      requires itemSize >= 0 && itemQuant >= 0 && maxCapacity >= 0 && start >= 0 && end >= 0
      reads this, buffer
    {
      RingBuf(buffer[..], itemSize, itemQuant, maxCapacity, start, end)
    }

    /** The memory is what mem_alloc returned, so creation has succeeded. */
    constructor (memory: array<byte>, maxCapacity: int, itemSize: int)
      requires maxCapacity > 0 && itemSize > 0 && memory.Length == maxCapacity * itemSize
      ensures Valid() && State() == NewRing(memory[..], maxCapacity, itemSize) && buffer == memory
    {
      this.buffer := memory;
      this.start, this.end, this.itemQuant := 0, 0, 0;
      this.itemSize, this.maxCapacity := itemSize, maxCapacity;
      new;
      NewRingIsEmpty(buffer[..], maxCapacity, itemSize);
    }

    /** memcpy of one item into the buffer. */
    method CopyIn(item: array<byte>, offset: int)
      requires item != buffer && 0 <= itemSize <= item.Length && 0 <= offset && offset + itemSize <= buffer.Length
      modifies buffer
      ensures buffer[..] == Splice(old(buffer[..]), offset, item[..itemSize])
    {
      var i := 0;
      while i < itemSize
        invariant 0 <= i <= itemSize
        invariant forall k :: 0 <= k < buffer.Length ==>
          buffer[k] == if offset <= k < offset + i then item[k - offset] else old(buffer[k])
      {
        buffer[offset + i] := item[i];
        i := i + 1;
      }
    }

    /** memcpy of one item out of the buffer. */
    method CopyOut(dest: array<byte>, offset: int)
      requires dest != buffer && 0 <= itemSize <= dest.Length && 0 <= offset && offset + itemSize <= buffer.Length
      modifies dest
      ensures dest[..itemSize] == buffer[offset..offset + itemSize]
    {
      var i := 0;
      while i < itemSize
        invariant 0 <= i <= itemSize
        invariant forall k :: 0 <= k < i ==> dest[k] == buffer[offset + k]
      {
        dest[i] := buffer[offset + i];
        i := i + 1;
      }
    }

    method Add(item: array?<byte>) returns (code: int)
      requires Valid() && (item != null ==> item != buffer && item.Length >= itemSize)
      modifies this, buffer
      ensures Valid() && buffer == old(buffer) && itemSize == old(itemSize)
      ensures item == null ==> code == CB_ERROR && State() == old(State())
      ensures item != null && old(itemQuant) == maxCapacity ==> code == CB_FULL_BUFFER && State() == old(State())
      ensures item != null ==> (State(), code) == Inserted(old(State()), item[..itemSize])
    {
      if item == null {
        return CB_ERROR;
      }
      if itemQuant == maxCapacity {
        return CB_FULL_BUFFER;
      }
      ghost var was := State();
      AddAppends(was, item[..itemSize]);
      if itemQuant == 0 {
        SlotBounds(was, start);
        CopyIn(item, start * itemSize);
      } else {
        SlotBounds(was, (end + 1) % maxCapacity);
        var newItemOffset := ((end + 1) % maxCapacity) * itemSize;
        CopyIn(item, newItemOffset);
        end := (end + 1) % maxCapacity;
      }
      itemQuant := itemQuant + 1;
      code := CB_NOERROR;
    }

    method Remove(dest: array?<byte>) returns (code: int)
      requires Valid() && (dest != null ==> dest != buffer && dest.Length >= itemSize)
      modifies this, if dest == null then {} else {dest}
      ensures Valid() && buffer == old(buffer) && buffer[..] == old(buffer[..]) && itemSize == old(itemSize)
      ensures dest == null ==> code == CB_ERROR && State() == old(State())
      ensures dest != null && old(itemQuant) == 0 ==> code == CB_EMPTY_BUFFER && State() == old(State())
      ensures dest != null ==> (State(), code, dest[..itemSize]) == Removed(old(State()), old(dest[..itemSize]))
    {
      if dest == null {
        return CB_ERROR;
      }
      if itemQuant == 0 {
        return CB_EMPTY_BUFFER;
      }
      ghost var was := State();
      RemoveTakesOldest(was, dest[..itemSize]);
      SlotBounds(was, start);
      if itemQuant > 1 {
        var startOffset := start * itemSize;
        CopyOut(dest, startOffset);
        start := (start + 1) % maxCapacity;
      } else {
        var startOffset := start * itemSize;
        CopyOut(dest, startOffset);
      }
      itemQuant := itemQuant - 1;
      code := CB_NOERROR;
    }
  }
}
