/** The headers that kernel/memory.c keeps inside the heap, what its two operations write into them,
    and when the headers still describe a block list afterwards. */
module HeapMemory {
  import opened Blocks
  import opened Allocation

  /** Pointers are offsets into the heap, NULL is outside it. */
  datatype Header = Header(size: int, used: bool, next: int, prev: int)

  /** The header at each offset, the first offset past the end of the heap included. */
  type Memory = seq<Header>

  const TWO_32: nat := 0x1_0000_0000
  const TWO_64: nat := 0x1_0000_0000_0000_0000

  /** The header that block i should have. */
  function HeaderOf(bs: seq<Block>, i: nat): Header
    requires i < |bs|
  {
    Header(bs[i].size, bs[i].used,
           if i + 1 < |bs| then Start(bs, i + 1) else NULL, if i > 0 then Start(bs, i - 1) else NULL)
  }

  predicate At(mem: Memory, bs: seq<Block>, i: nat)
    requires i < |bs|
  {
    Start(bs, i) < |mem| && mem[Start(bs, i)] == HeaderOf(bs, i)
  }

  /** Walking next from offset 0 visits the blocks in order, and prev leads back. */
  ghost predicate Represents(mem: Memory, bs: seq<Block>) {
    |mem| == HEAP_SIZE + 1 && |bs| > 0 && forall i :: 0 <= i < |bs| ==> At(mem, bs, i)
  }

  /** The header at the address of v's j-th block links to where v's next block is. */
  predicate Links(mem: Memory, v: seq<Block>, j: nat)
    requires j < |v|
  {
    Start(v, j) < |mem| && mem[Start(v, j)].size == v[j].size && mem[Start(v, j)].next == Start(v, j + 1)
  }

  /** Whatever list a memory describes follows its links. */
  lemma {:induction false} Follow(mem: Memory, v: seq<Block>, cs: seq<Block>, k: nat)
    requires Represents(mem, cs) && k <= |v| && forall j :: 0 <= j < k ==> Links(mem, v, j)
    ensures k < |cs| && Start(cs, k) == Start(v, k) && At(mem, cs, k)
    decreases k
  {
    if k > 0 {
      Follow(mem, v, cs, k - 1);
      assert Links(mem, v, k - 1) && At(mem, cs, k - 1);
      StartNext(v, k - 1);
      StartNext(cs, k - 1);
    }
  }

  /** One memory describes at most one list. */
  lemma Unambiguous(mem: Memory, bs: seq<Block>, cs: seq<Block>)
    requires Represents(mem, bs) && Represents(mem, cs)
    ensures bs == cs
  {
    forall j | 0 <= j < |bs| - 1
      ensures Links(mem, bs, j)
    {
      assert At(mem, bs, j);
    }
    forall j | 0 <= j < |bs|
      ensures j < |cs| && bs[j] == cs[j]
    {
      Follow(mem, bs, cs, j);
      assert At(mem, bs, j) && At(mem, cs, j);
    }
    Follow(mem, bs, cs, |bs| - 1);
    assert At(mem, bs, |bs| - 1) && At(mem, cs, |bs| - 1);
  }

  /** next and prev undo each other, and neighbouring headers are exactly a block apart. */
  lemma NextPrevInverse(mem: Memory, bs: seq<Block>, i: nat)
    requires Represents(mem, bs) && i + 1 < |bs|
    ensures Start(bs, i) < |mem| && Start(bs, i + 1) < |mem|
    ensures var h, n := mem[Start(bs, i)], mem[Start(bs, i + 1)];
      h.next == Start(bs, i + 1) && n.prev == Start(bs, i) && h.next == n.prev + HEADER + h.size
  {
    assert At(mem, bs, i) && At(mem, bs, i + 1);
    StartNext(bs, i);
  }

  // ----- addresses after a stretch of blocks is replaced -----

  lemma StartBefore(s: seq<Block>, s1: seq<Block>, x: seq<Block>, m: seq<Block>, m1: seq<Block>,
                                       y: seq<Block>, k: nat)
    requires Replaced(s, s1, x, m, m1, y) && k <= |x|
    ensures Start(s1, k) == Start(s, k)
  {
    assert s[..k] == x[..k] == s1[..k];
  }

  lemma StartAfter(s: seq<Block>, s1: seq<Block>, x: seq<Block>, m: seq<Block>, m1: seq<Block>,
                                      y: seq<Block>, k: nat)
    requires Replaced(s, s1, x, m, m1, y) && k <= |y|
    ensures Start(s1, |x| + |m1| + k) == Start(s, |x| + |m| + k)
  {
    var a, b := s[..|x| + |m| + k], s1[..|x| + |m1| + k];
    assert a == x + m + y[..k];
    assert b == x + m1 + y[..k];
    ThreeParts(a, x, m, y[..k]);
    ThreeParts(b, x, m1, y[..k]);
  }

  // ----- merging -----

  /** What mem_free does to let the block at a swallow its successor at b, forwards and backwards
      alike. */
  function MergeMem(mem: Memory, a: nat, b: nat): Memory
    requires a < |mem| && b < |mem| && mem[b].next < |mem|
  {
    var n := mem[b].next;
    var m := mem[a := mem[a].(size := mem[a].size + HEADER + mem[b].size, next := n)];
    if n < 0 then m else m[n := m[n].(prev := a)]
  }

  lemma MergeStart(bs: seq<Block>, i: nat, k: nat)
    requires i + 1 < |bs| && k < |bs|
    ensures Start(MergeAt(bs, i), k) == Start(bs, if k <= i then k else k + 1)
  {
    var x, y := bs[..i], bs[i + 2..];
    var two, one := [bs[i], bs[i + 1]], [Block(bs[i].size + HEADER + bs[i + 1].size, bs[i].used)];
    TwoBlocks(bs[i], bs[i + 1], 0);
    OneBlock(bs[i], 0);
    OneBlock(bs[i + 1], 0);
    OneBlock(one[0], 0);
    assert bs == x + two + y;
    assert Replaced(bs, MergeAt(bs, i), x, two, one, y);
    if k <= i {
      StartBefore(bs, MergeAt(bs, i), x, two, one, y, k);
    } else {
      StartAfter(bs, MergeAt(bs, i), x, two, one, y, k - i - 1);
    }
  }

  lemma MergeHeader(bs: seq<Block>, i: nat, k: nat)
    requires i + 1 < |bs| && k < |bs| - 1
    ensures k < |MergeAt(bs, i)|
    ensures var h := HeaderOf(bs, if k <= i then k else k + 1);
      HeaderOf(MergeAt(bs, i), k) ==
      if k == i then h.(size := h.size + HEADER + bs[i + 1].size, next := HeaderOf(bs, i + 1).next)
      else if k == i + 1 then h.(prev := Start(bs, i))
      else h
  {
    MergeShape(bs, i);
    MergeStart(bs, i, k);
    if k > 0 {
      MergeStart(bs, i, k - 1);
    }
    MergeStart(bs, i, k + 1);
  }

  lemma Apart2(bs: seq<Block>, i: nat, j: nat)
    requires i < |bs| && j < |bs|
    ensures i != j ==> Start(bs, i) != Start(bs, j)
  {
    if i != j && Start(bs, i) == Start(bs, j) {
      SameStart(bs, i, j);
    }
  }

  lemma MergeRepresents(mem: Memory, bs: seq<Block>, i: nat)
    requires Represents(mem, bs) && i + 1 < |bs|
    ensures Start(bs, i) < |mem| && Start(bs, i + 1) < |mem| && mem[Start(bs, i + 1)].next < |mem|
    ensures Represents(MergeMem(mem, Start(bs, i), Start(bs, i + 1)), MergeAt(bs, i))
  {
    assert At(mem, bs, i) && At(mem, bs, i + 1);
    assert i + 2 < |bs| ==> At(mem, bs, i + 2);
    var r, m := MergeAt(bs, i), MergeMem(mem, Start(bs, i), Start(bs, i + 1));
    forall k | 0 <= k < |r|
      ensures At(m, r, k)
    {
      MergeStart(bs, i, k);
      MergeHeader(bs, i, k);
      var j := if k <= i then k else k + 1;
      assert At(mem, bs, j);
      Apart2(bs, i, j);
      if i + 2 < |bs| {
        Apart2(bs, i + 2, j);
        Apart2(bs, i, i + 2);
      }
    }
  }

  /** Clearing is_used. */
  lemma ReleaseRepresents(mem: Memory, bs: seq<Block>, i: nat)
    requires Represents(mem, bs) && i < |bs|
    ensures Start(bs, i) < |mem|
    ensures Represents(mem[Start(bs, i) := mem[Start(bs, i)].(used := false)], bs[i := bs[i].(used := false)])
  {
    assert At(mem, bs, i);
    var r, m := bs[i := bs[i].(used := false)], mem[Start(bs, i) := mem[Start(bs, i)].(used := false)];
    UsedStart(bs, i, false, i);
    forall k | 0 <= k < |r|
      ensures At(m, r, k)
    {
      assert At(mem, bs, k);
      UsedHeader(bs, i, false, k);
      UsedStart(bs, i, false, k);
      Apart2(bs, i, k);
    }
  }

  lemma UsedStart(bs: seq<Block>, i: nat, used: bool, k: nat)
    requires i < |bs| && k <= |bs|
    ensures Start(bs[i := bs[i].(used := used)], k) == Start(bs, k)
  {
    var x, y, b := bs[..i], bs[i + 1..], bs[i].(used := used);
    OneBlock(bs[i], 0);
    OneBlock(b, 0);
    assert Replaced(bs, bs[i := b], x, [bs[i]], [b], y) by {
      SplitAt(bs, i);
      assert bs[i := b] == x + [b] + y;
    }
    if k <= i {
      StartBefore(bs, bs[i := b], x, [bs[i]], [b], y, k);
    } else {
      StartAfter(bs, bs[i := b], x, [bs[i]], [b], y, k - i - 1);
    }
  }

  lemma UsedHeader(bs: seq<Block>, i: nat, used: bool, k: nat)
    requires i < |bs| && k < |bs|
    ensures HeaderOf(bs[i := bs[i].(used := used)], k) ==
      if k == i then HeaderOf(bs, k).(used := used) else HeaderOf(bs, k)
  {
    UsedStart(bs, i, used, k + 1);
    if k > 0 {
      UsedStart(bs, i, used, k - 1);
    }
  }

  // ----- splitting -----

  /** The test on line 117: the subtraction of sizeof is done in 64-bit unsigned arithmetic. */
  predicate Splits(size: int, need: nat) {
    (size - need - HEADER) % TWO_64 >= 16
  }

  /** What mem_alloc writes when it takes the block at a: the code as it stands. */
  function AllocMem(mem: Memory, a: nat, need: nat): Memory
    requires a < |mem| && a + HEADER + need < |mem|
  {
    var h, n := mem[a], a + HEADER + need;
    if Splits(h.size, need) then
      mem[a := Header(need, true, n, h.prev)][n := Header((h.size - need - HEADER) % TWO_32, false, h.next, a)]
    else
      mem[a := h.(used := true)]
  }

  /** Walking next from offset 0 visits the blocks in order; prev may be wrong. */
  ghost predicate Walks(mem: Memory, bs: seq<Block>) {
    |mem| == HEAP_SIZE + 1 && |bs| > 0 && forall i :: 0 <= i < |bs| ==> WalksAt(mem, bs, i)
  }

  predicate WalksAt(mem: Memory, bs: seq<Block>, i: nat)
    requires i < |bs|
  {
    Start(bs, i) < |mem| && mem[Start(bs, i)] == HeaderOf(bs, i).(prev := mem[Start(bs, i)].prev)
  }

  lemma RepresentsWalks(mem: Memory, bs: seq<Block>)
    requires Represents(mem, bs)
    ensures Walks(mem, bs)
  {
    forall i | 0 <= i < |bs|
      ensures WalksAt(mem, bs, i)
    {
      assert At(mem, bs, i);
    }
  }

  /** What the counters lose when the block is taken. */
  function Charge(size: int, need: nat): int {
    if Splits(size, need) then need + HEADER else size
  }

  /** The two repairs that the comment on lines 115-116 asks for: split when header and at least 16
      bytes are left, and let the old successor point back to the new block. */
  function RepairedMem(mem: Memory, a: nat, need: nat): Memory
    requires a < |mem| && a + HEADER + need < |mem| && mem[a].next < |mem|
  {
    var h, n := mem[a], a + HEADER + need;
    if h.size - need >= HEADER + 16 then
      var m := mem[a := Header(need, true, n, h.prev)][n := Header(h.size - need - HEADER, false, h.next, a)];
      if h.next < 0 then m else m[h.next := m[h.next].(prev := n)]
    else
      mem[a := h.(used := true)]
  }

  /** The requests that the code serves correctly: those that leave exactly a header, and those that
      leave room for a header and 16 bytes in the last block. */
  predicate Safe(bs: seq<Block>, i: nat, need: nat)
    requires i < |bs|
  {
    bs[i].size - need == HEADER || (bs[i].size - need >= HEADER + 16 && i == |bs| - 1)
  }

  lemma SplitStart(bs: seq<Block>, i: nat, need: nat, k: nat)
    requires i < |bs| && Fits(bs[i], need) && bs[i].size - need >= HEADER + 16 && k <= |bs| + 1
    ensures |AllocAt(bs, i, need)| == |bs| + 1
    ensures Start(AllocAt(bs, i, need), k) ==
      if k <= i then Start(bs, k) else if k == i + 1 then Start(bs, i) + HEADER + need else Start(bs, k - 1)
  {
    var r, x, y, c := AllocAt(bs, i, need), bs[..i], bs[i + 1..], Carve(bs[i], need);
    TwoBlocks(c[0], c[1], 0);
    OneBlock(c[0], 0);
    OneBlock(c[1], 0);
    OneBlock(bs[i], 0);
    SplitAt(bs, i);
    assert Replaced(bs, r, x, [bs[i]], c, y);
    if k <= i {
      StartBefore(bs, r, x, [bs[i]], c, y, k);
    } else if k == i + 1 {
      StartBefore(bs, r, x, [bs[i]], c, y, i);
      StartNext(r, i);
    } else {
      StartAfter(bs, r, x, [bs[i]], c, y, k - i - 2);
    }
  }

  lemma SplitHeader(bs: seq<Block>, i: nat, need: nat, k: nat)
    requires i < |bs| && Fits(bs[i], need) && bs[i].size - need >= HEADER + 16 && k <= |bs|
    ensures |AllocAt(bs, i, need)| == |bs| + 1
    ensures var n := Start(bs, i) + HEADER + need;
      HeaderOf(AllocAt(bs, i, need), k) ==
      if k == i then Header(need, true, n, HeaderOf(bs, i).prev)
      else if k == i + 1 then Header(bs[i].size - need - HEADER, false, HeaderOf(bs, i).next, Start(bs, i))
      else if k == i + 2 then HeaderOf(bs, i + 1).(prev := n)
      else HeaderOf(bs, if k < i then k else k - 1)
  {
    SplitStart(bs, i, need, k);
    SplitStart(bs, i, need, k + 1);
    if k > 0 {
      SplitStart(bs, i, need, k - 1);
    }
  }

  /** The new header lies inside the payload of the block that is split. */
  lemma NewHeaderApart(bs: seq<Block>, i: nat, need: nat, k: nat)
    requires i < |bs| && k < |bs| && need + HEADER <= bs[i].size
    ensures Start(bs, k) != Start(bs, i) + HEADER + need
  {
    StartNext(bs, i);
    if k < i {
      StartOrder(bs, k, i);
    } else if k > i + 1 {
      StartOrder(bs, i + 1, k);
    }
  }

  /** With the two repairs the headers always follow the block list. */
  lemma RepairedRepresents(mem: Memory, bs: seq<Block>, i: nat, need: nat)
    requires Represents(mem, bs) && Length(bs) == HEAP_SIZE && i < |bs| && Fits(bs[i], need)
    ensures Start(bs, i) + HEADER + need < |mem| && mem[Start(bs, i)].next < |mem|
    ensures Represents(RepairedMem(mem, Start(bs, i), need), AllocAt(bs, i, need))
  {
    StartBelow(bs, i);
    assert At(mem, bs, i);
    assert i + 1 < |bs| ==> At(mem, bs, i + 1);
    if bs[i].size - need >= HEADER + 16 {
      SplitRepresents(mem, bs, i, need);
    } else {
      WholeRepresents(mem, bs, i, need);
    }
  }

  lemma WholeRepresents(mem: Memory, bs: seq<Block>, i: nat, need: nat)
    requires Represents(mem, bs) && i < |bs| && Fits(bs[i], need) && bs[i].size - need < HEADER + 16
    ensures Start(bs, i) < |mem|
    ensures Represents(mem[Start(bs, i) := mem[Start(bs, i)].(used := true)], AllocAt(bs, i, need))
  {
    assert At(mem, bs, i);
    var r, m := bs[i := bs[i].(used := true)], mem[Start(bs, i) := mem[Start(bs, i)].(used := true)];
    assert AllocAt(bs, i, need) == r;
    forall k | 0 <= k < |r|
      ensures At(m, r, k)
    {
      assert At(mem, bs, k);
      UsedHeader(bs, i, true, k);
      UsedStart(bs, i, true, k);
      Apart2(bs, i, k);
    }
  }

  lemma SplitRepresents(mem: Memory, bs: seq<Block>, i: nat, need: nat)
    requires Represents(mem, bs) && i < |bs| && Fits(bs[i], need) && bs[i].size - need >= HEADER + 16
    requires Start(bs, i) + HEADER + need < |mem| && mem[Start(bs, i)].next < |mem|
    ensures Represents(RepairedMem(mem, Start(bs, i), need), AllocAt(bs, i, need))
  {
    assert At(mem, bs, i);
    assert i + 1 < |bs| ==> At(mem, bs, i + 1);
    var r, m := AllocAt(bs, i, need), RepairedMem(mem, Start(bs, i), need);
    SplitStart(bs, i, need, 0);
    forall k | 0 <= k < |r|
      ensures At(m, r, k)
    {
      SplitStart(bs, i, need, k);
      SplitHeader(bs, i, need, k);
      if k == i + 1 {
        NewHeaderApart(bs, i, need, i);
        if i + 1 < |bs| {
          NewHeaderApart(bs, i, need, i + 1);
        }
      } else {
        var j := if k <= i then k else k - 1;
        assert At(mem, bs, j);
        NewHeaderApart(bs, i, need, j);
        Apart2(bs, i, j);
        if i + 1 < |bs| {
          Apart2(bs, i + 1, j);
        }
      }
    }
  }

  lemma WrapTest(left: nat)
    requires left <= HEAP_SIZE && left % 16 == 0
    ensures Splits(left, 0) <==> left != HEADER
    ensures left < HEADER ==> (left - HEADER) % TWO_32 > HEAP_SIZE
    ensures left > HEADER ==> (left - HEADER) % TWO_32 == left - HEADER
  {
  }

  /** A request the code serves correctly: it writes what the repaired code would write. */
  lemma SafeAgrees(mem: Memory, bs: seq<Block>, i: nat, need: nat)
    requires Represents(mem, bs) && Wf(bs) && i < |bs| && Fits(bs[i], need) && need % 16 == 0 && Safe(bs, i, need)
    ensures Start(bs, i) + HEADER + need < |mem| && mem[Start(bs, i)].next < |mem|
    ensures AllocMem(mem, Start(bs, i), need) == RepairedMem(mem, Start(bs, i), need)
  {
    StartBelow(bs, i);
    assert At(mem, bs, i) && bs[i] in bs;
    assert i + 1 < |bs| ==> At(mem, bs, i + 1);
    WrapTest(bs[i].size - need);
    assert bs[i].size - need - HEADER == bs[i].size - need - 0 - HEADER;
  }

  /** On a Safe request the code charges the counters what the split costs. */
  lemma SafeCharge(b: Block, need: nat)
    requires Fits(b, need) && GoodBlock(b) && need % 16 == 0 && b.size <= HEAP_SIZE
    requires b.size - need == HEADER || b.size - need >= HEADER + 16
    ensures Charge(b.size, need) == Carve(b, need)[0].size + if |Carve(b, need)| == 2 then HEADER else 0
  {
    WrapTest(b.size - need);
    assert b.size - need - 0 - HEADER == b.size - need - HEADER;
  }

  lemma TakeCounts(bs: seq<Block>, i: nat, need: nat)
    requires Wf(bs) && i < |bs| && Fits(bs[i], need) && need > 0 && need % 16 == 0
    ensures bs[i].size - need == HEADER || bs[i].size - need >= HEADER + 16 ==>
              Wf(AllocAt(bs, i, need)) &&
              FreeBytes(AllocAt(bs, i, need)) == FreeBytes(bs) - Charge(bs[i].size, need)
  {
    AllocKeeps(bs, i, need);
    StartBelow(bs, i);
    assert bs[i] in bs;
    if bs[i].size - need == HEADER || bs[i].size - need >= HEADER + 16 {
      SafeCharge(bs[i], need);
    }
  }

  // ----- where the code goes wrong -----

  /** Before the block that is taken nothing changes, and its own header links to the new one. */
  lemma {:induction false} LinksToNew(mem: Memory, bs: seq<Block>, i: nat, need: nat, v: seq<Block>, m: Memory)
    requires Represents(mem, bs) && i < |bs| && Fits(bs[i], need) && Length(bs) == HEAP_SIZE
    requires Start(bs, i) + HEADER + need < |mem|
    requires m == AllocMem(mem, Start(bs, i), need) && Splits(bs[i].size, need)
    requires i + 1 < |v| && v[..i] == bs[..i] && v[i] == Block(need, true)
    ensures Start(v, i) == Start(bs, i) && Start(v, i + 1) == Start(bs, i) + HEADER + need
    ensures forall j :: 0 <= j <= i ==> Links(m, v, j)
  {
    assert At(mem, bs, i);
    StartNext(v, i);
    forall j | 0 <= j <= i
      ensures Links(m, v, j)
    {
      assert At(mem, bs, j) && v[..j] == bs[..j];
      if j < i {
        assert v[j] == v[..i][j] == bs[j];
        StartNext(v, j);
        StartNext(bs, j);
        StartOrder(bs, j, i);
      }
    }
  }

  /** A rest of 0 or 16 bytes makes the subtraction wrap around: the new header claims some four
      gigabytes, which no list of blocks in the heap contains. */
  lemma {:induction false} WrapBreaks(mem: Memory, bs: seq<Block>, i: nat, need: nat, cs: seq<Block>)
    requires Represents(mem, bs) && Wf(bs) && i < |bs| && Fits(bs[i], need) && need % 16 == 0
    requires bs[i].size - need < HEADER && Start(bs, i) + HEADER + need < |mem|
    ensures !(Represents(AllocMem(mem, Start(bs, i), need), cs) && Length(cs) == HEAP_SIZE)
  {
    var m, left := AllocMem(mem, Start(bs, i), need), bs[i].size - need;
    StartBelow(bs, i);
    assert At(mem, bs, i) && bs[i] in bs;
    WrapTest(left);
    assert left - 0 - HEADER == bs[i].size - need - HEADER;
    var v := bs[..i] + [Block(need, true), Block(0, false)];
    LinksToNew(mem, bs, i, need, v, m);
    if Represents(m, cs) && Length(cs) == HEAP_SIZE {
      Follow(m, v, cs, i + 1);
      StartBelow(cs, i + 1);
      assert false;
    }
  }

  /** What the code writes when it splits a block that has a successor. */
  lemma SplitWrites(mem: Memory, bs: seq<Block>, i: nat, need: nat)
    requires Represents(mem, bs) && Wf(bs) && i + 1 < |bs| && Fits(bs[i], need) && need % 16 == 0
    requires bs[i].size - need >= HEADER + 16 && Start(bs, i) + HEADER + need < |mem|
    ensures Splits(bs[i].size, need) && Start(bs, i + 1) < |mem|
    ensures var a, b, m := Start(bs, i), Start(bs, i + 1), AllocMem(mem, Start(bs, i), need);
      m[a + HEADER + need] == Header(bs[i].size - need - HEADER, false, b, a) && m[b].prev == a
  {
    StartBelow(bs, i);
    assert At(mem, bs, i) && At(mem, bs, i + 1) && bs[i] in bs;
    WrapTest(bs[i].size - need);
    assert bs[i].size - need - 0 - HEADER == bs[i].size - need - HEADER;
    NewHeaderApart(bs, i, need, i + 1);
    Apart2(bs, i, i + 1);
  }

  lemma SplitLinks(mem: Memory, bs: seq<Block>, i: nat, need: nat, v: seq<Block>, m: Memory)
    requires Represents(mem, bs) && Wf(bs) && i + 1 < |bs| && Fits(bs[i], need) && need % 16 == 0
    requires bs[i].size - need >= HEADER + 16 && Start(bs, i) + HEADER + need < |mem|
    requires v == AllocAt(bs, i, need) && m == AllocMem(mem, Start(bs, i), need)
    ensures i + 2 < |v| && forall j :: 0 <= j <= i + 1 ==> Links(m, v, j)
    ensures Start(v, i + 2) < |m| && m[Start(v, i + 2)].prev < Start(v, i + 1)
  {
    SplitWrites(mem, bs, i, need);
    LinksToNew(mem, bs, i, need, v, m);
    SplitStart(bs, i, need, i + 2);
    assert Links(m, v, i + 1);
  }

  /** A split of a block that has a successor leaves that successor pointing back past the new
      block. */
  lemma SplitBreaks(mem: Memory, bs: seq<Block>, i: nat, need: nat, cs: seq<Block>)
    requires Represents(mem, bs) && Wf(bs) && i + 1 < |bs| && Fits(bs[i], need) && need % 16 == 0
    requires bs[i].size - need >= HEADER + 16 && Start(bs, i) + HEADER + need < |mem|
    ensures !Represents(AllocMem(mem, Start(bs, i), need), cs)
  {
    var m, v := AllocMem(mem, Start(bs, i), need), AllocAt(bs, i, need);
    SplitLinks(mem, bs, i, need, v, m);
    if Represents(m, cs) {
      Follow(m, v, cs, i + 1);
      Follow(m, v, cs, i + 2);
      assert false;
    }
  }

  /** The exact condition: after mem_alloc has taken the block at i the headers describe a list of
      blocks that fill the heap if and only if the request was Safe, and then they describe the list
      that was intended. */
  lemma AllocKeepsHeap(mem: Memory, bs: seq<Block>, i: nat, need: nat)
    requires Represents(mem, bs) && Wf(bs) && i < |bs| && Fits(bs[i], need) && need > 0 && need % 16 == 0
    ensures Start(bs, i) + HEADER + need < |mem|
    ensures var m := AllocMem(mem, Start(bs, i), need);
      && (Safe(bs, i, need) <==> exists cs :: Wf(cs) && Represents(m, cs))
      && (Safe(bs, i, need) ==> Represents(m, AllocAt(bs, i, need)))
  {
    StartBelow(bs, i);
    assert bs[i] in bs;
    if Safe(bs, i, need) {
      SafeAgrees(mem, bs, i, need);
      RepairedRepresents(mem, bs, i, need);
      AllocKeeps(bs, i, need);
    } else {
      forall cs
        ensures !(Wf(cs) && Represents(AllocMem(mem, Start(bs, i), need), cs))
      {
        if bs[i].size - need < HEADER {
          WrapBreaks(mem, bs, i, need, cs);
        } else {
          SplitBreaks(mem, bs, i, need, cs);
        }
      }
    }
  }

  /** Two requests that break the heap: all the memory there is, right after mem_init, and 16 bytes
      out of a released block of 128 that has a successor. */
  lemma BrokenRequests(mem: Memory, after: Memory, bs: seq<Block>)
    requires Represents(mem, Initial())
    requires bs == [Block(128, false), Block(16, true), Block(HEAP_SIZE - 3 * HEADER - 144, false)]
    requires Represents(after, bs)
    ensures !exists cs :: Wf(cs) && Represents(AllocMem(mem, 0, HEAP_SIZE - HEADER), cs)
    ensures !exists cs :: Wf(cs) && Represents(AllocMem(after, 0, 16), cs)
  {
    InitialWf();
    AllocKeepsHeap(mem, Initial(), 0, HEAP_SIZE - HEADER);
    assert Length(bs) == HEAP_SIZE by {
      assert bs[1..] == [bs[1], bs[2]];
      TwoBlocks(bs[1], bs[2], 0);
      OneBlock(bs[1], 0);
      OneBlock(bs[2], 0);
    }
    assert Pair(bs, 0) && Pair(bs, 1);
    AllocKeepsHeap(after, bs, 0, 16);
  }

  // ----- what the code still gets right -----

  /** A request whose rest does not wrap around. */
  predicate NoWrap(bs: seq<Block>, i: nat, need: nat)
    requires i < |bs|
  {
    bs[i].size - need == HEADER || bs[i].size - need >= HEADER + 16
  }

  lemma WholeWalks(mem: Memory, bs: seq<Block>, i: nat, need: nat)
    requires Walks(mem, bs) && i < |bs| && Fits(bs[i], need) && bs[i].size - need < HEADER + 16
    ensures Start(bs, i) < |mem|
    ensures Walks(mem[Start(bs, i) := mem[Start(bs, i)].(used := true)], AllocAt(bs, i, need))
  {
    assert WalksAt(mem, bs, i);
    var r, m := bs[i := bs[i].(used := true)], mem[Start(bs, i) := mem[Start(bs, i)].(used := true)];
    assert AllocAt(bs, i, need) == r;
    forall k | 0 <= k < |r|
      ensures WalksAt(m, r, k)
    {
      assert WalksAt(mem, bs, k);
      UsedHeader(bs, i, true, k);
      UsedStart(bs, i, true, k);
      Apart2(bs, i, k);
    }
  }

  lemma SplitWalks(mem: Memory, bs: seq<Block>, i: nat, need: nat)
    requires Walks(mem, bs) && i < |bs| && Fits(bs[i], need) && bs[i].size - need >= HEADER + 16
    requires Start(bs, i) + HEADER + need < |mem| && Splits(bs[i].size, need) && bs[i].size < TWO_32
    ensures Walks(AllocMem(mem, Start(bs, i), need), AllocAt(bs, i, need))
  {
    assert WalksAt(mem, bs, i);
    var r, m := AllocAt(bs, i, need), AllocMem(mem, Start(bs, i), need);
    SplitStart(bs, i, need, 0);
    forall k | 0 <= k < |r|
      ensures WalksAt(m, r, k)
    {
      SplitStart(bs, i, need, k);
      SplitHeader(bs, i, need, k);
      if k == i + 1 {
        NewHeaderApart(bs, i, need, i);
      } else {
        var j := if k <= i then k else k - 1;
        assert WalksAt(mem, bs, j);
        NewHeaderApart(bs, i, need, j);
        Apart2(bs, i, j);
      }
    }
  }

  /** As long as no rest wraps around, the walk along next visits exactly the blocks that were intended,
      the old successor's wrong prev notwithstanding. */
  lemma AllocWalks(mem: Memory, bs: seq<Block>, i: nat, need: nat)
    requires Walks(mem, bs) && Wf(bs) && i < |bs| && Fits(bs[i], need) && need % 16 == 0 && NoWrap(bs, i, need)
    ensures Start(bs, i) + HEADER + need < |mem|
    ensures Walks(AllocMem(mem, Start(bs, i), need), AllocAt(bs, i, need))
  {
    StartBelow(bs, i);
    assert WalksAt(mem, bs, i) && bs[i] in bs;
    WrapTest(bs[i].size - need);
    assert bs[i].size - need - 0 - HEADER == bs[i].size - need - HEADER;
    if bs[i].size - need >= HEADER + 16 {
      SplitWalks(mem, bs, i, need);
    } else {
      WholeWalks(mem, bs, i, need);
    }
  }
}
