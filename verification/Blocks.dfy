/** The heap of kernel/memory.c as a list of blocks: what mem_alloc and mem_free are meant to do to
    it, and what follows from that. Module Heap proves how far the code does it. */
module Blocks {
  import opened Arithmetic

  const HEAP_SIZE: nat := 67108864
  const HEADER: nat := 32

  /** A header and the payload behind it; size is the payload's. */
  datatype Block = Block(size: nat, used: bool)

  // ----- measures of a list -----

  /** Bytes taken, headers included. */
  function Length(bs: seq<Block>): nat {
    if |bs| == 0 then 0 else HEADER + bs[0].size + Length(bs[1..])
  }

  /** The address of the i-th header. */
  function Start(bs: seq<Block>, i: nat): nat
    requires i <= |bs|
  {
    Length(bs[..i])
  }

  function FreeBytes(bs: seq<Block>): nat {
    if |bs| == 0 then 0 else (if bs[0].used then 0 else bs[0].size) + FreeBytes(bs[1..])
  }

  /** The payloads in use, as pairs of address and size, when the first header is at a. */
  function LiveFrom(bs: seq<Block>, a: nat): set<(nat, nat)> {
    if |bs| == 0 then {}
    else (if bs[0].used then {(a + HEADER, bs[0].size)} else {}) + LiveFrom(bs[1..], a + HEADER + bs[0].size)
  }

  function Live(bs: seq<Block>): set<(nat, nat)> {
    LiveFrom(bs, 0)
  }

  lemma {:induction false} Concat(x: seq<Block>, y: seq<Block>, a: nat)
    ensures Length(x + y) == Length(x) + Length(y)
    ensures FreeBytes(x + y) == FreeBytes(x) + FreeBytes(y)
    ensures LiveFrom(x + y, a) == LiveFrom(x, a) + LiveFrom(y, a + Length(x))
  {
    if |x| == 0 {
      assert x + y == y;
    } else {
      Concat(x[1..], y, a + HEADER + x[0].size);
      assert (x + y)[1..] == x[1..] + y;
    }
  }

  // ----- well-formed heaps -----

  predicate GoodBlock(b: Block) {
    b.size > 0 && b.size % 16 == 0
  }

  /** No two neighbours are both free. */
  ghost predicate Merged(bs: seq<Block>) {
    forall i :: 0 <= i < |bs| - 1 ==> Pair(bs, i)
  }

  predicate Pair(bs: seq<Block>, i: nat)
    requires i + 1 < |bs|
  {
    bs[i].used || bs[i + 1].used
  }

  /** The blocks tile the heap. */
  ghost predicate Wf(bs: seq<Block>) {
    && (forall b :: b in bs ==> GoodBlock(b))
    && Length(bs) == HEAP_SIZE
    && Merged(bs)
  }

  /** The block list after mem_init. */
  function Initial(): seq<Block> {
    [Block(HEAP_SIZE - HEADER, false)]
  }

  lemma InitialWf()
    ensures Wf(Initial()) && Live(Initial()) == {} && FreeBytes(Initial()) + HEADER == HEAP_SIZE
  {
    assert Initial()[1..] == [];
  }

  // ----- mem_alloc as intended -----

  /** ((size - 1) | 15) + 1 */
  function Rounded(size: int): (r: nat)
    requires size > 0
    ensures r >= size && r % 16 == 0 && r - size < 16
  {
    (size - 1) / 16 * 16 + 16
  }

  /** The same rounding on machine words. */
  lemma RoundedBits(x: bv32)
    requires 0 < x <= 0x400_0000
    ensures var r := ((x - 1) | 15) + 1; x <= r && r & 15 == 0 && r - x < 16
  {
  }

  predicate Fits(b: Block, need: nat) {
    !b.used && b.size >= need
  }

  /** The first block that fits, or the length of the list. */
  function FirstFit(bs: seq<Block>, need: nat): (i: nat)
    ensures i <= |bs| && (i < |bs| ==> Fits(bs[i], need))
    ensures forall j :: 0 <= j < i ==> !Fits(bs[j], need)
  {
    if |bs| == 0 then 0
    else if Fits(bs[0], need) then 0
    else
      var rest := FirstFit(bs[1..], need);
      1 + rest
  }

  /** Splitting leaves room for a header and at least 16 bytes; a smaller rest stays in the block. */
  function Carve(b: Block, need: nat): (r: seq<Block>)
    requires Fits(b, need)
  {
    if b.size - need >= HEADER + 16 then [Block(need, true), Block(b.size - need - HEADER, false)]
    else [Block(b.size, true)]
  }

  function AllocAt(bs: seq<Block>, i: nat, need: nat): seq<Block>
    requires i < |bs| && Fits(bs[i], need)
  {
    bs[..i] + Carve(bs[i], need) + bs[i + 1..]
  }

  // ----- mem_free -----

  /** Block i swallows block i + 1. */
  function MergeAt(bs: seq<Block>, i: nat): seq<Block>
    requires i + 1 < |bs|
  {
    bs[..i] + [Block(bs[i].size + HEADER + bs[i + 1].size, bs[i].used)] + bs[i + 2..]
  }

  function MergeForward(bs: seq<Block>, i: nat): (r: seq<Block>)
    requires i < |bs|
    ensures i < |r| <= |bs|
  {
    if i + 1 < |bs| && !bs[i + 1].used then MergeAt(bs, i) else bs
  }

  function MergeBackward(bs: seq<Block>, i: nat): seq<Block>
    requires i < |bs|
  {
    if i > 0 && !bs[i - 1].used then MergeAt(bs, i - 1) else bs
  }

  function FreeAt(bs: seq<Block>, i: nat): seq<Block>
    requires i < |bs|
  {
    MergeBackward(MergeForward(bs[i := bs[i].(used := false)], i), i)
  }

  // ----- what one operation does to the measures -----

  lemma {:induction false} ThreeParts(s: seq<Block>, x: seq<Block>, m: seq<Block>, y: seq<Block>)
    requires s == x + m + y
    ensures Length(s) == Length(x) + Length(m) + Length(y)
    ensures FreeBytes(s) == FreeBytes(x) + FreeBytes(m) + FreeBytes(y)
    ensures Live(s) == LiveFrom(x, 0) + LiveFrom(m, Length(x)) + LiveFrom(y, Length(x) + Length(m))
  {
    Concat(x, m, 0);
    Concat(x + m, y, 0);
  }

  /** Replacing a stretch m of the list s by a stretch of the same length. */
  ghost predicate Replaced(s: seq<Block>, s1: seq<Block>, x: seq<Block>, m: seq<Block>, m1: seq<Block>, y: seq<Block>) {
    s == x + m + y && s1 == x + m1 + y && Length(m) == Length(m1)
  }

  lemma ReplaceBytes(s: seq<Block>, s1: seq<Block>, x: seq<Block>, m: seq<Block>, m1: seq<Block>,
                                        y: seq<Block>)
    requires Replaced(s, s1, x, m, m1, y)
    ensures Length(s1) == Length(s) && FreeBytes(s1) - FreeBytes(s) == FreeBytes(m1) - FreeBytes(m)
  {
    ThreeParts(s, x, m, y);
    ThreeParts(s1, x, m1, y);
  }

  lemma InBetween(a: set<(nat, nat)>, b: set<(nat, nat)>, c: set<(nat, nat)>)
    ensures a + b + c == a + {} + c + b
  {
  }

  lemma ReplaceLive(s: seq<Block>, s1: seq<Block>, x: seq<Block>, m: seq<Block>, m1: seq<Block>,
                                       y: seq<Block>)
    requires Replaced(s, s1, x, m, m1, y)
    requires LiveFrom(m, Length(x)) == {}
    ensures Live(s1) == Live(s) + LiveFrom(m1, Length(x))
  {
    ThreeParts(s, x, m, y);
    ThreeParts(s1, x, m1, y);
    InBetween(LiveFrom(x, 0), LiveFrom(m1, Length(x)), LiveFrom(y, Length(x) + Length(m)));
  }

  lemma OneBlock(b: Block, a: nat)
    ensures Length([b]) == HEADER + b.size
    ensures FreeBytes([b]) == if b.used then 0 else b.size
    ensures LiveFrom([b], a) == if b.used then {(a + HEADER, b.size)} else {}
  {
    assert [b][1..] == [];
  }

  lemma TwoBlocks(b: Block, c: Block, a: nat)
    ensures Length([b, c]) == Length([b]) + Length([c])
    ensures FreeBytes([b, c]) == FreeBytes([b]) + FreeBytes([c])
    ensures LiveFrom([b, c], a) == LiveFrom([b], a) + LiveFrom([c], a + HEADER + b.size)
  {
    OneBlock(b, a);
    assert [b, c] == [b] + [c];
    Concat([b], [c], a);
  }

  lemma SplitAt(bs: seq<Block>, i: nat)
    requires i < |bs|
    ensures bs == bs[..i] + [bs[i]] + bs[i + 1..]
  {
  }

  lemma CarveMeasures(b: Block, need: nat, a: nat)
    requires Fits(b, need) && GoodBlock(b) && need > 0 && need % 16 == 0
    ensures var c := Carve(b, need);
      && Length(c) == Length([b])
      && FreeBytes([b]) - FreeBytes(c) == c[0].size + (if |c| == 2 then HEADER else 0)
      && LiveFrom([b], a) == {} && LiveFrom(c, a) == {(a + HEADER, c[0].size)}
      && c[0].size >= need && (forall x :: x in c ==> GoodBlock(x))
  {
    OneBlock(b, a);
    var c := Carve(b, need);
    if |c| == 2 {
      TwoBlocks(c[0], c[1], a);
      OneBlock(c[0], a);
      OneBlock(c[1], a + HEADER + c[0].size);
    } else {
      OneBlock(c[0], a);
    }
  }

  /** Allocation, with the split as intended, keeps the heap well formed, adds one live payload of at
      least the size asked for, leaves the others alone, and uses up what the counters say. */
  lemma AllocKeeps(bs: seq<Block>, i: nat, need: nat)
    requires Wf(bs) && i < |bs| && Fits(bs[i], need) && need > 0 && need % 16 == 0
    ensures var r, c := AllocAt(bs, i, need), Carve(bs[i], need);
      && Wf(r) && c[0].size >= need
      && Live(r) == Live(bs) + {(Start(bs, i) + HEADER, c[0].size)}
      && FreeBytes(r) == FreeBytes(bs) - c[0].size - (if |c| == 2 then HEADER else 0)
  {
    var x, y, c := bs[..i], bs[i + 1..], Carve(bs[i], need);
    SplitAt(bs, i);
    assert bs[i] in bs;
    CarveMeasures(bs[i], need, Length(x));
    ReplaceBytes(bs, AllocAt(bs, i, need), x, [bs[i]], c, y);
    ReplaceLive(bs, AllocAt(bs, i, need), x, [bs[i]], c, y);
    var r := AllocAt(bs, i, need);
    forall b | b in r
      ensures GoodBlock(b)
    {
      assert b in x || b in c || b in y;
    }
    AllocMerged(bs, i, need);
  }

  /** Both neighbours of a free block are in use, so the free rest of a split has none. */
  lemma AllocMerged(bs: seq<Block>, i: nat, need: nat)
    requires Merged(bs) && i < |bs| && Fits(bs[i], need)
    ensures Merged(AllocAt(bs, i, need))
  {
    var r, n := AllocAt(bs, i, need), |Carve(bs[i], need)|;
    forall j | 0 <= j < |r| - 1
      ensures Pair(r, j)
    {
      if j + 1 < i {
        assert r[j] == bs[j] && r[j + 1] == bs[j + 1] && Pair(bs, j);
      } else if j >= i + n {
        assert r[j] == bs[j - n + 1] && r[j + 1] == bs[j - n + 2] && Pair(bs, j - n + 1);
      } else if j == i + n - 1 {
        assert r[j + 1] == bs[i + 1] && Pair(bs, i);
      }
    }
  }

  lemma MergeMeasures(b: Block, c: Block, a: nat)
    requires !b.used && !c.used
    ensures var m := Block(b.size + HEADER + c.size, false);
      Length([m]) == Length([b, c]) && FreeBytes([m]) == FreeBytes([b, c]) + HEADER &&
      LiveFrom([m], a) == LiveFrom([b, c], a) == {}
  {
    TwoBlocks(b, c, a);
    OneBlock(b, a);
    OneBlock(c, a + HEADER + b.size);
    OneBlock(Block(b.size + HEADER + c.size, false), a);
  }

  /** Merging two free neighbours changes the free bytes by the header it saves and nothing else. */
  lemma MergeKeeps(bs: seq<Block>, i: nat)
    requires i + 1 < |bs| && !bs[i].used && !bs[i + 1].used
    requires forall b :: b in bs ==> GoodBlock(b)
    ensures var r := MergeAt(bs, i);
      && Length(r) == Length(bs) && FreeBytes(r) == FreeBytes(bs) + HEADER && Live(r) == Live(bs)
      && (forall b :: b in r ==> GoodBlock(b))
  {
    var x, y := bs[..i], bs[i + 2..];
    var two, one := [bs[i], bs[i + 1]], [Block(bs[i].size + HEADER + bs[i + 1].size, false)];
    assert bs == x + two + y;
    MergeMeasures(bs[i], bs[i + 1], Length(x));
    ReplaceBytes(bs, MergeAt(bs, i), x, two, one, y);
    ReplaceLive(bs, MergeAt(bs, i), x, two, one, y);
    MergeGood(bs, i);
  }

  lemma MergedGood(b: Block, c: Block)
    requires GoodBlock(b) && GoodBlock(c)
    ensures GoodBlock(Block(b.size + HEADER + c.size, b.used))
  {
  }

  lemma MergeGood(bs: seq<Block>, i: nat)
    requires i + 1 < |bs| && forall b :: b in bs ==> GoodBlock(b)
    ensures forall b :: b in MergeAt(bs, i) ==> GoodBlock(b)
  {
    var r := MergeAt(bs, i);
    assert bs[i] in bs && bs[i + 1] in bs;
    MergedGood(bs[i], bs[i + 1]);
    forall k | 0 <= k < |r|
      ensures GoodBlock(r[k])
    {
      if k != i {
        MergeShape(bs, i);
        assert r[k] in bs;
      }
    }
  }

  lemma MergeShape(bs: seq<Block>, i: nat)
    requires i + 1 < |bs|
    ensures var r := MergeAt(bs, i);
      |r| == |bs| - 1 && r[i].used == bs[i].used &&
      forall j :: 0 <= j < |r| && j != i ==> r[j] == bs[if j < i then j else j + 1]
  {
  }

  lemma ReleaseKeeps(bs: seq<Block>, i: nat)
    requires i < |bs| && bs[i].used
    ensures var r := bs[i := bs[i].(used := false)];
      && Length(r) == Length(bs) && FreeBytes(r) == FreeBytes(bs) + bs[i].size
      && Live(r) == LiveFrom(bs[..i], 0) + LiveFrom(bs[i + 1..], Start(bs, i) + HEADER + bs[i].size)
      && Live(bs) == Live(r) + {(Start(bs, i) + HEADER, bs[i].size)}
  {
    var x, y, b := bs[..i], bs[i + 1..], bs[i];
    var f := b.(used := false);
    SplitAt(bs, i);
    assert bs[i := f] == x + [f] + y;
    OneBlock(b, Length(x));
    OneBlock(f, Length(x));
    ThreeParts(bs, x, [b], y);
    ThreeParts(bs[i := f], x, [f], y);
  }

  /** The headers that mem_free saves by merging. */
  function Merges(bs: seq<Block>, i: nat): nat
    requires i < |bs|
  {
    (if i + 1 < |bs| && !bs[i + 1].used then 1 else 0) + (if i > 0 && !bs[i - 1].used then 1 else 0)
  }

  /** Freeing keeps the heap well formed and takes away exactly the payload freed. */
  lemma {:induction false} FreeKeeps(bs: seq<Block>, i: nat)
    requires Wf(bs) && i < |bs| && bs[i].used
    ensures var r := FreeAt(bs, i);
      && Wf(r)
      && Live(r) == Live(bs) - {(Start(bs, i) + HEADER, bs[i].size)}
      && FreeBytes(r) == FreeBytes(bs) + bs[i].size + HEADER * Merges(bs, i)
  {
    assert bs[i] in bs;
    ReleaseKeeps(bs, i);
    var b1 := bs[i := bs[i].(used := false)];
    forall b | b in b1
      ensures GoodBlock(b)
    {
      assert b in bs || b == bs[i].(used := false);
    }
    var b2 := MergeForward(b1, i);
    if i + 1 < |b1| && !b1[i + 1].used {
      MergeKeeps(b1, i);
    }
    assert i > 0 ==> b2[i - 1] == b1[i - 1] == bs[i - 1];
    assert b2[i].used == b1[i].used;
    if i > 0 && !b2[i - 1].used {
      MergeKeeps(b2, i - 1);
    }
    FreeMerged(bs, i);
    FreedWasLive(bs, i);
  }

  /** No two free neighbours, except perhaps around position i. */
  ghost predicate MergedBut(bs: seq<Block>, i: nat) {
    forall j :: 0 <= j < |bs| - 1 && j != i && j + 1 != i ==> Pair(bs, j)
  }

  lemma ForwardMerged(bs: seq<Block>, i: nat)
    requires MergedBut(bs, i) && i < |bs| && !bs[i].used
    ensures var r := MergeForward(bs, i);
      MergedBut(r, i) && !r[i].used && (i + 1 < |r| ==> r[i + 1].used) && r[..i] == bs[..i]
  {
    if i + 1 < |bs| && !bs[i + 1].used {
      MergeShape(bs, i);
      var r := MergeAt(bs, i);
      assert i + 2 < |bs| ==> Pair(bs, i + 1);
      forall j | 0 <= j < |r| - 1 && j != i && j + 1 != i
        ensures Pair(r, j)
      {
        assert Pair(bs, if j < i then j else j + 1);
      }
    }
  }

  lemma BackwardMerged(bs: seq<Block>, i: nat)
    requires MergedBut(bs, i) && i < |bs| && !bs[i].used && (i + 1 < |bs| ==> bs[i + 1].used)
    ensures Merged(MergeBackward(bs, i))
  {
    var r := MergeBackward(bs, i);
    if i > 0 && !bs[i - 1].used {
      MergeShape(bs, i - 1);
      assert i >= 2 ==> Pair(bs, i - 2);
      forall j | 0 <= j < |r| - 1
        ensures Pair(r, j)
      {
        if j + 1 < i - 1 || j > i - 1 {
          assert Pair(bs, if j < i - 1 then j else j + 1);
        }
      }
    } else {
      forall j | 0 <= j < |r| - 1
        ensures Pair(r, j)
      {
        if j != i && j + 1 != i {
          assert Pair(bs, j);
        }
      }
    }
  }

  lemma FreeMerged(bs: seq<Block>, i: nat)
    requires Merged(bs) && i < |bs|
    ensures Merged(FreeAt(bs, i))
  {
    var b1 := bs[i := bs[i].(used := false)];
    forall j | 0 <= j < |b1| - 1 && j != i && j + 1 != i
      ensures Pair(b1, j)
    {
      assert Pair(bs, j);
    }
    ForwardMerged(b1, i);
    BackwardMerged(MergeForward(b1, i), i);
  }

  // ----- live payloads -----

  /** Live payloads start on 16-byte boundaries inside the stretch they come from. */
  lemma {:induction false} LiveInside(bs: seq<Block>, a: nat, p: nat, n: nat)
    requires (forall b :: b in bs ==> GoodBlock(b)) && a % 16 == 0 && (p, n) in LiveFrom(bs, a)
    ensures a + HEADER <= p && p + n <= a + Length(bs) && p % 16 == 0 && n > 0
    decreases |bs|
  {
    assert bs[0] in bs;
    if (p, n) != (a + HEADER, bs[0].size) || !bs[0].used {
      forall b | b in bs[1..]
        ensures GoodBlock(b)
      {
        assert b in bs;
      }
      LiveInside(bs[1..], a + HEADER + bs[0].size, p, n);
    }
  }

  /** Two different live payloads do not overlap; there is a header between them. */
  lemma {:induction false} LiveDisjoint(bs: seq<Block>, a: nat, p: nat, n: nat, q: nat, m: nat)
    requires (forall b :: b in bs ==> GoodBlock(b)) && a % 16 == 0
    requires (p, n) in LiveFrom(bs, a) && (q, m) in LiveFrom(bs, a)
    ensures (p, n) == (q, m) || p + n + HEADER <= q || q + m + HEADER <= p
    decreases |bs|
  {
    assert bs[0] in bs;
    var b := a + HEADER + bs[0].size;
    forall c | c in bs[1..]
      ensures GoodBlock(c)
    {
      assert c in bs;
    }
    if (p, n) in LiveFrom(bs[1..], b) {
      LiveInside(bs[1..], b, p, n);
    }
    if (q, m) in LiveFrom(bs[1..], b) {
      LiveInside(bs[1..], b, q, m);
    }
    if (p, n) in LiveFrom(bs[1..], b) && (q, m) in LiveFrom(bs[1..], b) {
      LiveDisjoint(bs[1..], b, p, n, q, m);
    }
  }

  /** An address belongs to at most one live payload. */
  lemma LiveUnique(bs: seq<Block>, p: nat, n: nat, m: nat)
    requires Wf(bs) && (p, n) in Live(bs) && (p, m) in Live(bs)
    ensures n == m
  {
    LiveInside(bs, 0, p, n);
    LiveInside(bs, 0, p, m);
    LiveDisjoint(bs, 0, p, n, p, m);
  }

  lemma FreedWasLive(bs: seq<Block>, i: nat)
    requires Wf(bs) && i < |bs| && bs[i].used
    ensures (Start(bs, i) + HEADER, bs[i].size) !in Live(bs[i := bs[i].(used := false)])
  {
    var x, y, p, n := bs[..i], bs[i + 1..], Start(bs, i) + HEADER, bs[i].size;
    ReleaseKeeps(bs, i);
    StartAligned(bs, i);
    forall b | b in x
      ensures GoodBlock(b)
    {
      assert b in bs;
    }
    forall b | b in y
      ensures GoodBlock(b)
    {
      assert b in bs;
    }
    assert bs[i] in bs;
    if (p, n) in LiveFrom(x, 0) {
      LiveInside(x, 0, p, n);
    }
    if (p, n) in LiveFrom(y, p + n) {
      LiveInside(y, p + n, p, n);
    }
  }

  lemma {:induction false} LengthAligned(bs: seq<Block>)
    requires forall b :: b in bs ==> GoodBlock(b)
    ensures Length(bs) % 16 == 0
  {
    if |bs| > 0 {
      assert bs[0] in bs;
      forall b | b in bs[1..]
        ensures GoodBlock(b)
      {
        assert b in bs;
      }
      LengthAligned(bs[1..]);
    }
  }

  lemma StartAligned(bs: seq<Block>, i: nat)
    requires (forall b :: b in bs ==> GoodBlock(b)) && i <= |bs|
    ensures Start(bs, i) % 16 == 0
  {
    forall b | b in bs[..i]
      ensures GoodBlock(b)
    {
      assert b in bs;
    }
    LengthAligned(bs[..i]);
  }

  // ----- addresses -----

  lemma StartNext(bs: seq<Block>, i: nat)
    requires i < |bs|
    ensures Start(bs, i + 1) == Start(bs, i) + HEADER + bs[i].size
  {
    assert bs[..i + 1] == bs[..i] + [bs[i]];
    Concat(bs[..i], [bs[i]], 0);
    OneBlock(bs[i], 0);
  }

  lemma {:induction false} StartOrder(bs: seq<Block>, i: nat, j: nat)
    requires i < j <= |bs|
    ensures Start(bs, i) + HEADER <= Start(bs, j)
    decreases j
  {
    StartNext(bs, j - 1);
    if i < j - 1 {
      StartOrder(bs, i, j - 1);
    }
  }

  lemma StartBelow(bs: seq<Block>, i: nat)
    requires i < |bs| && Length(bs) == HEAP_SIZE
    ensures Start(bs, i) + HEADER + bs[i].size <= HEAP_SIZE
  {
    StartNext(bs, i);
    assert bs[..|bs|] == bs;
    if i + 1 < |bs| {
      StartOrder(bs, i + 1, |bs|);
    }
  }

  /** The live payloads are those behind the headers of the blocks in use. */
  lemma LiveAt(bs: seq<Block>, i: nat)
    requires i < |bs|
    ensures bs[i].used ==> (Start(bs, i) + HEADER, bs[i].size) in Live(bs)
  {
    if bs[i].used {
      ReleaseKeeps(bs, i);
    }
  }

  lemma {:induction false} LiveIndex(bs: seq<Block>, a: nat, p: nat, n: nat) returns (i: nat)
    requires (p, n) in LiveFrom(bs, a)
    ensures i < |bs| && bs[i].used && p == a + Start(bs, i) + HEADER && n == bs[i].size
    decreases |bs|
  {
    if bs[0].used && (p, n) == (a + HEADER, bs[0].size) {
      i := 0;
    } else {
      i := LiveIndex(bs[1..], a + HEADER + bs[0].size, p, n);
      assert bs[..i + 1] == [bs[0]] + bs[1..][..i];
      Concat([bs[0]], bs[1..][..i], 0);
      OneBlock(bs[0], 0);
      i := i + 1;
    }
  }

  // ----- accounting -----

  /** The early exits of mem_alloc and mem_free: the counter available_bytes, which is the free bytes
      plus one header, never keeps a satisfiable request or a live pointer out. */
  lemma {:induction false} FitIsCounted(bs: seq<Block>, i: nat)
    requires i < |bs| && !bs[i].used
    ensures bs[i].size <= FreeBytes(bs)
    decreases |bs|
  {
    if i > 0 {
      FitIsCounted(bs[1..], i - 1);
    }
  }

  lemma {:induction false} UsedIsNotFree(bs: seq<Block>, i: nat)
    requires i < |bs| && bs[i].used
    ensures FreeBytes(bs) + HEADER + bs[i].size <= Length(bs)
    decreases |bs|
  {
    FreeAtMostLength(bs[1..]);
    if i > 0 {
      UsedIsNotFree(bs[1..], i - 1);
    }
  }

  lemma {:induction false} FreeAtMostLength(bs: seq<Block>)
    ensures FreeBytes(bs) <= Length(bs)
    decreases |bs|
  {
    if |bs| > 0 {
      FreeAtMostLength(bs[1..]);
    }
  }

  // ----- undoing -----

  /** mem_free right after mem_alloc, with the split as intended, restores the block list exactly: the
      rest of the split is merged back, and the block before, which is in use, is not. */
  lemma FreeUndoesAlloc(bs: seq<Block>, i: nat, need: nat)
    requires Wf(bs) && i < |bs| && Fits(bs[i], need)
    ensures i < |AllocAt(bs, i, need)| && FreeAt(AllocAt(bs, i, need), i) == bs
  {
    var r, c := AllocAt(bs, i, need), Carve(bs[i], need);
    var b1 := r[i := r[i].(used := false)];
    assert r[i] == c[0];
    assert i > 0 ==> Pair(bs, i - 1) && r[i - 1] == bs[i - 1];
    if |c| == 2 {
      assert b1[i + 1] == c[1] && b1[..i] == bs[..i] && b1[i + 2..] == bs[i + 1..];
      SplitAt(bs, i);
      assert MergeAt(b1, i) == bs;
    } else {
      assert i + 1 < |bs| ==> Pair(bs, i) && r[i + 1] == bs[i + 1];
      assert b1 == bs;
    }
  }

  /** A heap in which nothing is in use is the single block that mem_init made. */
  lemma NothingUsed(bs: seq<Block>)
    requires Wf(bs) && Live(bs) == {}
    ensures bs == Initial()
  {
    forall i | 0 <= i < |bs|
      ensures !bs[i].used
    {
      LiveAt(bs, i);
    }
    assert |bs| > 1 ==> Pair(bs, 0);
    assert bs != [];
    assert bs == [bs[0]];
    OneBlock(bs[0], 0);
  }

  /** Index of the block in use whose payload starts at p. */
  ghost predicate IsLive(bs: seq<Block>, p: int) {
    exists n :: p >= 0 && (p, n) in Live(bs)
  }

  function IndexOfLive(bs: seq<Block>, p: int, a: nat): (i: nat)
    ensures i <= |bs|
  {
    if |bs| == 0 then 0
    else if bs[0].used && p == a + HEADER then 0
    else
      var rest := IndexOfLive(bs[1..], p, a + HEADER + bs[0].size);
      1 + rest
  }

  lemma {:induction false} IndexOfLiveExact(bs: seq<Block>, p: int, a: nat)
    ensures var i := IndexOfLive(bs, p, a);
      i < |bs| ==> bs[i].used && p == a + Start(bs, i) + HEADER
    ensures IndexOfLive(bs, p, a) == |bs| <==> forall n: nat :: p < 0 || (p, n) !in LiveFrom(bs, a)
    decreases |bs|
  {
    if |bs| > 0 && !(bs[0].used && p == a + HEADER) {
      var b := a + HEADER + bs[0].size;
      IndexOfLiveExact(bs[1..], p, b);
      var i := IndexOfLive(bs[1..], p, b);
      assert bs[..i + 1] == [bs[0]] + bs[1..][..i];
      Concat([bs[0]], bs[1..][..i], 0);
      OneBlock(bs[0], 0);
    } else if |bs| > 0 {
      assert (p, bs[0].size) in LiveFrom(bs, a);
    }
  }
}
