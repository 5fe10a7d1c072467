/** mem_alloc, with the two repairs, and mem_free as calls on the block list, with their ways to fail,
    and what holds over whole runs of them. Module HeapRuns proves how far the code follows. */
module Allocation {
  import opened Blocks

  /** A pointer is an offset into the heap; no payload starts at NULL. */
  const NULL: int := -1

  function AllocCall(bs: seq<Block>, size: int): (seq<Block>, int) {
    if size <= 0 || FreeBytes(bs) + HEADER < size then (bs, NULL)
    else
      var i := FirstFit(bs, Rounded(size));
      if i == |bs| then (bs, NULL) else (AllocAt(bs, i, Rounded(size)), Start(bs, i) + HEADER)
  }

  function FreeCall(bs: seq<Block>, ptr: int): (seq<Block>, bool) {
    if FreeBytes(bs) + HEADER >= HEAP_SIZE || ptr == NULL then (bs, false)
    else
      var i := IndexOfLive(bs, ptr, 0);
      if i == |bs| then (bs, false) else (FreeAt(bs, i), true)
  }

  // ----- allocation -----

  /** A request fails exactly when no free block holds the rounded size: the early exit on the
      counter never turns away a request that could be met. */
  lemma AllocFails(bs: seq<Block>, size: int)
    requires size > 0
    ensures AllocCall(bs, size).1 == NULL <==> forall j :: 0 <= j < |bs| ==> !Fits(bs[j], Rounded(size))
  {
    forall j | 0 <= j < |bs| && Fits(bs[j], Rounded(size))
      ensures size <= FreeBytes(bs)
    {
      FitIsCounted(bs, j);
    }
  }

  /** Otherwise the payload is the one behind the lowest header that fits. */
  lemma AllocTakesLowest(bs: seq<Block>, size: int) returns (i: nat)
    requires AllocCall(bs, size).1 != NULL
    ensures size > 0 && i < |bs| && Fits(bs[i], Rounded(size))
    ensures AllocCall(bs, size) == (AllocAt(bs, i, Rounded(size)), Start(bs, i) + HEADER)
    ensures forall j :: 0 <= j < i ==> !Fits(bs[j], Rounded(size))
  {
    i := FirstFit(bs, Rounded(size));
  }

  /** What two payloads of a heap must not do. */
  predicate Apart(p: int, n: int, q: int, m: int) {
    p + n <= q || q + m <= p
  }

  /** With the two repairs a successful call hands out an aligned stretch of n >= size bytes inside the heap that touches
      no live payload, and adds it to the live ones. */
  lemma AllocGives(bs: seq<Block>, size: int) returns (p: nat, n: nat)
    requires Wf(bs) && AllocCall(bs, size).1 != NULL
    ensures AllocCall(bs, size).1 == p && n >= size && p % 16 == 0 && p + n <= HEAP_SIZE
    ensures Wf(AllocCall(bs, size).0) && Live(AllocCall(bs, size).0) == Live(bs) + {(p, n)}
    ensures forall q, m :: (q, m) in Live(bs) ==> q != p && Apart(p, n, q, m)
  {
    var i := AllocTakesLowest(bs, size);
    var r := AllocCall(bs, size).0;
    AllocKeeps(bs, i, Rounded(size));
    AllocStart(bs, i, Rounded(size));
    p, n := Start(bs, i) + HEADER, Carve(bs[i], Rounded(size))[0].size;
    LiveInside(r, 0, p, n);
    FreeUndoesAlloc(bs, i, Rounded(size));
    FreeKeeps(r, i);
    forall q, m | (q, m) in Live(bs)
      ensures q != p && Apart(p, n, q, m)
    {
      LiveDisjoint(r, 0, p, n, q, m);
      LiveInside(r, 0, q, m);
    }
  }

  lemma AllocStart(bs: seq<Block>, i: nat, need: nat)
    requires i < |bs| && Fits(bs[i], need)
    ensures var r := AllocAt(bs, i, need);
      i < |r| && r[i] == Carve(bs[i], need)[0] && r[i].used && Start(r, i) == Start(bs, i)
  {
    assert AllocAt(bs, i, need)[..i] == bs[..i];
  }

  // ----- release -----

  /** A pointer is taken back exactly when it is a live payload; the early exit on the counter never
      turns away a live pointer. */
  lemma FreeSucceeds(bs: seq<Block>, ptr: int)
    requires Wf(bs)
    ensures FreeCall(bs, ptr).1 <==> IsLive(bs, ptr)
  {
    IndexOfLiveExact(bs, ptr, 0);
    var i := IndexOfLive(bs, ptr, 0);
    if i < |bs| {
      UsedIsNotFree(bs, i);
      LiveAt(bs, i);
      assert bs[i] in bs;
    }
  }

  /** It then disappears from the live payloads, and the others stay. */
  lemma FreeTakes(bs: seq<Block>, ptr: int)
    requires Wf(bs)
    ensures Wf(FreeCall(bs, ptr).0)
    ensures forall q, m :: (q, m) in Live(FreeCall(bs, ptr).0) <==> (q, m) in Live(bs) && q != ptr
  {
    FreeSucceeds(bs, ptr);
    var i := IndexOfLive(bs, ptr, 0);
    if FreeCall(bs, ptr).1 {
      IndexOfLiveExact(bs, ptr, 0);
      FreeKeeps(bs, i);
      LiveAt(bs, i);
      forall m: nat | (ptr, m) in Live(bs)
        ensures m == bs[i].size
      {
        LiveUnique(bs, ptr, bs[i].size, m);
      }
    }
  }

  lemma SameStart(bs: seq<Block>, i: nat, j: nat)
    requires i < |bs| && j < |bs| && Start(bs, i) == Start(bs, j)
    ensures i == j
  {
    if i < j {
      StartOrder(bs, i, j);
    } else if j < i {
      StartOrder(bs, j, i);
    }
  }

  /** Releasing what was just allocated brings back exactly the block list there was, with the two
      repairs. */
  lemma FreeRestores(bs: seq<Block>, size: int)
    requires Wf(bs) && AllocCall(bs, size).1 != NULL
    ensures FreeCall(AllocCall(bs, size).0, AllocCall(bs, size).1) == (bs, true)
  {
    var (r, p) := AllocCall(bs, size);
    var i := AllocTakesLowest(bs, size);
    AllocKeeps(bs, i, Rounded(size));
    AllocStart(bs, i, Rounded(size));
    LiveAt(r, i);
    FreeSucceeds(r, p);
    IndexOfLiveExact(r, p, 0);
    SameStart(r, i, IndexOfLive(r, p, 0));
    FreeUndoesAlloc(bs, i, Rounded(size));
  }

  function FreeAll(bs: seq<Block>, order: seq<int>): seq<Block>
    decreases |order|
  {
    if |order| == 0 then bs else FreeAll(FreeCall(bs, order[0]).0, order[1..])
  }

  predicate NoRepeats(s: seq<int>) {
    forall i, j :: 0 <= i < j < |s| ==> s[i] != s[j]
  }

  /** Releasing all live payloads, in whatever order, leaves the one block that mem_init made. */
  lemma {:induction false} FreeAllRestores(bs: seq<Block>, order: seq<int>)
    requires Wf(bs) && NoRepeats(order) && forall p :: p in order <==> IsLive(bs, p)
    ensures FreeAll(bs, order) == Initial()
    decreases |order|
  {
    if |order| == 0 {
      if x :| x in Live(bs) {
        assert (x.0, x.1) in Live(bs) && IsLive(bs, x.0);
        assert false;
      }
      NothingUsed(bs);
    } else {
      var p, rest, r := order[0], order[1..], FreeCall(bs, order[0]).0;
      FreeTakes(bs, p);
      assert forall k :: 0 <= k < |rest| ==> rest[k] == order[k + 1];
      forall q
        ensures q in rest <==> IsLive(r, q)
      {
        LiveOthers(bs, p, q);
        assert order == [p] + rest;
      }
      FreeAllRestores(r, rest);
    }
  }

  lemma LiveOthers(bs: seq<Block>, ptr: int, q: int)
    requires Wf(bs)
    ensures IsLive(FreeCall(bs, ptr).0, q) <==> IsLive(bs, q) && q != ptr
  {
    FreeTakes(bs, ptr);
    if IsLive(bs, q) && q != ptr {
      var m :| (q, m) in Live(bs);
      assert (q, m) in Live(FreeCall(bs, ptr).0);
    }
  }

  /** The walk of mem_free finds the block in use whose payload starts at ptr, if there is one. */
  lemma FoundIsLive(bs: seq<Block>, ptr: int, i: nat)
    requires Wf(bs) && i <= |bs|
    requires i < |bs| ==> Start(bs, i) == ptr - HEADER
    requires i == |bs| ==> forall j :: 0 <= j < |bs| ==> Start(bs, j) != ptr - HEADER
    ensures IndexOfLive(bs, ptr, 0) == if i < |bs| && bs[i].used then i else |bs|
  {
    IndexOfLiveExact(bs, ptr, 0);
    var k := IndexOfLive(bs, ptr, 0);
    if k < |bs| && i < |bs| {
      SameStart(bs, i, k);
    } else if i < |bs| && bs[i].used {
      LiveAt(bs, i);
    }
  }

  // ----- runs -----

  datatype Call = Alloc(size: int) | Free(ptr: int)

  /** The heap and what its users know: for each pointer they hold, the size they asked for. */
  datatype World = World(bs: seq<Block>, held: map<int, int>)

  function Step(w: World, c: Call): World {
    match c
    case Alloc(size) =>
      var (bs, p) := AllocCall(w.bs, size);
      World(bs, if p == NULL then w.held else w.held[p := size])
    case Free(ptr) =>
      var (bs, ok) := FreeCall(w.bs, ptr);
      World(bs, if ok then w.held - {ptr} else w.held)
  }

  function Run(w: World, calls: seq<Call>): World
    decreases |calls|
  {
    if |calls| == 0 then w else Run(Step(w, calls[0]), calls[1..])
  }

  /** The pointers held are the live payloads, each as large as was asked for. */
  ghost predicate Sound(w: World) {
    && Wf(w.bs)
    && (forall p :: p in w.held ==> IsLive(w.bs, p))
    && (forall p, n :: (p, n) in Live(w.bs) ==> p in w.held && w.held[p] <= n)
  }

  lemma StepSound(w: World, c: Call)
    requires Sound(w)
    ensures Sound(Step(w, c))
  {
    var s := Step(w, c);
    match c
    case Alloc(size) =>
      if AllocCall(w.bs, size).1 != NULL {
        var p, n := AllocGives(w.bs, size);
        assert (p, n) in Live(s.bs);
        forall q | q in s.held
          ensures IsLive(s.bs, q)
        {
          if q != p {
            var m :| (q, m) in Live(w.bs);
            assert (q, m) in Live(s.bs);
          }
        }
      }
    case Free(ptr) =>
      FreeTakes(w.bs, ptr);
      FreeSucceeds(w.bs, ptr);
      forall q | q in s.held
        ensures IsLive(s.bs, q)
      {
        LiveOthers(w.bs, ptr, q);
      }
  }

  /** With the two repairs, whatever calls are made from mem_init on, the heap stays well formed and the
      stretches its users hold are aligned, inside the heap, at least as large as asked for, and never
      overlap. HeapRuns.RunSaneIff says for which runs this is so of the code. */
  lemma {:induction false} EveryRunSound(w: World, calls: seq<Call>)
    requires Sound(w)
    ensures Sound(Run(w, calls))
    decreases |calls|
  {
    if |calls| > 0 {
      StepSound(w, calls[0]);
      EveryRunSound(Step(w, calls[0]), calls[1..]);
    }
  }

  /** The same from mem_init, seen by the users; with the two repairs. */
  lemma RunFromInit(calls: seq<Call>, p: int, q: int)
    ensures var w := Run(World(Initial(), map[]), calls);
      Sound(w) &&
      (p in w.held ==> HEADER <= p && p + w.held[p] <= HEAP_SIZE && p % 16 == 0) &&
      (p in w.held && q in w.held && p != q ==> Apart(p, w.held[p], q, w.held[q]))
  {
    var w := Run(World(Initial(), map[]), calls);
    InitialWf();
    EveryRunSound(World(Initial(), map[]), calls);
    if p in w.held {
      var n :| (p, n) in Live(w.bs);
      LiveInside(w.bs, 0, p, n);
      if q in w.held && p != q {
        var m :| (q, m) in Live(w.bs);
        LiveDisjoint(w.bs, 0, p, n, q, m);
      }
    }
  }
}
