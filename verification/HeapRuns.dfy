/** mem_alloc and mem_free of kernel/memory.c as the code stands, on headers and counters alone, and what
    holds over runs of them. Module Allocation has the same runs with the two repairs. */
module HeapRuns {
  import opened Blocks
  import opened Allocation
  import opened HeapMemory

  datatype Store = Store(mem: Memory, available: int, taken: int)

  /** After mem_init. */
  function InitStore(): Store {
    Store(seq(HEAP_SIZE + 1, a => Header(if a == 0 then HEAP_SIZE - HEADER else 0, false, NULL, NULL)), HEAP_SIZE, 0)
  }

  /** The headers follow the block list, and the counters count it. */
  ghost predicate Tracks(st: Store, bs: seq<Block>) {
    Represents(st.mem, bs) && st.available == FreeBytes(bs) + HEADER && st.taken == HEAP_SIZE - st.available
  }

  /** The store describes some well-formed heap. */
  ghost predicate Sane(st: Store) {
    exists bs :: Wf(bs) && Tracks(st, bs)
  }

  predicate Addr(mem: Memory, p: int) {
    0 <= p < |mem|
  }

  // ----- the two calls -----

  /** The search of mem_alloc, which ends at NULL or where the memory of the model ends. A heap has
      fewer headers than addresses, so fuel for each address is enough. */
  function WalkToFit(mem: Memory, current: int, need: nat, fuel: nat): (a: int)
    ensures a == NULL || Addr(mem, a)
    decreases fuel
  {
    if fuel == 0 || !Addr(mem, current) then NULL
    else if !mem[current].used && mem[current].size >= need then current
    else WalkToFit(mem, mem[current].next, need, fuel - 1)
  }

  /** The search of mem_free. */
  function WalkTo(mem: Memory, current: int, target: int, fuel: nat): (a: int)
    ensures a == NULL || (a == target && Addr(mem, a))
    decreases fuel
  {
    if fuel == 0 || !Addr(mem, current) then NULL
    else if current == target then current
    else WalkTo(mem, mem[current].next, target, fuel - 1)
  }

  /** The writes of mem_alloc; a new header beyond the memory of the model is not kept. */
  function TakeMem(mem: Memory, a: nat, need: nat): Memory
    requires a < |mem|
  {
    if a + HEADER + need < |mem| then AllocMem(mem, a, need)
    else if Splits(mem[a].size, need) then mem[a := Header(need, true, a + HEADER + need, mem[a].prev)]
    else mem[a := mem[a].(used := true)]
  }

  function AllocStore(st: Store, size: int): (Store, int) {
    if size <= 0 || st.available < size then (st, NULL)
    else
      var need, a := Rounded(size), WalkToFit(st.mem, 0, Rounded(size), |st.mem|);
      if a == NULL then (st, NULL)
      else
        var charge := Charge(st.mem[a].size, need);
        (Store(TakeMem(st.mem, a, need), st.available - charge, st.taken + charge), a + HEADER)
  }

  predicate IsFree(mem: Memory, p: int) {
    Addr(mem, p) && !mem[p].used
  }

  predicate JoinsNext(mem: Memory, a: nat)
    requires a < |mem|
  {
    var n := mem[a].next;
    IsFree(mem, n) && mem[n].next < |mem|
  }

  /** One block swallows the next, and a header becomes available. */
  function JoinStore(st: Store, a: nat, b: nat): (r: Store)
    requires a < |st.mem| && b < |st.mem| && st.mem[b].next < |st.mem|
    ensures |r.mem| == |st.mem|
  {
    Store(MergeMem(st.mem, a, b), st.available + HEADER, st.taken - HEADER)
  }

  /** The forward merge of mem_free. */
  function JoinForward(st: Store, a: nat): (r: Store)
    requires a < |st.mem|
    ensures |r.mem| == |st.mem|
  {
    if JoinsNext(st.mem, a) then JoinStore(st, a, st.mem[a].next) else st
  }

  predicate JoinsPrevious(mem: Memory, a: nat)
    requires a < |mem|
  {
    IsFree(mem, mem[a].prev) && mem[a].next < |mem|
  }

  /** The backward merge of mem_free. */
  function JoinBackward(st: Store, a: nat): Store
    requires a < |st.mem|
  {
    if JoinsPrevious(st.mem, a) then JoinStore(st, st.mem[a].prev, a) else st
  }

  function Released(st: Store, a: nat): (r: Store)
    requires a < |st.mem|
    ensures |r.mem| == |st.mem|
  {
    var h := st.mem[a];
    Store(st.mem[a := h.(used := false)], st.available + h.size, st.taken - h.size)
  }

  function FreeStore(st: Store, ptr: int): (Store, bool) {
    if st.available >= HEAP_SIZE || ptr == NULL then (st, false)
    else
      var a := WalkTo(st.mem, 0, ptr - HEADER, |st.mem|);
      if a == NULL || !st.mem[a].used then (st, false)
      else (JoinBackward(JoinForward(Released(st, a), a), a), true)
  }

  // ----- one call on a well-formed heap -----

  lemma {:induction false} ManyAddresses(bs: seq<Block>)
    ensures |bs| <= Length(bs)
    decreases |bs|
  {
    if |bs| > 0 {
      ManyAddresses(bs[1..]);
    }
  }

  function Address(bs: seq<Block>, i: nat): int
    requires i <= |bs|
  {
    if i < |bs| then Start(bs, i) else NULL
  }

  lemma {:induction false} WalkFindsFit(mem: Memory, bs: seq<Block>, i: nat, need: nat, fuel: nat)
    requires Walks(mem, bs) && i <= |bs| && fuel >= |bs| - i && forall j :: 0 <= j < i ==> !Fits(bs[j], need)
    ensures WalkToFit(mem, Address(bs, i), need, fuel) == Address(bs, FirstFit(bs, need))
    decreases fuel
  {
    if i < |bs| {
      assert WalksAt(mem, bs, i);
      if !Fits(bs[i], need) {
        WalkFindsFit(mem, bs, i + 1, need, fuel - 1);
      }
    }
  }

  lemma {:induction false} WalkFinds(mem: Memory, bs: seq<Block>, i: nat, target: int, fuel: nat) returns (k: nat)
    requires Represents(mem, bs) && i <= |bs| && fuel >= |bs| - i
    requires forall j :: 0 <= j < i ==> Start(bs, j) != target
    ensures k <= |bs| && WalkTo(mem, Address(bs, i), target, fuel) == Address(bs, k)
    ensures k < |bs| ==> Start(bs, k) == target
    ensures k == |bs| ==> forall j :: 0 <= j < |bs| ==> Start(bs, j) != target
    decreases fuel
  {
    k := i;
    if i < |bs| {
      assert At(mem, bs, i);
      if Start(bs, i) != target {
        k := WalkFinds(mem, bs, i + 1, target, fuel - 1);
      }
    }
  }

  predicate SafeAlloc(bs: seq<Block>, size: int) {
    AllocCall(bs, size).1 != NULL ==>
      var i := FirstFit(bs, Rounded(size)); i < |bs| && Safe(bs, i, Rounded(size))
  }

  /** What the code hands out is what the list function says, and it fails without a trace. */
  lemma AllocStoreIs(st: Store, bs: seq<Block>, size: int)
    requires Wf(bs) && Tracks(st, bs)
    ensures AllocStore(st, size).1 == AllocCall(bs, size).1
    ensures AllocCall(bs, size).1 == NULL ==> AllocStore(st, size).0 == st
    ensures AllocCall(bs, size).1 != NULL ==>
      var i, need := FirstFit(bs, Rounded(size)), Rounded(size);
      && i < |bs| && Start(bs, i) + HEADER + need < |st.mem|
      && AllocStore(st, size).0 == Store(AllocMem(st.mem, Start(bs, i), need),
           st.available - Charge(bs[i].size, need), st.taken + Charge(bs[i].size, need))
  {
    if size > 0 {
      var i, need := FirstFit(bs, Rounded(size)), Rounded(size);
      ManyAddresses(bs);
      assert At(st.mem, bs, 0);
      RepresentsWalks(st.mem, bs);
      WalkFindsFit(st.mem, bs, 0, need, |st.mem|);
      if i < |bs| {
        assert At(st.mem, bs, i);
        StartBelow(bs, i);
      }
    }
  }

  /** mem_alloc leaves a store that describes a well-formed heap if and only if the request was one
      that the code serves correctly, and then the heap is the intended one. */
  lemma AllocStoreSane(st: Store, bs: seq<Block>, size: int)
    requires Wf(bs) && Tracks(st, bs)
    ensures Sane(AllocStore(st, size).0) <==> SafeAlloc(bs, size)
    ensures SafeAlloc(bs, size) ==> Wf(AllocCall(bs, size).0) && Tracks(AllocStore(st, size).0, AllocCall(bs, size).0)
  {
    AllocStoreIs(st, bs, size);
    if AllocCall(bs, size).1 != NULL {
      var i, need := FirstFit(bs, Rounded(size)), Rounded(size);
      AllocKeepsHeap(st.mem, bs, i, need);
      TakeCounts(bs, i, need);
    }
  }

  ghost predicate Good(bs: seq<Block>) {
    forall b :: b in bs ==> GoodBlock(b)
  }

  lemma ReleaseTracks(st: Store, bs: seq<Block>, i: nat)
    requires Tracks(st, bs) && Good(bs) && i < |bs| && bs[i].used
    ensures var a, b1 := Start(bs, i), bs[i := bs[i].(used := false)];
      a < |st.mem| && Tracks(Released(st, a), b1) && Good(b1) && Start(b1, i) == a
  {
    assert At(st.mem, bs, i) && bs[i] in bs;
    ReleaseRepresents(st.mem, bs, i);
    ReleaseKeeps(bs, i);
    UsedStart(bs, i, false, i);
  }

  lemma JoinTracks(st: Store, bs: seq<Block>, i: nat)
    requires Tracks(st, bs) && Good(bs) && i + 1 < |bs| && !bs[i].used && !bs[i + 1].used
    ensures var a, b := Start(bs, i), Start(bs, i + 1);
      && a < |st.mem| && b < |st.mem| && st.mem[b].next < |st.mem|
      && Tracks(JoinStore(st, a, b), MergeAt(bs, i)) && Good(MergeAt(bs, i)) && Start(MergeAt(bs, i), i) == a
  {
    MergeRepresents(st.mem, bs, i);
    MergeKeeps(bs, i);
    MergeStart(bs, i, i);
  }

  lemma ForwardTracks(st: Store, bs: seq<Block>, i: nat)
    requires Tracks(st, bs) && Good(bs) && i < |bs| && !bs[i].used
    ensures var a, r := Start(bs, i), MergeForward(bs, i);
      && a < |st.mem| && (JoinsNext(st.mem, a) <==> i + 1 < |bs| && !bs[i + 1].used)
      && Tracks(JoinForward(st, a), r) && Good(r) && Start(r, i) == a && !r[i].used
  {
    assert At(st.mem, bs, i);
    if i + 1 < |bs| {
      assert At(st.mem, bs, i + 1);
      assert i + 2 < |bs| ==> At(st.mem, bs, i + 2);
      if !bs[i + 1].used {
        JoinTracks(st, bs, i);
      }
    }
  }

  lemma BackwardTracks(st: Store, bs: seq<Block>, i: nat)
    requires Tracks(st, bs) && Good(bs) && i < |bs| && !bs[i].used
    ensures var a := Start(bs, i);
      && a < |st.mem| && (JoinsPrevious(st.mem, a) <==> i > 0 && !bs[i - 1].used)
      && Tracks(JoinBackward(st, a), MergeBackward(bs, i))
  {
    assert At(st.mem, bs, i);
    assert i + 1 < |bs| ==> At(st.mem, bs, i + 1);
    if i > 0 {
      assert At(st.mem, bs, i - 1);
      if !bs[i - 1].used {
        JoinTracks(st, bs, i - 1);
      }
    }
  }

  /** mem_free always does what the list function says. */
  lemma FreeStoreSane(st: Store, bs: seq<Block>, ptr: int)
    requires Wf(bs) && Tracks(st, bs)
    ensures FreeStore(st, ptr).1 == FreeCall(bs, ptr).1
    ensures Wf(FreeCall(bs, ptr).0) && Tracks(FreeStore(st, ptr).0, FreeCall(bs, ptr).0)
  {
    ManyAddresses(bs);
    assert At(st.mem, bs, 0);
    var i := WalkFinds(st.mem, bs, 0, ptr - HEADER, |st.mem|);
    FoundIsLive(bs, ptr, i);
    if i < |bs| {
      assert At(st.mem, bs, i);
      if bs[i].used {
        FreeKeeps(bs, i);
        MergesTrack(st, bs, i);
      }
    }
  }

  lemma MergesTrack(st: Store, bs: seq<Block>, i: nat)
    requires Tracks(st, bs) && Good(bs) && i < |bs| && bs[i].used
    ensures var a := Start(bs, i);
      a < |st.mem| && Tracks(JoinBackward(JoinForward(Released(st, a), a), a), FreeAt(bs, i))
  {
    var b1 := bs[i := bs[i].(used := false)];
    ReleaseTracks(st, bs, i);
    ForwardTracks(Released(st, Start(bs, i)), b1, i);
    BackwardTracks(JoinForward(Released(st, Start(bs, i)), Start(bs, i)), MergeForward(b1, i), i);
  }

  // ----- runs -----

  /** The store and what its users know, as in Allocation.World. */
  datatype Machine = Machine(store: Store, held: map<int, int>)

  function ExecuteCall(m: Machine, c: Call): Machine {
    match c
    case Alloc(size) =>
      var (st, p) := AllocStore(m.store, size);
      Machine(st, if p == NULL then m.held else m.held[p := size])
    case Free(ptr) =>
      var (st, ok) := FreeStore(m.store, ptr);
      Machine(st, if ok then m.held - {ptr} else m.held)
  }

  function Execute(m: Machine, calls: seq<Call>): Machine
    decreases |calls|
  {
    if |calls| == 0 then m else Execute(ExecuteCall(m, calls[0]), calls[1..])
  }

  /** Every request of the run is one that the code serves correctly, in the heap that it meets. */
  predicate AllSafe(w: World, calls: seq<Call>)
    decreases |calls|
  {
    |calls| > 0 ==> (calls[0].Alloc? ==> SafeAlloc(w.bs, calls[0].size)) && AllSafe(Step(w, calls[0]), calls[1..])
  }

  ghost predicate SaneThroughout(m: Machine, calls: seq<Call>)
    decreases |calls|
  {
    Sane(m.store) && (|calls| > 0 ==> SaneThroughout(ExecuteCall(m, calls[0]), calls[1..]))
  }

  ghost predicate Same(m: Machine, w: World) {
    Wf(w.bs) && Tracks(m.store, w.bs) && m.held == w.held
  }

  lemma StepSame(m: Machine, w: World, c: Call)
    requires Same(m, w)
    ensures if c.Alloc? && !SafeAlloc(w.bs, c.size) then !Sane(ExecuteCall(m, c).store)
            else Same(ExecuteCall(m, c), Step(w, c))
  {
    match c
    case Alloc(size) =>
      AllocStoreIs(m.store, w.bs, size);
      AllocStoreSane(m.store, w.bs, size);
    case Free(ptr) => FreeStoreSane(m.store, w.bs, ptr);
  }

  /** Over every run of the code: the headers describe a well-formed heap after every call, and the
      counters count it, if and only if every request is Safe for the heap it meets; and then heap and
      users are those of the repaired allocator. */
  lemma {:induction false} RunSaneIff(m: Machine, w: World, calls: seq<Call>)
    requires Same(m, w)
    ensures SaneThroughout(m, calls) <==> AllSafe(w, calls)
    ensures AllSafe(w, calls) ==> Same(Execute(m, calls), Run(w, calls))
    decreases |calls|
  {
    if |calls| > 0 {
      var m1, w1 := ExecuteCall(m, calls[0]), Step(w, calls[0]);
      StepSame(m, w, calls[0]);
      if calls[0].Alloc? && !SafeAlloc(w.bs, calls[0].size) {
        assert !SaneThroughout(m1, calls[1..]);
      } else {
        RunSaneIff(m1, w1, calls[1..]);
      }
    }
  }

  lemma InitTracks()
    ensures Wf(Initial()) && Tracks(InitStore(), Initial())
  {
    InitialWf();
    assert At(InitStore().mem, Initial(), 0);
  }

  /** From mem_init on: as long as every request is Safe, and no longer, the heap stays well formed, and
      while it does the stretches that users hold are aligned, inside the heap and disjoint. */
  lemma CodeFromInit(calls: seq<Call>, p: int, q: int)
    ensures var m := Execute(Machine(InitStore(), map[]), calls);
      && (SaneThroughout(Machine(InitStore(), map[]), calls) <==> AllSafe(World(Initial(), map[]), calls))
      && (AllSafe(World(Initial(), map[]), calls) ==>
            && (p in m.held ==> HEADER <= p && p + m.held[p] <= HEAP_SIZE && p % 16 == 0)
            && (p in m.held && q in m.held && p != q ==> Apart(p, m.held[p], q, m.held[q])))
  {
    InitTracks();
    RunSaneIff(Machine(InitStore(), map[]), World(Initial(), map[]), calls);
    RunFromInit(calls, p, q);
  }

  /** Releasing what was just allocated, by a request that the code serves correctly, brings back the
      block list and the counters there were. */
  lemma CodeFreeRestores(st: Store, bs: seq<Block>, size: int)
    requires Wf(bs) && Tracks(st, bs) && AllocCall(bs, size).1 != NULL && SafeAlloc(bs, size)
    ensures var (st1, p) := AllocStore(st, size);
      var (st2, ok) := FreeStore(st1, p);
      ok && Tracks(st2, bs) && st2.available == st.available && st2.taken == st.taken
  {
    AllocStoreIs(st, bs, size);
    AllocStoreSane(st, bs, size);
    FreeRestores(bs, size);
    FreeStoreSane(AllocStore(st, size).0, AllocCall(bs, size).0, AllocCall(bs, size).1);
  }

  /** Outside Safe requests the code hands out memory that is not the heap's: a first request that leaves
      16 bytes, and then one for 16. */
  lemma OutsideTheHeap()
    ensures var (st, p) := AllocStore(InitStore(), HEAP_SIZE - 48);
      p == HEADER && AllocStore(st, 16).1 == HEAP_SIZE + 16
  {
    InitTracks();
    AllocStoreIs(InitStore(), Initial(), HEAP_SIZE - 48);
    var st := AllocStore(InitStore(), HEAP_SIZE - 48).0;
    assert FirstFit(Initial(), HEAP_SIZE - 48) == 0 && Start(Initial(), 0) == 0;
    assert st.mem[0] == Header(HEAP_SIZE - 48, true, HEAP_SIZE - 16, NULL);
    SecondFits(st.mem, HEAP_SIZE - 16, 16, |st.mem|);
  }

  lemma SecondFits(mem: Memory, a: nat, need: nat, fuel: nat)
    requires 0 < a < |mem| && mem[0].used && mem[0].next == a && !mem[a].used && mem[a].size >= need && fuel >= 2
    ensures WalkToFit(mem, 0, need, fuel) == a
  {
    assert WalkToFit(mem, a, need, fuel - 1) == a;
  }

  // ----- what every request does, served correctly or not -----

  lemma {:induction false} FitIsFree(mem: Memory, current: int, need: nat, fuel: nat)
    ensures var a := WalkToFit(mem, current, need, fuel);
      a != NULL ==> !mem[a].used && mem[a].size >= need
    decreases fuel
  {
    if fuel > 0 && Addr(mem, current) && (mem[current].used || mem[current].size < need) {
      FitIsFree(mem, mem[current].next, need, fuel - 1);
    }
  }

  /** Whatever the store, the header taken was free and large enough, is in use afterwards, and keeps its
      prev; besides it only the header behind the payload can change; and the counters keep their sum. */
  lemma HeaderTaken(st: Store, size: int)
    requires AllocStore(st, size).1 != NULL
    ensures var (st1, p) := AllocStore(st, size);
      var a, need := p - HEADER, Rounded(size);
      && 0 <= a < |st.mem| == |st1.mem|
      && !st.mem[a].used && st.mem[a].size >= need
      && st1.mem[a].used && st1.mem[a].prev == st.mem[a].prev && st1.mem[a].size >= need
      && (forall b :: 0 <= b < |st.mem| && b != a && b != p + need ==> st1.mem[b] == st.mem[b])
      && st1.available + st1.taken == st.available + st.taken
  {
    FitIsFree(st.mem, 0, Rounded(size), |st.mem|);
  }

  /** So the next request never gets the same pointer. */
  lemma NeverTwice(st: Store, size: int, next: int)
    requires AllocStore(st, size).1 != NULL
    ensures AllocStore(AllocStore(st, size).0, next).1 != AllocStore(st, size).1
  {
    HeaderTaken(st, size);
    var st1 := AllocStore(st, size).0;
    if next > 0 {
      FitIsFree(st1.mem, 0, Rounded(next), |st1.mem|);
    }
  }

  /** The two headers that the code writes. */
  lemma HeadersWritten(mem: Memory, a: nat, need: nat)
    requires a + HEADER + need < |mem| && mem[a].size % 16 == 0 && need % 16 == 0
    requires need <= mem[a].size <= HEAP_SIZE
    ensures var m, p, rest := AllocMem(mem, a, need), a + HEADER, mem[a].size - need;
      && |m| == |mem|
      && (rest == HEADER ==> m == mem[a := mem[a].(used := true)] && Charge(mem[a].size, need) == mem[a].size)
      && (rest != HEADER ==>
            && m[a] == Header(need, true, p + need, mem[a].prev)
            && !m[p + need].used && m[p + need].next == mem[a].next && m[p + need].prev == a
            && m[p + need].size == (if rest > HEADER then rest - HEADER else rest - HEADER + 0x1_0000_0000)
            && Charge(mem[a].size, need) == need + HEADER)
  {
    WrapTest(mem[a].size - need);
    assert mem[a].size - need - 0 - HEADER == mem[a].size - need - HEADER;
  }

  /** On a well-formed heap: a rest of exactly 32 bytes stays in the block; any other rest gets a header of
      its own behind the payload, free and linked in on the side of next, whose size is right unless it
      wraps around; and available_bytes loses the payload and that header. */
  lemma HeadersAfter(st: Store, bs: seq<Block>, size: int)
    requires Wf(bs) && Tracks(st, bs) && AllocStore(st, size).1 != NULL
    ensures var (st1, p) := AllocStore(st, size);
      var a, need := p - HEADER, Rounded(size);
      && 0 <= a && p + need < |st.mem| == |st1.mem|
      && var rest := st.mem[a].size - need;
      && (rest == HEADER ==>
            && st1.mem == st.mem[a := st.mem[a].(used := true)]
            && st1.available == st.available - st.mem[a].size)
      && (rest != HEADER ==>
            && st1.mem[a] == Header(need, true, p + need, st.mem[a].prev)
            && !st1.mem[p + need].used && st1.mem[p + need].next == st.mem[a].next && st1.mem[p + need].prev == a
            && st1.mem[p + need].size == (if rest > HEADER then rest - HEADER else rest - HEADER + 0x1_0000_0000)
            && st1.available == st.available - need - HEADER)
  {
    AllocStoreIs(st, bs, size);
    var i, need := FirstFit(bs, Rounded(size)), Rounded(size);
    assert At(st.mem, bs, i) && bs[i] in bs;
    StartBelow(bs, i);
    HeadersWritten(st.mem, Start(bs, i), need);
  }

  /** Next links and counters are right, prev links perhaps not. */
  ghost predicate Follows(st: Store, bs: seq<Block>) {
    Walks(st.mem, bs) && st.available == FreeBytes(bs) + HEADER && st.taken == HEAP_SIZE - st.available
  }

  predicate NoWrapAlloc(bs: seq<Block>, size: int) {
    AllocCall(bs, size).1 != NULL ==>
      var i := FirstFit(bs, Rounded(size)); i < |bs| && NoWrap(bs, i, Rounded(size))
  }

  /** A request whose rest does not wrap around is served with the intended pointer and leaves the
      intended walk, even after earlier splits have left wrong prev links. */
  lemma AllocFollows(st: Store, bs: seq<Block>, size: int)
    requires Wf(bs) && Follows(st, bs) && NoWrapAlloc(bs, size)
    ensures var (st1, p) := AllocStore(st, size);
      p == AllocCall(bs, size).1 && Wf(AllocCall(bs, size).0) && Follows(st1, AllocCall(bs, size).0)
  {
    if size > 0 {
      var i, need := FirstFit(bs, Rounded(size)), Rounded(size);
      ManyAddresses(bs);
      assert WalksAt(st.mem, bs, 0);
      WalkFindsFit(st.mem, bs, 0, need, |st.mem|);
      if i < |bs| && size <= st.available {
        assert WalksAt(st.mem, bs, i);
        AllocWalks(st.mem, bs, i, need);
        TakeCounts(bs, i, need);
      }
    }
  }

  function AllocAll(st: Store, sizes: seq<int>): (Store, seq<int>)
    decreases |sizes|
  {
    if |sizes| == 0 then (st, [])
    else
      var (st1, p) := AllocStore(st, sizes[0]);
      var (st2, ps) := AllocAll(st1, sizes[1..]);
      (st2, [p] + ps)
  }

  function AllocAllCalls(bs: seq<Block>, sizes: seq<int>): (seq<Block>, seq<int>)
    decreases |sizes|
  {
    if |sizes| == 0 then (bs, [])
    else
      var (bs1, p) := AllocCall(bs, sizes[0]);
      var (bs2, ps) := AllocAllCalls(bs1, sizes[1..]);
      (bs2, [p] + ps)
  }

  predicate NoneWraps(bs: seq<Block>, sizes: seq<int>)
    decreases |sizes|
  {
    |sizes| > 0 ==> NoWrapAlloc(bs, sizes[0]) && NoneWraps(AllocCall(bs, sizes[0]).0, sizes[1..])
  }

  /** Over every run of mem_alloc alone in which no rest wraps around, the code hands out the pointers
      that were intended: the wrong prev links harm mem_free only. */
  lemma {:induction false} AllocsFollow(st: Store, bs: seq<Block>, sizes: seq<int>)
    requires Wf(bs) && Follows(st, bs) && NoneWraps(bs, sizes)
    ensures AllocAll(st, sizes).1 == AllocAllCalls(bs, sizes).1
    ensures Follows(AllocAll(st, sizes).0, AllocAllCalls(bs, sizes).0)
    decreases |sizes|
  {
    if |sizes| > 0 {
      AllocFollows(st, bs, sizes[0]);
      AllocsFollow(AllocStore(st, sizes[0]).0, AllocCall(bs, sizes[0]).0, sizes[1..]);
    }
  }
}
