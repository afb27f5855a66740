/** rt_memheap_realloc as a whole: the sections it goes through, the block that holds the data afterwards, and
    the bytes.
  */
module MemHeapRealloc {
  import opened Seqs
  import opened Rings
  import opened Tiles
  import opened Memory
  import opened MemHeapSpec
  import opened MemHeapProofs
  import opened MemHeapLive
  import opened MemHeapRuns

  /** What the links rely on around live block k. */
  lemma LiveFacts(h: Heap, k: nat, pool: int)
    requires Inv(h, pool) && IsLive(h, k)
    ensures h.blocks[k + 1] !in h.used ==> IsFree(h, k + 1)
    ensures h.blocks[k] !in h.free && h.blocks[|h.blocks| - 1] in h.used && Distinct(h.blocks)
    ensures forall i :: 0 <= i < |h.blocks| ==> h.blocks[i] >= 0
  {
    InvMeans(h, pool);
    TilingIsDistinct(h.blocks, HDR, pool - HDR);
    if h.blocks[k + 1] !in h.used {
      SuccessorIsFree(h, k, pool);
    }
    forall i | 0 <= i < |h.blocks| ensures h.blocks[i] >= 0 {
      assert i > 0 ==> h.blocks[0] <= h.blocks[i];
    }
  }

  /** The last resort of rt_memheap_realloc: allocate elsewhere, then free the old block. */
  ghost function Relocated(h: Heap, k: nat, size: int): (Heap, int)
    requires IsLive(h, k) && 0 <= size < U32
  {
    var a, (h', a') := h.blocks[k], Alloc(h, size);
    if a' != -1 && a in h'.blocks && IsLive(h', IndexOf(h'.blocks, a)) then (Free(h', IndexOf(h'.blocks, a)), a')
    else (h', a')
  }

  /** Allocation leaves the other live blocks live. */
  lemma StillLive(h: Heap, k: nat, request: int, pool: int)
    requires Inv(h, pool) && IsLive(h, k) && 0 <= request < U32
    ensures var h' := Alloc(h, request).0; h.blocks[k] in h'.blocks && IsLive(h', IndexOf(h'.blocks, h.blocks[k]))
  {
    var h' := Alloc(h, request).0;
    LiveFacts(h, k, pool);
    AllocLive(h, request, pool);
    AllocKeeps(h, request, pool);
    NotTheTailer(h, pool, k);
    assert h.blocks[k] in Live(h, pool);
    var i := LiveBlock(h', pool, h.blocks[k]);
    NotTheTailer(h', pool, IndexOf(h'.blocks, h.blocks[k]));
  }

  lemma RelocatePlan(h: Heap, k: nat, size: int, h': Heap, a': int, pool: int)
    requires Inv(h, pool) && IsLive(h, k) && 0 <= size < U32 && (h', a') == Alloc(h, size)
    ensures a' >= -1 && h.blocks[k] >= 0
    ensures h.blocks[k] in h'.blocks && IsLive(h', IndexOf(h'.blocks, h.blocks[k]))
    ensures Relocated(h, k, size) == if a' == -1 then (h', -1) else (Free(h', IndexOf(h'.blocks, h.blocks[k])), a')
  {
    StillLive(h, k, size, pool);
    LiveFacts(h, k, pool);
    var j := FirstFit(h, Rounded(size), 0);
    if j < |h.free| {
      FreeMember(h, pool, h.free[j]);
    }
  }

  /** Growing in place cannot wrap around; GrowKeeps shows what happens otherwise. */
  ghost predicate GrowSafe(h: Heap, k: int, request: int)
    requires 0 <= request < U32
  {
    request == 0 || Rounded(request) + MINIALLOC < U32 || !IsFree(h, k + 1)
  }

  // ---------- The sections ----------

  ghost function MoveCalls(h: Heap, k: nat, size: int): seq<Call>
    requires IsLive(h, k) && 0 <= size < U32
  {
    var a, (h', a') := h.blocks[k], Alloc(h, size);
    [CallAlloc(size)] + (if a' != -1 && a in h'.blocks then [CallFree(IndexOf(h'.blocks, a))] else [])
  }

  ghost function ReallocCalls(h: Heap, k: nat, request: int): seq<Call>
    requires IsLive(h, k) && 0 <= request < U32
  {
    var size := Rounded(request);
    if request == 0 then [CallFree(k)]
    else if size <= Size(h.blocks, k) then [CallShrink(k, size)]
    else if CanGrow(h, k, size) then [CallGrow(k, size)]
    else MoveCalls(h, k, size)
  }

  /** The calls, one after the other, lead from p to p'. */
  ghost predicate Leads(p: Pool, calls: seq<Call>, p': Pool, pool: int)
    decreases |calls|
  {
    if calls == [] then p' == p
    else Legal(p.heap, calls[0]) && Leads(Step(p, calls[0], pool), calls[1..], p', pool)
  }

  lemma OneCall(p: Pool, c: Call, pool: int)
    requires Legal(p.heap, c)
    ensures Leads(p, [c], Step(p, c, pool), pool)
  {
    assert [c][1..] == [];
  }

  lemma TwoCalls(p: Pool, c: Call, d: Call, pool: int)
    requires Legal(p.heap, c) && Legal(Step(p, c, pool).heap, d)
    ensures Leads(p, [c] + [d], Step(Step(p, c, pool), d, pool), pool)
  {
    assert ([c] + [d])[1..] == [d];
    OneCall(Step(p, c, pool), d, pool);
  }

  ghost function Peak(p: Pool, h: Heap, taken: bool, pool: int): int {
    if taken && pool - h.available > p.maxUsed then pool - h.available else p.maxUsed
  }

  /** The heap with its peak, the header of the block that now holds the data, or -1, and the contents of
      memory. */
  datatype Outcome = Outcome(pool: Pool, at: int, data: Bytes)

  /** rt_memheap_alloc, rt_memcpy and rt_memheap_free. */
  ghost function Moved(p: Pool, k: nat, oldsize: int, size: int, data: Bytes, pool: int): Outcome
    requires IsLive(p.heap, k) && 0 <= size < U32
  {
    var (h', a') := Alloc(p.heap, size);
    Outcome(Pool(Relocated(p.heap, k, size).0, Peak(p, h', a' != -1, pool)), a',
            if a' == -1 then data else Copy(data, a' + HDR, p.heap.blocks[k] + HDR, Least(oldsize, size)))
  }

  lemma MovedIs(p: Pool, k: nat, oldsize: int, size: int, data: Bytes, pool: int, o: Outcome)
    requires IsLive(p.heap, k) && 0 <= size < U32 && o.pool.heap == Relocated(p.heap, k, size).0
    requires o.at == Alloc(p.heap, size).1 && o.pool.maxUsed == Peak(p, Alloc(p.heap, size).0, o.at != -1, pool)
    requires o.data == if o.at == -1 then data
                       else Copy(data, o.at + HDR, p.heap.blocks[k] + HDR, Least(oldsize, size))
    ensures o == Moved(p, k, oldsize, size, data, pool)
  {
  }

  /** rt_memheap_realloc of live block k. */
  ghost function Reallocated(p: Pool, k: nat, request: int, data: Bytes, pool: int): Outcome
    requires IsLive(p.heap, k) && 0 <= request < U32
  {
    var h, size := p.heap, Rounded(request);
    if request == 0 then Outcome(Pool(Free(h, k), p.maxUsed), -1, data)
    else if size <= Size(h.blocks, k) then Outcome(Pool(Shrink(h, k, size), p.maxUsed), h.blocks[k], data)
    else if CanGrow(h, k, size) then
      Outcome(Pool(Grow(h, k, size), Peak(p, Grow(h, k, size), true, pool)), h.blocks[k], data)
    else Moved(p, k, Size(h.blocks, k), size, data, pool)
  }

  lemma MoveRuns(p: Pool, k: nat, oldsize: int, size: int, data: Bytes, pool: int)
    requires Inv(p.heap, pool) && IsLive(p.heap, k) && 0 <= size < U32
    ensures Leads(p, MoveCalls(p.heap, k, size), Moved(p, k, oldsize, size, data, pool).pool, pool)
  {
    var h := p.heap;
    var (h', a') := Alloc(h, size);
    StillLive(h, k, size, pool);
    if a' != -1 {
      TwoCalls(p, CallAlloc(size), CallFree(IndexOf(h'.blocks, h.blocks[k])), pool);
    } else {
      assert [CallAlloc(size)] + [] == [CallAlloc(size)];
      OneCall(p, CallAlloc(size), pool);
    }
  }

  /** A whole rt_memheap_realloc is one or two sections, each of them a legal step of a run. */
  lemma ReallocRuns(p: Pool, k: nat, request: int, data: Bytes, pool: int)
    requires Inv(p.heap, pool) && pool < U32 && IsLive(p.heap, k) && 0 <= request < U32 && GrowSafe(p.heap, k, request)
    ensures Leads(p, ReallocCalls(p.heap, k, request), Reallocated(p, k, request, data, pool).pool, pool)
  {
    var h, size := p.heap, Rounded(request);
    RoundedHolds(request);
    if request == 0 {
      OneCall(p, CallFree(k), pool);
    } else if size <= Size(h.blocks, k) {
      OneCall(p, CallShrink(k, size), pool);
    } else if CanGrow(h, k, size) {
      OneCall(p, CallGrow(k, size), pool);
    } else {
      MoveRuns(p, k, Size(h.blocks, k), size, data, pool);
    }
  }

  // ---------- The data ----------

  /** The allocation at a is now the one at a', with room for size bytes; the bytes that fit have come
      along, and all other allocations are live as before with their bytes. */
  ghost predicate Replaces(live: map<int, int>, data: Bytes, a: int, live': map<int, int>, data': Bytes, a': int,
                           size: int) {
    && a in live && a' in live' && live'[a'] >= size && (a' == a || a' !in live)
    && live' == (live - {a})[a' := live'[a']]
    && Carried(live, data, a, data', a', Least(live[a], size))
  }

  /** n bytes have come along, and the other allocations have their bytes. */
  ghost predicate IsCarried(live: map<int, int>, data: Bytes, a: int, data': Bytes, a': int, n: int) {
    && SameContents(data, a + HDR, data', a' + HDR, n)
    && forall x :: x in live && x != a ==> SameBytes(data, data', x + HDR, live[x])
  }

  /** IsCarried, which proofs unfold only where they ask for it. */
  ghost predicate Carried(live: map<int, int>, data: Bytes, a: int, data': Bytes, a': int, n: int) {
    forall shown {:trigger Shown(a, a', shown)} :: Shown(a, a', shown) ==> IsCarried(live, data, a, data', a', n)
  }

  predicate Shown(a: int, a': int, shown: bool) {
    true
  }

  lemma CarriedMeans(live: map<int, int>, data: Bytes, a: int, data': Bytes, a': int, n: int)
    ensures Carried(live, data, a, data', a', n) <==> IsCarried(live, data, a, data', a', n)
  {
    assert Shown(a, a', true);
  }

  lemma LiveAt(h: Heap, k: nat, pool: int)
    requires Inv(h, pool) && IsLive(h, k)
    ensures h.blocks[k] in Live(h, pool) && Live(h, pool)[h.blocks[k]] == Size(h.blocks, k)
  {
    NotTheTailer(h, pool, k);
    LiveFacts(h, k, pool);
    var i := LiveBlock(h, pool, h.blocks[k]);
  }

  /** Copying into a live allocation does not disturb another one. */
  lemma CopyApart(h: Heap, pool: int, data: Bytes, q: int, from: int, n: int, x: int)
    requires Inv(h, pool) && q in Live(h, pool) && x in Live(h, pool) && x != q && n <= Live(h, pool)[q]
    ensures SameBytes(data, Copy(data, q + HDR, from, n), x + HDR, Live(h, pool)[x])
  {
    if x < q {
      LiveDisjoint(h, pool, x, q);
    } else {
      LiveDisjoint(h, pool, q, x);
    }
    CopyBeside(data, q + HDR, from, n, x + HDR, Live(h, pool)[x]);
  }

  /** What a move does to the live allocations, by way of the heap between its two sections. */
  lemma MoveLives(h: Heap, k: nat, size: int, pool: int, h1: Heap, a': int)
    requires Inv(h, pool) && IsLive(h, k) && 0 <= size < U32 && (h1, a') == Alloc(h, size)
    ensures Relocated(h, k, size).1 == a' && Inv(h1, pool) && Inv(Relocated(h, k, size).0, pool)
    ensures a' == -1 ==> Relocated(h, k, size).0 == h
    ensures a' != -1 ==>
              && a' !in Live(h, pool) && a' in Live(h1, pool) && Live(h1, pool)[a'] >= Rounded(size)
              && Live(h1, pool) == Live(h, pool)[a' := Live(h1, pool)[a']]
              && Live(Relocated(h, k, size).0, pool) == Live(h1, pool) - {h.blocks[k]}
  {
    RelocatePlan(h, k, size, h1, a', pool);
    AllocLive(h, size, pool);
    AllocKeeps(h, size, pool);
    if a' != -1 {
      var i := IndexOf(h1.blocks, h.blocks[k]);
      FreeKeeps(h1, i, pool);
      FreeLive(h1, i, pool);
    }
  }

  lemma MoveBytes(live: map<int, int>, h1: Heap, pool: int, data: Bytes, a: int, a': int, n: int)
    requires Inv(h1, pool) && a' in Live(h1, pool) && a' !in live && n <= Live(h1, pool)[a']
    requires Live(h1, pool) == live[a' := Live(h1, pool)[a']]
    ensures Carried(live, data, a, Copy(data, a' + HDR, a + HDR, n), a', n)
  {
    CopyContents(data, a' + HDR, a + HDR, n);
    CarriedMeans(live, data, a, Copy(data, a' + HDR, a + HDR, n), a', n);
    forall x | x in live && x != a ensures SameBytes(data, Copy(data, a' + HDR, a + HDR, n), x + HDR, live[x]) {
      assert x in Live(h1, pool) && Live(h1, pool)[x] == live[x];
      CopyApart(h1, pool, data, a', a + HDR, n, x);
    }
  }

  lemma MapMoves(live: map<int, int>, live1: map<int, int>, live': map<int, int>, a: int, a': int)
    requires a in live && a' !in live && a' in live1 && live1 == live[a' := live1[a']] && live' == live1 - {a}
    ensures a' in live' && live'[a'] == live1[a'] && live' == (live - {a})[a' := live'[a']]
  {
  }

  lemma MoveAnswers(p: Pool, k: nat, size: int, data: Bytes, pool: int)
    requires Inv(p.heap, pool) && IsLive(p.heap, k) && 0 <= size < U32 && Rounded(size) == size
    ensures Answers(p.heap, data, k, size, pool, Moved(p, k, Size(p.heap.blocks, k), size, data, pool))
  {
    var o := MoveOutcome(p, k, size, data, pool);
    MovedIs(p, k, Size(p.heap.blocks, k), size, data, pool, o);
  }

  lemma MoveOutcome(p: Pool, k: nat, size: int, data: Bytes, pool: int) returns (o: Outcome)
    requires Inv(p.heap, pool) && IsLive(p.heap, k) && 0 <= size < U32 && Rounded(size) == size
    ensures o.pool.heap == Relocated(p.heap, k, size).0 && o.at == Alloc(p.heap, size).1
    ensures o.pool.maxUsed == Peak(p, Alloc(p.heap, size).0, o.at != -1, pool)
    ensures o.data == if o.at == -1 then data
                      else Copy(data, o.at + HDR, p.heap.blocks[k] + HDR, Least(Size(p.heap.blocks, k), size))
    ensures Answers(p.heap, data, k, size, pool, o)
  {
    var (h1, a') := Alloc(p.heap, size);
    var p' := Pool(Relocated(p.heap, k, size).0, Peak(p, h1, a' != -1, pool));
    MoveLives(p.heap, k, size, pool, h1, a');
    if a' == -1 {
      o := Outcome(p', a', data);
      FailAnswers(p.heap, data, k, size, pool, p');
    } else {
      o := MoveReplaces(p.heap, data, k, size, pool, h1, a', p');
    }
  }

  lemma FailAnswers(h: Heap, data: Bytes, k: nat, size: int, pool: int, p': Pool)
    requires Inv(h, pool) && k < |h.blocks| && p'.heap == h
    ensures Answers(h, data, k, size, pool, Outcome(p', -1, data))
  {
    AnswersMeans(h, data, k, size, pool, Outcome(p', -1, data));
  }

  lemma MoveReplaces(h: Heap, data: Bytes, k: nat, size: int, pool: int, h1: Heap, a': int, p': Pool)
    returns (o: Outcome)
    requires Inv(h, pool) && IsLive(h, k) && Inv(h1, pool) && Inv(p'.heap, pool) && a' != -1
    requires a' !in Live(h, pool) && a' in Live(h1, pool) && Live(h1, pool)[a'] >= size
    requires Live(h1, pool) == Live(h, pool)[a' := Live(h1, pool)[a']]
    requires Live(p'.heap, pool) == Live(h1, pool) - {h.blocks[k]}
    ensures o == Outcome(p', a', Copy(data, a' + HDR, h.blocks[k] + HDR, Least(Size(h.blocks, k), size)))
    ensures Answers(h, data, k, size, pool, o)
  {
    var a, n := h.blocks[k], Least(Size(h.blocks, k), size);
    o := Outcome(p', a', Copy(data, a' + HDR, a + HDR, n));
    LiveAt(h, k, pool);
    MoveBytes(Live(h, pool), h1, pool, data, a, a', n);
    MapsReplace(Live(h, pool), Live(h1, pool), Live(p'.heap, pool), data, a, o.data, a', size);
    AnswersMeans(h, data, k, size, pool, o);
  }

  lemma MapsReplace(live: map<int, int>, live1: map<int, int>, live': map<int, int>, data: Bytes, a: int, data': Bytes,
                    a': int, size: int)
    requires a in live && a' !in live && a' in live1 && live1[a'] >= size
    requires live1 == live[a' := live1[a']] && live' == live1 - {a}
    requires Carried(live, data, a, data', a', Least(live[a], size))
    ensures Replaces(live, data, a, live', data', a', size)
  {
    MapMoves(live, live1, live', a, a');
  }

  /** What rt_memheap_realloc promises of its outcome: a replacement with room, or nothing has changed. */
  ghost predicate IsAnswer(h: Heap, data: Bytes, k: nat, size: int, pool: int, o: Outcome)
    requires k < |h.blocks|
  {
    && Inv(o.pool.heap, pool)
    && (o.at == -1 ==> o.pool.heap == h && o.data == data)
    && (o.at != -1 ==> Replaces(Live(h, pool), data, h.blocks[k], Live(o.pool.heap, pool), o.data, o.at, size))
  }

  /** IsAnswer, which proofs unfold only where they ask for it. */
  ghost predicate Answers(h: Heap, data: Bytes, k: nat, size: int, pool: int, o: Outcome)
    requires k < |h.blocks|
  {
    forall asked {:trigger Asked(o, asked)} :: Asked(o, asked) ==> IsAnswer(h, data, k, size, pool, o)
  }

  ghost predicate Asked(o: Outcome, asked: bool) {
    true
  }

  lemma AnswersMeans(h: Heap, data: Bytes, k: nat, size: int, pool: int, o: Outcome)
    requires k < |h.blocks|
    ensures Answers(h, data, k, size, pool, o) <==> IsAnswer(h, data, k, size, pool, o)
  {
    assert Asked(o, true);
  }

  lemma StaysReplaced(p: Pool, data: Bytes, k: nat, size: int, pool: int, p': Pool)
    requires Inv(p.heap, pool) && IsLive(p.heap, k) && Inv(p'.heap, pool)
    requires Live(p'.heap, pool) == Live(p.heap, pool)[p.heap.blocks[k] := size] ||
             (p'.heap == p.heap && size <= Size(p.heap.blocks, k))
    ensures Answers(p.heap, data, k, size, pool, Outcome(p', p.heap.blocks[k], data))
  {
    var h := p.heap;
    LiveAt(h, k, pool);
    LiveFacts(h, k, pool);
    CarriedMeans(Live(h, pool), data, h.blocks[k], data, h.blocks[k], Least(Size(h.blocks, k), size));
    AnswersMeans(h, data, k, size, pool, Outcome(p', h.blocks[k], data));
  }

  lemma ShrinkAnswers(p: Pool, data: Bytes, k: nat, size: int, pool: int)
    requires Inv(p.heap, pool) && pool < U32 && IsLive(p.heap, k)
    requires Word(size) && MINIALLOC <= size <= Size(p.heap.blocks, k)
    ensures Answers(p.heap, data, k, size, pool,
                    Outcome(Pool(Shrink(p.heap, k, size), p.maxUsed), p.heap.blocks[k], data))
  {
    ShrinkKeeps(p.heap, k, size, pool);
    ShrinkLive(p.heap, k, size, pool);
    StaysReplaced(p, data, k, size, pool, Pool(Shrink(p.heap, k, size), p.maxUsed));
  }

  lemma GrowAnswers(p: Pool, data: Bytes, k: nat, size: int, pool: int, peak: int)
    requires Inv(p.heap, pool) && pool < U32 && IsLive(p.heap, k) && Word(size) && Size(p.heap.blocks, k) < size
    requires size + MINIALLOC < U32 && CanGrow(p.heap, k, size)
    ensures Answers(p.heap, data, k, size, pool, Outcome(Pool(Grow(p.heap, k, size), peak), p.heap.blocks[k], data))
  {
    GrowKeeps(p.heap, k, size, pool);
    GrowLive(p.heap, k, size, pool);
    StaysReplaced(p, data, k, size, pool, Pool(Grow(p.heap, k, size), peak));
  }

  /** rt_memheap_realloc of a live allocation to a nonzero size replaces it by one with room, keeping the bytes
      that fit and all other allocations with their bytes; or it fails and changes nothing. */
  lemma ReallocMoves(p: Pool, data: Bytes, k: nat, request: int, pool: int)
    requires Inv(p.heap, pool) && pool < U32 && IsLive(p.heap, k) && 0 < request < U32 && GrowSafe(p.heap, k, request)
    ensures IsAnswer(p.heap, data, k, Rounded(request), pool, Reallocated(p, k, request, data, pool))
  {
    var h, size := p.heap, Rounded(request);
    RoundedHolds(request);
    if size <= Size(h.blocks, k) {
      ShrinkAnswers(p, data, k, size, pool);
    } else if CanGrow(h, k, size) {
      GrowAnswers(p, data, k, size, pool, Peak(p, Grow(h, k, size), true, pool));
    } else {
      MoveAnswers(p, k, size, data, pool);
    }
    AnswersMeans(h, data, k, size, pool, Reallocated(p, k, request, data, pool));
  }

  // ---------- Growth that wraps around ----------

  /** rt_memheap_realloc keeps the invariant exactly when newsize + RT_MEMHEAP_MINIALLOC does not wrap around,
      or the block behind is in use, or the request is 0. */
  lemma ReallocKeeps(p: Pool, data: Bytes, k: nat, request: int, pool: int)
    requires Inv(p.heap, pool) && pool < U32 && IsLive(p.heap, k) && 0 <= request < U32
    ensures Inv(Reallocated(p, k, request, data, pool).pool.heap, pool) <==> GrowSafe(p.heap, k, request)
  {
    var h := p.heap;
    if request == 0 {
      FreeKeeps(h, k, pool);
    } else if GrowSafe(h, k, request) {
      ReallocMoves(p, data, k, request, pool);
    } else {
      var size := Rounded(request);
      RoundedHolds(request);
      BlockBelow(h, k, pool);
      GrowWraps(h, k, size, pool);
    }
  }

  lemma BlockBelow(h: Heap, k: nat, pool: int)
    requires Inv(h, pool) && IsLive(h, k) && pool < U32
    ensures 0 <= Size(h.blocks, k) < U32 - 2 * HDR
    ensures IsFree(h, k + 1) ==> Size(h.blocks, k + 1) >= 0
  {
    LiveFacts(h, k, pool);
    InvMeans(h, pool);
    assert k + 1 < |h.blocks| - 1 ==> h.blocks[k + 1] < h.blocks[|h.blocks| - 1];
    assert NeighbourOk(h.used)(h.blocks[k], h.blocks[k + 1]);
  }

  lemma FirstFitsWhole()
    ensures FirstFit(Initial(100), 12, 0) == 0 && IsFree(Initial(100), 0)
    ensures IndexOf(Initial(100).blocks, 0) == 0 && Size(Initial(100).blocks, 0) == 52
  {
    var h := Initial(100);
    assert h.blocks[0] == 0 && h.free[0] == 0;
    assert IndexOf(h.blocks, 0) == 0;
    assert SizeAt(h.blocks, 0) == 52;
  }

  lemma FirstAllocated() returns (h: Heap)
    ensures h == Alloc(Initial(100), 12).0
    ensures h.blocks == [0, 36, 76] && h.used == {76, 0} && h.free != [] && h.free[0] == 36
  {
    FirstFitsWhole();
    var h0 := Initial(100);
    h := AllocBlock(h0, 0, 12);
    assert Alloc(h0, 12).0 == h;
    assert h.blocks == Insert(h0.blocks, 1, 36);
  }

  lemma WrapsBehind(h: Heap, peak: int, data: Bytes)
    requires Inv(h, 100) && IsLive(h, 0) && IsFree(h, 1)
    ensures !Inv(Reallocated(Pool(h, peak), 0, U32 - MINIALLOC, data, 100).pool.heap, 100)
  {
    assert Rounded(U32 - MINIALLOC) == U32 - MINIALLOC;
    assert !GrowSafe(h, 0, U32 - MINIALLOC);
    ReallocKeeps(Pool(h, peak), data, 0, U32 - MINIALLOC, 100);
  }

  /** A pool of 100 bytes after one allocation of 12, of which a realloc to 2^32 - 12 bytes breaks the block list. */
  lemma WrapsCase(peak: int, data: Bytes) returns (h: Heap)
    ensures h == Alloc(Initial(100), 12).0 && Inv(h, 100) && h.blocks == [0, 36, 76] && IsLive(h, 0) && IsFree(h, 1)
    ensures !Inv(Reallocated(Pool(h, peak), 0, U32 - MINIALLOC, data, 100).pool.heap, 100)
  {
    InitialInv(100);
    AllocKeeps(Initial(100), 12, 100);
    h := FirstAllocated();
    WrapsBehind(h, peak, data);
  }
}
