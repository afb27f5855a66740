/** Whole runs of the memory heap, and what its callers see: the map of live allocations. */
module MemHeapRuns {
  import opened Tiles
  import opened MemHeapSpec
  import opened MemHeapProofs

  /** A heap together with its max_used_size. */
  datatype Pool = Pool(heap: Heap, maxUsed: int)

  /** One locked section.  CallAlloc is an rt_memheap_alloc whose test of available_size comes right before its
      section, CallTake the section of one whose test came earlier.  Blocks are named by their position in the
      block list; a realloc is one section, or an allocation followed later by a free, as MemHeapRealloc shows. */
  datatype Call =
    | CallAlloc(request: int)
    | CallTake(request: int)
    | CallFree(k: int)
    | CallGrow(k: int, newsize: int)
    | CallShrink(k: int, newsize: int)

  /** What the source demands of the caller: request sizes are 32-bit values, pointers are live,
      and growth stays clear of 32-bit wrap-around. */
  ghost predicate Legal(h: Heap, c: Call) {
    match c
    case CallAlloc(request) => 0 <= request < U32
    case CallTake(request) => 0 <= request < U32
    case CallFree(k) => IsLive(h, k)
    case CallGrow(k, newsize) =>
      IsLive(h, k) && Word(newsize) && Size(h.blocks, k) < newsize && newsize + MINIALLOC < U32
    case CallShrink(k, newsize) => IsLive(h, k) && Word(newsize) && MINIALLOC <= newsize
  }

  ghost function Result(h: Heap, c: Call): Heap
    requires Legal(h, c)
  {
    match c
    case CallAlloc(request) => Alloc(h, request).0
    case CallTake(request) => Take(h, request).0
    case CallFree(k) => Free(h, k)
    case CallGrow(k, newsize) => Grow(h, k, newsize)
    case CallShrink(k, newsize) => Shrink(h, k, newsize)
  }

  /** The section hands out memory. */
  ghost predicate HandsOut(h: Heap, c: Call)
    requires Legal(h, c)
  {
    match c
    case CallAlloc(request) => Alloc(h, request).1 != -1
    case CallTake(request) => Take(h, request).1 != -1
    case CallGrow(k, newsize) => CanGrow(h, k, newsize)
    case _ => false
  }

  /** A successful allocation or growth updates max_used_size, nothing else does. */
  ghost function Step(p: Pool, c: Call, pool: int): Pool
    requires Legal(p.heap, c)
  {
    var h := Result(p.heap, c);
    Pool(h, if HandsOut(p.heap, c) && pool - h.available > p.maxUsed then pool - h.available else p.maxUsed)
  }

  ghost predicate IsRun(run: seq<Pool>, calls: seq<Call>, pool: int) {
    && |run| == |calls| + 1
    && run[0] == Pool(Initial(pool), 2 * HDR)
    && forall i :: 0 <= i < |calls| ==> Legal(run[i].heap, calls[i]) && run[i + 1] == Step(run[i], calls[i], pool)
  }

  lemma StepKeeps(h: Heap, c: Call, pool: int)
    requires Inv(h, pool) && pool < U32 && Legal(h, c)
    ensures Inv(Result(h, c), pool)
  {
    match c
    case CallAlloc(request) => AllocKeeps(h, request, pool);
    case CallTake(request) => TakeKeeps(h, request, pool);
    case CallFree(k) => FreeKeeps(h, k, pool);
    case CallGrow(k, newsize) => GrowKeeps(h, k, newsize, pool);
    case CallShrink(k, newsize) => ShrinkKeeps(h, k, newsize, pool);
  }

  /** Freeing and shrinking never lower available_size. */
  lemma ReleaseRaisesAvailable(h: Heap, c: Call, pool: int)
    requires Inv(h, pool) && Legal(h, c) && (c.CallFree? || c.CallShrink?)
    ensures Result(h, c).available >= h.available
  {
    if c.CallFree? {
      FreeRaises(h, c.k, pool);
    } else {
      ShrinkRaises(h, c.k, c.newsize, pool);
    }
  }

  lemma AllocNotNull(h: Heap, request: int, pool: int)
    requires Inv(h, pool) && 0 <= request < U32
    ensures Alloc(h, request).1 >= -1
  {
    var j := FirstFit(h, Rounded(request), 0);
    if j < |h.free| {
      FreeMember(h, pool, h.free[j]);
    }
  }

  lemma FailsUnchanged(h: Heap, c: Call, pool: int)
    requires Inv(h, pool) && Legal(h, c) && !c.CallFree? && !c.CallShrink? && !HandsOut(h, c)
    ensures Result(h, c) == h
  {
    if c.CallAlloc? || c.CallTake? {
      var j := FirstFit(h, Rounded(c.request), 0);
      if j < |h.free| {
        FreeMember(h, pool, h.free[j]);
      }
    }
  }

  lemma LiveSize(h: Heap, k: int, pool: int)
    requires Inv(h, pool) && IsLive(h, k)
    ensures Size(h.blocks, k) >= 0
  {
    InvMeans(h, pool);
    assert NeighbourOk(h.used)(h.blocks[k], h.blocks[k + 1]);
  }

  lemma FreeRaises(h: Heap, k: int, pool: int)
    requires Inv(h, pool) && IsLive(h, k)
    ensures Free(h, k).available >= h.available
  {
    AbsorbGrows(h, k, pool);
    LiveSize(h, k, pool);
  }

  lemma ShrinkRaises(h: Heap, k: int, newsize: int, pool: int)
    requires Inv(h, pool) && IsLive(h, k)
    ensures Shrink(h, k, newsize).available >= h.available
  {
    AbsorbGrows(h, k, pool);
  }

  /** After any run the block list tiles the pool, no two free blocks touch, the free ring is
      exact and available_size is the free total; max_used_size is the running maximum of
      pool_size - available_size. */
  lemma {:induction false} RunKeeps(run: seq<Pool>, calls: seq<Call>, pool: int, n: nat)
    requires 2 * HDR <= pool < U32 && Word(pool) && IsRun(run, calls, pool) && n < |run|
    ensures Inv(run[n].heap, pool)
    ensures forall i :: 0 <= i <= n ==> pool - run[i].heap.available <= run[n].maxUsed
    ensures exists i :: 0 <= i <= n && pool - run[i].heap.available == run[n].maxUsed
  {
    if n == 0 {
      InitialInv(pool);
    } else {
      RunKeeps(run, calls, pool, n - 1);
      var h, c := run[n - 1].heap, calls[n - 1];
      assert run[n] == Step(run[n - 1], c, pool);
      StepKeeps(h, c, pool);
      if c.CallFree? || c.CallShrink? {
        ReleaseRaisesAvailable(h, c, pool);
      } else if !HandsOut(h, c) {
        FailsUnchanged(h, c, pool);
      }
    }
  }
}
