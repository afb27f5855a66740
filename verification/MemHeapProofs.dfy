/** Why every run of the memory heap keeps its block list, its free ring and its totals intact. */
module MemHeapProofs {
  import opened Seqs
  import opened Rings
  import opened Tiles
  import opened MemHeapSpec

  lemma InvMeans(h: Heap, pool: int)
    requires Inv(h, pool)
    ensures Structure(h, pool) && Balanced(h)
  {
    assert Unfolded(h, true);
  }

  lemma InvHolds(h: Heap, pool: int)
    requires Structure(h, pool) && Balanced(h)
    ensures Inv(h, pool)
  {
  }

  lemma RoundedHolds(size: int)
    requires 0 <= size < U32
    ensures Word(Rounded(size)) && MINIALLOC <= Rounded(size) < U32
    ensures size <= Rounded(size) <==> size <= U32 - 4
    ensures size <= U32 - 4 ==> Rounded(size) < size + 4 || Rounded(size) == MINIALLOC
  {
  }

  lemma RingWithout(s: seq<int>, x: int)
    requires Distinct(s) && x in s
    ensures Distinct(Without(s, x))
    ensures forall y :: y in Without(s, x) <==> y in s && y != x
  {
    DropDistinct(s, IndexOf(s, x), Without(s, x));
  }

  lemma RingPush(s: seq<int>, x: int)
    requires Distinct(s) && x !in s
    ensures Distinct([x] + s)
    ensures forall y :: y in [x] + s <==> y in s || y == x
  {
  }

  /** What marking block k used or free does to the free total. */
  lemma FreeSumMark(b: seq<int>, used: set<int>, used': set<int>, k: nat)
    requires Distinct(b) && k < |b| - 1
    requires forall x :: x in b && x != b[k] ==> (x in used <==> x in used')
    ensures Sum(b, FreeWeight(used')) ==
            Sum(b, FreeWeight(used)) - (if b[k] in used then 0 else Size(b, k))
            + (if b[k] in used' then 0 else Size(b, k))
  {
    SumChangeTo(b, FreeWeight(used), FreeWeight(used'), k, |b| - 1);
  }

  // ---------- The four moves ----------

  lemma MarkUsedStructure(h: Heap, k: int, pool: int)
    requires Structure(h, pool) && IsFree(h, k) && MINIALLOC <= Size(h.blocks, k)
    ensures Structure(MarkUsed(h, k), pool)
  {
    RingWithout(h.free, h.blocks[k]);
    TilingIsDistinct(h.blocks, HDR, pool - HDR);
  }

  lemma MarkUsedKeeps(h: Heap, k: int, pool: int)
    requires Inv(h, pool) && IsFree(h, k) && MINIALLOC <= Size(h.blocks, k)
    ensures Inv(MarkUsed(h, k), pool)
  {
    InvMeans(h, pool);
    TilingIsDistinct(h.blocks, HDR, pool - HDR);
    FreeSumMark(h.blocks, h.used, h.used + {h.blocks[k]}, k);
    MarkUsedStructure(h, k, pool);
    InvHolds(MarkUsed(h, k), pool);
  }

  lemma CutStructure(h: Heap, k: int, n: int, pool: int)
    requires Structure(h, pool) && IsLive(h, k) && h.blocks[k + 1] in h.used
    requires Word(n) && h.blocks[k] + HDR + MINIALLOC <= n && n + HDR <= h.blocks[k + 1]
    ensures Structure(Cut(h, k, n), pool)
  {
    var b := h.blocks;
    var r := Insert(b, k + 1, n);
    TilingIsDistinct(b, HDR, pool - HDR);
    assert n !in b;
    InsertDistinct(b, k + 1, n, r);
    TilingInsert(b, HDR, pool - HDR, k, n, r);
    AdjacentInsert(b, NeighbourOk(h.used), NeighbourOk(h.used), k, n, r);
    RingPush(h.free, n);
  }

  lemma CutKeeps(h: Heap, k: int, n: int, pool: int)
    requires Inv(h, pool) && IsLive(h, k) && h.blocks[k + 1] in h.used
    requires Word(n) && h.blocks[k] + HDR + MINIALLOC <= n && n + HDR <= h.blocks[k + 1]
    ensures Inv(Cut(h, k, n), pool)
  {
    InvMeans(h, pool);
    CutStructure(h, k, n, pool);
    assert Balanced(Cut(h, k, n)) by {
      assert n !in h.used;
      SumInsert(h.blocks, FreeWeight(h.used), k, n, Insert(h.blocks, k + 1, n));
    }
    InvHolds(Cut(h, k, n), pool);
  }

  /** The block behind a free one is used, so nothing else changes among the neighbours. */
  lemma AbsorbBlocks(h: Heap, k: int, pool: int, r: seq<int>)
    requires Structure(h, pool) && IsLive(h, k) && IsFree(h, k + 1) && r == Drop(h.blocks, k + 1)
    ensures Tiling(r, HDR, pool - HDR) && Adjacent(r, NeighbourOk(h.used)) && h.blocks[k + 2] in h.used
  {
    var b := h.blocks;
    TilingDrop(b, HDR, pool - HDR, k + 1, r);
    assert NeighbourOk(h.used)(b[k + 1], b[k + 2]);
    AdjacentDrop(b, NeighbourOk(h.used), NeighbourOk(h.used), k + 1, r);
  }

  lemma AbsorbRing(h: Heap, k: int, pool: int)
    requires Structure(h, pool) && IsLive(h, k) && IsFree(h, k + 1)
    ensures FreeRing(Absorb(h, k)) && forall x {:trigger x in h.used} :: x in h.used ==> x in Absorb(h, k).blocks
  {
    var h', x := Absorb(h, k), h.blocks[k + 1];
    assert Distinct(h.blocks) by { TilingIsDistinct(h.blocks, HDR, pool - HDR); }
    DropDistinct(h.blocks, k + 1, h'.blocks);
    RingWithout(h.free, x);
    forall y ensures y in h'.free <==> y in h'.blocks && y !in h.used {
      assert y in h.free <==> y in h.blocks && y !in h.used;
      assert y in h.blocks ==> (y in h'.blocks <==> y != x);
    }
  }

  lemma AbsorbStructure(h: Heap, k: int, pool: int)
    requires Structure(h, pool) && IsLive(h, k) && IsFree(h, k + 1)
    ensures Structure(Absorb(h, k), pool) && h.blocks[k + 2] in h.used
  {
    var r := Drop(h.blocks, k + 1);
    AbsorbBlocks(h, k, pool, r);
    AbsorbRing(h, k, pool);
    assert Absorb(h, k).blocks == r && Absorb(h, k).used == h.used;
  }

  lemma SuccessorIsFree(h: Heap, k: int, pool: int)
    requires Structure(h, pool) && 0 <= k < |h.blocks| - 1 && h.blocks[k + 1] !in h.used
    ensures IsFree(h, k + 1)
  {
    assert h.blocks[k + 1] in h.free <==> h.blocks[k + 1] in h.blocks && h.blocks[k + 1] !in h.used;
  }

  lemma AbsorbBalance(h: Heap, k: int)
    requires Balanced(h) && IsLive(h, k) && IsFree(h, k + 1)
    ensures Balanced(Absorb(h, k))
  {
    SumDrop(h.blocks, FreeWeight(h.used), k + 1, Drop(h.blocks, k + 1));
  }

  lemma AbsorbKeeps(h: Heap, k: int, pool: int)
    requires Inv(h, pool) && IsLive(h, k)
    ensures Inv(Absorb(h, k), pool) && IsLive(Absorb(h, k), k)
    ensures Absorb(h, k).blocks[k] == h.blocks[k] && Absorb(h, k).blocks[k + 1] in h.used
  {
    InvMeans(h, pool);
    if h.blocks[k + 1] !in h.used {
      SuccessorIsFree(h, k, pool);
      AbsorbStructure(h, k, pool);
      AbsorbBalance(h, k);
      InvHolds(Absorb(h, k), pool);
    }
  }

  lemma JoinLeftStructure(h: Heap, k: int, pool: int)
    requires Structure(h, pool) && IsLive(h, k) && h.blocks[k + 1] in h.used
    requires k > 0 && h.blocks[k - 1] !in h.used
    ensures Structure(MarkFree(h, k), pool)
  {
    var b, used' := h.blocks, h.used - {h.blocks[k]};
    var r := Drop(b, k);
    TilingIsDistinct(b, HDR, pool - HDR);
    DropDistinct(b, k, r);
    TilingDrop(b, HDR, pool - HDR, k, r);
    assert Adjacent(r, NeighbourOk(used')) by {
      AdjacentDrop(b, NeighbourOk(h.used), NeighbourOk(used'), k, r);
    }
  }

  lemma NeighboursOfFreed(h: Heap, k: int)
    requires Distinct(h.blocks) && Adjacent(h.blocks, NeighbourOk(h.used)) && IsLive(h, k)
    requires h.blocks[k + 1] in h.used && (k > 0 ==> h.blocks[k - 1] in h.used)
    ensures Adjacent(h.blocks, NeighbourOk(h.used - {h.blocks[k]}))
  {
    var b, used' := h.blocks, h.used - {h.blocks[k]};
    forall i, j | 0 <= i < |b| && j == i + 1 < |b| ensures NeighbourOk(used')(b[i], b[j]) {
      assert NeighbourOk(h.used)(b[i], b[j]);
    }
  }

  lemma PushStructure(h: Heap, k: int, pool: int)
    requires Structure(h, pool) && IsLive(h, k) && h.blocks[k + 1] in h.used
    requires k > 0 ==> h.blocks[k - 1] in h.used
    ensures Structure(MarkFree(h, k), pool)
  {
    TilingIsDistinct(h.blocks, HDR, pool - HDR);
    NeighboursOfFreed(h, k);
    RingPush(h.free, h.blocks[k]);
  }

  lemma MarkFreeBalance(h: Heap, k: int)
    requires Distinct(h.blocks) && Balanced(h) && IsLive(h, k)
    ensures Balanced(MarkFree(h, k))
  {
    var used' := h.used - {h.blocks[k]};
    FreeSumMark(h.blocks, h.used, used', k);
    if k > 0 && h.blocks[k - 1] !in h.used {
      SumDrop(h.blocks, FreeWeight(used'), k, Drop(h.blocks, k));
    }
  }

  lemma MarkFreeKeeps(h: Heap, k: int, pool: int)
    requires Inv(h, pool) && IsLive(h, k) && h.blocks[k + 1] in h.used
    ensures Inv(MarkFree(h, k), pool)
  {
    InvMeans(h, pool);
    assert Balanced(MarkFree(h, k)) by {
      TilingIsDistinct(h.blocks, HDR, pool - HDR);
      MarkFreeBalance(h, k);
    }
    if k > 0 && h.blocks[k - 1] !in h.used {
      JoinLeftStructure(h, k, pool);
    } else {
      PushStructure(h, k, pool);
    }
    InvHolds(MarkFree(h, k), pool);
  }

  lemma SizeAtIs(b: seq<int>, k: nat)
    requires Distinct(b) && k < |b| - 1
    ensures SizeAt(b, b[k]) == Size(b, k)
  {
  }

  /** A ring member is a free block with the size the search reads. */
  lemma FreeMember(h: Heap, pool: int, a: int)
    requires Inv(h, pool) && a in h.free
    ensures a in h.blocks && a >= 0 && IsFree(h, IndexOf(h.blocks, a))
    ensures SizeAt(h.blocks, a) == Size(h.blocks, IndexOf(h.blocks, a))
  {
    InvMeans(h, pool);
    TilingIsDistinct(h.blocks, HDR, pool - HDR);
  }

  lemma InitialInv(pool: int)
    requires pool >= 2 * HDR && Word(pool)
    ensures Inv(Initial(pool), pool)
  {
    var h := Initial(pool);
    assert Sum(h.blocks, FreeWeight(h.used)) ==
        SumTo(h.blocks, FreeWeight(h.used), 0) + FreeWeight(h.used)(0, pool - HDR);
    assert 0 in h.blocks && pool - HDR in h.blocks;
    InvHolds(h, pool);
  }

  lemma WordSum(a: int, size: int)
    requires Word(a) && Word(size)
    ensures Word(a + HDR + size)
  {
  }

  /** Cutting live block k, whose successor is in use, after size data bytes. */
  lemma CutAfter(h: Heap, k: int, size: int, n: int, pool: int)
    requires Inv(h, pool) && IsLive(h, k) && h.blocks[k + 1] in h.used && n == h.blocks[k] + HDR + size
    requires MINIALLOC <= size && Word(size) && size + HDR <= Size(h.blocks, k)
    ensures Inv(Cut(h, k, n), pool)
  {
    InvMeans(h, pool);
    assert Word(h.blocks[k]);
    WordSum(h.blocks[k], size);
    CutKeeps(h, k, n, pool);
  }

  lemma SuccessorOfFree(h: Heap, k: int, pool: int)
    requires Inv(h, pool) && 0 <= k < |h.blocks| - 1 && h.blocks[k] !in h.used
    ensures h.blocks[k + 1] in h.used
  {
    InvMeans(h, pool);
    assert NeighbourOk(h.used)(h.blocks[k], h.blocks[k + 1]);
  }

  lemma AllocBlockKeeps(h: Heap, k: int, size: int, pool: int)
    requires Inv(h, pool) && IsFree(h, k) && MINIALLOC <= size <= Size(h.blocks, k) && Word(size)
    ensures Inv(AllocBlock(h, k, size), pool)
  {
    var h', n := MarkUsed(h, k), h.blocks[k] + HDR + size;
    SuccessorOfFree(h, k, pool);
    if Size(h.blocks, k) >= size + HDR + MINIALLOC {
      assert AllocBlock(h, k, size) == Cut(h', k, n);
      MarkUsedKeeps(h, k, pool);
      CutAfter(h', k, size, n, pool);
    } else {
      MarkUsedKeeps(h, k, pool);
    }
  }

  /** The locked section keeps the invariant whatever has become of available_size since the test. */
  lemma TakeKeeps(h: Heap, request: int, pool: int)
    requires Inv(h, pool) && 0 <= request < U32
    ensures Inv(Take(h, request).0, pool)
  {
    var size := Rounded(request);
    var j := FirstFit(h, size, 0);
    RoundedHolds(request);
    if j < |h.free| {
      FreeMember(h, pool, h.free[j]);
      AllocBlockKeeps(h, IndexOf(h.blocks, h.free[j]), size, pool);
    }
  }

  lemma AllocKeeps(h: Heap, request: int, pool: int)
    requires Inv(h, pool) && 0 <= request < U32
    ensures Inv(Alloc(h, request).0, pool)
  {
    TakeKeeps(h, request, pool);
  }

  lemma TakeFails(h: Heap, request: int, pool: int)
    requires Inv(h, pool) && 0 <= request < U32
    ensures Take(h, request).1 == -1 <==> forall a :: a in h.free ==> SizeAt(h.blocks, a) < Rounded(request)
  {
    var j := FirstFit(h, Rounded(request), 0);
    if j < |h.free| {
      FreeMember(h, pool, h.free[j]);
      assert h.free[j] in h.free;
    }
  }

  /** No free block is larger than available_size. */
  lemma FreeBelowAvailable(h: Heap, pool: int, a: int)
    requires Inv(h, pool) && a in h.free
    ensures SizeAt(h.blocks, a) <= h.available
  {
    FreeMember(h, pool, a);
    InvMeans(h, pool);
    var k, w := IndexOf(h.blocks, a), FreeWeight(h.used);
    forall i | 0 <= i < |h.blocks| - 1 ensures w(h.blocks[i], h.blocks[i + 1]) >= 0 {
      assert h.blocks[i] + HDR <= h.blocks[i + 1];
    }
    SumAtLeast(h.blocks, w, k, |h.blocks| - 1);
  }

  /** The test decides the outcome for exactly one size: the locked section would hand out the last free block,
      which fills available_size, and the test refuses it. */
  lemma TestDecides(h: Heap, request: int, pool: int)
    requires Inv(h, pool) && 0 <= request < U32
    ensures Take(h, request) != Alloc(h, request) <==>
              Rounded(request) == h.available && exists a :: a in h.free && SizeAt(h.blocks, a) >= Rounded(request)
  {
    var size := Rounded(request);
    TakeFails(h, request, pool);
    if size >= h.available {
      if a :| a in h.free && SizeAt(h.blocks, a) >= size {
        FreeBelowAvailable(h, pool, a);
      } else if Take(h, request).1 == -1 {
        assert Take(h, request) == (h, -1);
      }
    }
  }

  /** rt_memheap_alloc fails exactly when the rounded size is not below available_size or no free
      block holds it. */
  lemma AllocFails(h: Heap, request: int, pool: int)
    requires Inv(h, pool) && 0 <= request < U32
    ensures Alloc(h, request).1 == -1 <==>
            Rounded(request) >= h.available || forall a :: a in h.free ==> SizeAt(h.blocks, a) < Rounded(request)
  {
    TakeFails(h, request, pool);
  }

  lemma FreeKeeps(h: Heap, k: int, pool: int)
    requires Inv(h, pool) && IsLive(h, k)
    ensures Inv(Free(h, k), pool)
  {
    AbsorbKeeps(h, k, pool);
    MarkFreeKeeps(Absorb(h, k), k, pool);
  }

  lemma AbsorbGrows(h: Heap, k: int, pool: int)
    requires Inv(h, pool) && IsLive(h, k)
    ensures IsLive(Absorb(h, k), k) && Absorb(h, k).blocks[k] == h.blocks[k]
    ensures Size(Absorb(h, k).blocks, k) ==
            Size(h.blocks, k) + (if IsFree(h, k + 1) then Size(h.blocks, k + 1) + HDR else 0)
    ensures Size(Absorb(h, k).blocks, k) >= Size(h.blocks, k)
  {
    InvMeans(h, pool);
    if IsFree(h, k + 1) {
      assert h.blocks[k + 1] + HDR <= h.blocks[k + 2];
    }
  }

  lemma ShrinkKeeps(h: Heap, k: int, newsize: int, pool: int)
    requires Inv(h, pool) && IsLive(h, k) && MINIALLOC <= newsize && Word(newsize)
    ensures Inv(Shrink(h, k, newsize), pool)
  {
    if newsize + HDR + MINIALLOC < Size(h.blocks, k) {
      var h', n := Absorb(h, k), h.blocks[k] + HDR + newsize;
      AbsorbGrows(h, k, pool);
      assert Shrink(h, k, newsize) == Cut(h', k, n);
      AbsorbKeeps(h, k, pool);
      CutAfter(h', k, newsize, n, pool);
    }
  }

  lemma GrowWithinBounds(h: Heap, k: int, newsize: int, pool: int)
    requires Inv(h, pool) && IsLive(h, k) && CanGrow(h, k, newsize) && Word(newsize)
    requires Size(h.blocks, k) < newsize && MINIALLOC <= newsize && newsize + MINIALLOC < U32
    requires 0 <= h.blocks[k] && h.blocks[k] + HDR + newsize < U32
    ensures Inv(Grow(h, k, newsize), pool)
  {
    var h', n := Absorb(h, k), h.blocks[k] + HDR + newsize;
    AbsorbGrows(h, k, pool);
    assert Grow(h, k, newsize) == Cut(h', k, n) by {
      assert n % U32 == n;
    }
    AbsorbKeeps(h, k, pool);
    CutAfter(h', k, newsize, n, pool);
  }

  lemma GrowWraps(h: Heap, k: int, newsize: int, pool: int)
    requires Inv(h, pool) && pool < U32 && IsLive(h, k) && IsFree(h, k + 1)
    requires U32 - MINIALLOC <= newsize < U32
    ensures !Inv(Grow(h, k, newsize), pool)
  {
    InvMeans(h, pool);
    AbsorbGrows(h, k, pool);
    assert h.blocks[k + 1] + HDR <= h.blocks[k + 2] <= pool - HDR;
    assert NeighbourOk(h.used)(h.blocks[k], h.blocks[k + 1]);
    assert CanGrow(h, k, newsize);
    var r := Grow(h, k, newsize).blocks;
    assert r[k + 1] < r[k] + HDR;
    if Inv(Grow(h, k, newsize), pool) {
      InvMeans(Grow(h, k, newsize), pool);
    }
  }

  /** In-place growth keeps the invariants exactly when newsize + RT_MEMHEAP_MINIALLOC does not
      wrap around or the block behind is in use. */
  lemma GrowKeeps(h: Heap, k: int, newsize: int, pool: int)
    requires Inv(h, pool) && pool < U32 && IsLive(h, k)
    requires Size(h.blocks, k) < newsize < U32 && Word(newsize)
    ensures Inv(Grow(h, k, newsize), pool) <==> newsize + MINIALLOC < U32 || !IsFree(h, k + 1)
  {
    InvMeans(h, pool);
    assert NeighbourOk(h.used)(h.blocks[k], h.blocks[k + 1]);
    if IsFree(h, k + 1) {
      if newsize + MINIALLOC >= U32 {
        GrowWraps(h, k, newsize, pool);
      } else if CanGrow(h, k, newsize) {
        assert h.blocks[0] <= h.blocks[k] && h.blocks[k + 2] <= pool - HDR;
        GrowWithinBounds(h, k, newsize, pool);
      }
    }
  }
}
