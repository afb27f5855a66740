/** The memory heap as its callers see it: the map from live allocations to their data sizes.

    Each section changes exactly the entry it is about, live allocations never overlap, and the
    block list carries no history: it is determined by the live allocations.
  */
module MemHeapLive {
  import opened Seqs
  import opened Rings
  import opened Tiles
  import opened MemHeapSpec
  import opened MemHeapProofs

  /** Header address to data size, for the blocks handed out (the tailer is not one of them). */
  ghost function Live(h: Heap, pool: int): map<int, int> {
    map a | a in h.used && a != pool - HDR :: SizeAt(h.blocks, a)
  }

  lemma LiveBlock(h: Heap, pool: int, x: int) returns (i: nat)
    requires Inv(h, pool) && x in Live(h, pool)
    ensures IsLive(h, i) && h.blocks[i] == x && Live(h, pool)[x] == Size(h.blocks, i)
  {
    InvMeans(h, pool);
    TilingIsDistinct(h.blocks, HDR, pool - HDR);
    i := IndexOf(h.blocks, x);
    SizeAtIs(h.blocks, i);
  }

  /** No two live allocations, headers included, share a byte, and all lie inside the pool. */
  lemma LiveDisjoint(h: Heap, pool: int, x: int, y: int)
    requires Inv(h, pool) && x in Live(h, pool) && y in Live(h, pool) && x < y
    ensures 0 <= x && x + HDR + Live(h, pool)[x] <= y
    ensures y + HDR + Live(h, pool)[y] <= pool - HDR
  {
    var i := LiveBlock(h, pool, x);
    var j := LiveBlock(h, pool, y);
    InvMeans(h, pool);
    assert i + 1 < j ==> h.blocks[i + 1] < h.blocks[j];
    assert j + 1 < |h.blocks| - 1 ==> h.blocks[j + 1] < h.blocks[|h.blocks| - 1];
  }

  lemma SizesAfterInsert(b: seq<int>, k: nat, n: int, r: seq<int>)
    requires Distinct(b) && Distinct(r) && k < |b| - 1 && IsInsert(b, k + 1, n, r)
    ensures SizeAt(r, b[k]) == n - b[k] - HDR
    ensures forall x :: x in b && x != b[k] ==> SizeAt(r, x) == SizeAt(b, x)
  {
    assert r[k] == b[k];
    SizeAtIs(r, k);
    forall x | x in b && x != b[k] ensures SizeAt(r, x) == SizeAt(b, x) {
      var i := IndexOf(b, x);
      var j := if i < k then i else i + 1;
      assert r[j] == x;
      if i < |b| - 1 {
        SizeAtIs(r, j);
        assert r[j + 1] == b[i + 1];
      }
    }
  }

  lemma SizesAfterDrop(b: seq<int>, k: nat, r: seq<int>)
    requires Distinct(b) && Distinct(r) && 0 < k < |b| - 1 && IsDrop(b, k, r)
    ensures SizeAt(r, b[k - 1]) == b[k + 1] - b[k - 1] - HDR
    ensures forall x :: x in b && x != b[k] && x != b[k - 1] ==> SizeAt(r, x) == SizeAt(b, x)
  {
    assert IsInsert(r, k, b[k], b);
    assert r[k - 1] == b[k - 1] && r[k] == b[k + 1];
    SizeAtIs(r, k - 1);
    SizesAfterInsert(r, k - 1, b[k], b);
    DropDistinct(b, k, r);
  }

  lemma Overwrite(m: map<int, int>, a: int, x: int, y: int)
    ensures m[a := x][a := y] == m[a := y]
  {
  }

  lemma AddThenRemove(m: map<int, int>, a: int, x: int)
    requires a !in m
    ensures m[a := x] - {a} == m
  {
  }

  /** What the entries depend on. */
  ghost predicate Proper(h: Heap, pool: int) {
    && Distinct(h.blocks) && |h.blocks| > 0 && h.blocks[|h.blocks| - 1] == pool - HDR
    && forall x {:trigger x in h.used} :: x in h.used ==> x in h.blocks
  }

  lemma ProperHeap(h: Heap, pool: int)
    requires Inv(h, pool)
    ensures Proper(h, pool)
  {
    InvMeans(h, pool);
    TilingIsDistinct(h.blocks, HDR, pool - HDR);
  }

  /** An offset inside a block is not the start of one. */
  lemma InsideBlock(h: Heap, k: nat, n: int, pool: int)
    requires Inv(h, pool) && k < |h.blocks| - 1 && h.blocks[k] < n < h.blocks[k + 1]
    ensures n !in h.blocks
  {
    InvMeans(h, pool);
  }

  lemma LiveAfterMarkUsed(h: Heap, k: int, pool: int)
    requires Proper(h, pool) && IsFree(h, k)
    ensures Proper(MarkUsed(h, k), pool)
    ensures Live(MarkUsed(h, k), pool) == Live(h, pool)[h.blocks[k] := Size(h.blocks, k)]
  {
    SizeAtIs(h.blocks, k);
  }

  lemma LiveAfterCut(h: Heap, k: int, n: int, h': Heap, pool: int)
    requires Proper(h, pool) && IsLive(h, k) && n !in h.blocks && h' == Cut(h, k, n)
    ensures Live(h', pool) == Live(h, pool)[h.blocks[k] := n - h.blocks[k] - HDR]
  {
    var r := h'.blocks;
    assert SizeAt(r, h.blocks[k]) == n - h.blocks[k] - HDR &&
           forall x :: x in h.blocks && x != h.blocks[k] ==> SizeAt(r, x) == SizeAt(h.blocks, x) by {
      InsertDistinct(h.blocks, k + 1, n, r);
      SizesAfterInsert(h.blocks, k, n, r);
    }
  }

  lemma LiveAfterAbsorb(h: Heap, k: int, pool: int)
    requires Proper(h, pool) && IsLive(h, k)
    ensures IsLive(Absorb(h, k), k) && Proper(Absorb(h, k), pool) && Absorb(h, k).blocks[k] == h.blocks[k]
    ensures Live(Absorb(h, k), pool) == Live(h, pool)[h.blocks[k] := Size(Absorb(h, k).blocks, k)]
  {
    if IsFree(h, k + 1) {
      ProperAfterAbsorb(h, k, pool);
      SizesAfterAbsorb(h, k, pool);
    } else {
      SizeAtIs(h.blocks, k);
    }
  }

  lemma SizesAfterAbsorb(h: Heap, k: int, pool: int)
    requires Proper(h, pool) && IsLive(h, k) && IsFree(h, k + 1)
    ensures Live(Absorb(h, k), pool) == Live(h, pool)[h.blocks[k] := Size(Absorb(h, k).blocks, k)]
  {
    ProperAfterAbsorb(h, k, pool);
    var r := Absorb(h, k).blocks;
    assert forall x :: x in h.blocks && x != h.blocks[k + 1] && x != h.blocks[k] ==>
                           SizeAt(r, x) == SizeAt(h.blocks, x) by {
      SizesAfterDrop(h.blocks, k + 1, r);
    }
    SizeAtIs(r, k);
    OneSizeChanged(h, Absorb(h, k), pool, h.blocks[k], Size(r, k));
  }

  lemma OneSizeChanged(h: Heap, h': Heap, pool: int, a: int, n: int)
    requires h'.used == h.used && a in h.used && a != pool - HDR && SizeAt(h'.blocks, a) == n
    requires forall x :: x in h.used && x != a ==> SizeAt(h'.blocks, x) == SizeAt(h.blocks, x)
    ensures Live(h', pool) == Live(h, pool)[a := n]
  {
  }

  lemma ProperAfterAbsorb(h: Heap, k: int, pool: int)
    requires Proper(h, pool) && IsLive(h, k) && IsFree(h, k + 1)
    ensures IsLive(Absorb(h, k), k) && Proper(Absorb(h, k), pool) && Absorb(h, k).blocks[k] == h.blocks[k]
  {
    DropDistinct(h.blocks, k + 1, Absorb(h, k).blocks);
  }

  lemma LiveAfterMarkFree(h: Heap, k: int, pool: int)
    requires Proper(h, pool) && IsLive(h, k)
    ensures Live(MarkFree(h, k), pool) == Live(h, pool) - {h.blocks[k]}
  {
    if k > 0 && h.blocks[k - 1] !in h.used {
      DropDistinct(h.blocks, k, MarkFree(h, k).blocks);
      SizesAfterDrop(h.blocks, k, MarkFree(h, k).blocks);
    }
  }

  /** A successful allocation adds one entry, of at least the rounded size and with less slack
      than another allocation would need; a failed one changes nothing. */
  lemma AllocLive(h: Heap, request: int, pool: int)
    requires Inv(h, pool) && 0 <= request < U32
    ensures var (h', a) := Alloc(h, request);
            if a == -1 then h' == h
            else
              && a !in Live(h, pool) && a in Live(h', pool)
              && Live(h', pool) == Live(h, pool)[a := Live(h', pool)[a]]
              && Rounded(request) <= Live(h', pool)[a] < Rounded(request) + HDR + MINIALLOC
  {
    var (h', a) := Alloc(h, request);
    var j := FirstFit(h, Rounded(request), 0);
    if j < |h.free| {
      FreeMember(h, pool, h.free[j]);
    }
    if a != -1 {
      RoundedHolds(request);
      AllocBlockLive(h, IndexOf(h.blocks, a), Rounded(request), pool);
    }
  }

  lemma AllocBlockLive(h: Heap, k: int, size: int, pool: int)
    requires Inv(h, pool) && IsFree(h, k) && MINIALLOC <= size <= Size(h.blocks, k)
    ensures var whole := Size(h.blocks, k);
            Live(AllocBlock(h, k, size), pool) ==
            Live(h, pool)[h.blocks[k] := if whole >= size + HDR + MINIALLOC then size else whole]
  {
    var h', n := MarkUsed(h, k), h.blocks[k] + HDR + size;
    ProperHeap(h, pool);
    LiveAfterMarkUsed(h, k, pool);
    if Size(h.blocks, k) >= size + HDR + MINIALLOC {
      assert AllocBlock(h, k, size) == Cut(h', k, n);
      InsideBlock(h, k, n, pool);
      LiveAfterCut(h', k, n, Cut(h', k, n), pool);
    }
  }

  /** Freeing removes one entry. */
  lemma FreeLive(h: Heap, k: int, pool: int)
    requires Inv(h, pool) && IsLive(h, k)
    ensures Live(Free(h, k), pool) == Live(h, pool) - {h.blocks[k]}
  {
    ProperHeap(h, pool);
    LiveAfterAbsorb(h, k, pool);
    LiveAfterMarkFree(Absorb(h, k), k, pool);
  }

  lemma LiveAfterAbsorbAndCut(h: Heap, k: int, n: int, size: int, pool: int)
    requires Proper(h, pool) && IsLive(h, k) && n !in Absorb(h, k).blocks && n == h.blocks[k] + HDR + size
    ensures IsLive(Absorb(h, k), k)
    ensures Live(Cut(Absorb(h, k), k, n), pool) == Live(h, pool)[h.blocks[k] := size]
  {
    var h' := Absorb(h, k);
    LiveAfterAbsorb(h, k, pool);
    Overwrite(Live(h, pool), h.blocks[k], Size(h'.blocks, k), size);
    LiveAfterCut(h', k, n, Cut(h', k, n), pool);
  }

  /** Moving the end of live block k, the free block behind it included, to n. */
  lemma ResizeLive(h: Heap, k: int, n: int, newsize: int, pool: int)
    requires Inv(h, pool) && IsLive(h, k) && -HDR < newsize && n == h.blocks[k] + HDR + newsize
    requires IsLive(Absorb(h, k), k) && n < Absorb(h, k).blocks[k + 1]
    ensures Live(Cut(Absorb(h, k), k, n), pool) == Live(h, pool)[h.blocks[k] := newsize]
  {
    AbsorbKeeps(h, k, pool);
    InsideBlock(Absorb(h, k), k, n, pool);
    ProperHeap(h, pool);
    LiveAfterAbsorbAndCut(h, k, n, newsize, pool);
  }

  /** Growing in place sets one entry to the new size, or changes nothing. */
  lemma GrowLive(h: Heap, k: int, newsize: int, pool: int)
    requires Inv(h, pool) && pool < U32 && IsLive(h, k)
    requires Size(h.blocks, k) < newsize && newsize + MINIALLOC < U32
    ensures if CanGrow(h, k, newsize) then Live(Grow(h, k, newsize), pool) == Live(h, pool)[h.blocks[k] := newsize]
            else Grow(h, k, newsize) == h
  {
    if CanGrow(h, k, newsize) {
      AbsorbGrows(h, k, pool);
      var n := h.blocks[k] + HDR + newsize;
      assert 0 <= n < U32 && -HDR < newsize by {
        InvMeans(h, pool);
        assert h.blocks[0] <= h.blocks[k] && h.blocks[k + 2] <= pool - HDR && h.blocks[k] + HDR <= h.blocks[k + 1];
      }
      assert Grow(h, k, newsize) == Cut(Absorb(h, k), k, n);
      ResizeLive(h, k, n, newsize, pool);
    }
  }

  /** Shrinking sets one entry to the new size, or changes nothing. */
  lemma ShrinkLive(h: Heap, k: int, newsize: int, pool: int)
    requires Inv(h, pool) && IsLive(h, k) && 0 <= newsize
    ensures if newsize + HDR + MINIALLOC < Size(h.blocks, k)
            then Live(Shrink(h, k, newsize), pool) == Live(h, pool)[h.blocks[k] := newsize]
            else Shrink(h, k, newsize) == h
  {
    if newsize + HDR + MINIALLOC < Size(h.blocks, k) {
      AbsorbGrows(h, k, pool);
      var n := h.blocks[k] + HDR + newsize;
      assert Shrink(h, k, newsize) == Cut(Absorb(h, k), k, n);
      ResizeLive(h, k, n, newsize, pool);
    }
  }

  // ---------- The block list is determined by the live allocations ----------

  lemma SameUsed(g: Heap, h: Heap, pool: int)
    requires Inv(g, pool) && Inv(h, pool) && Live(g, pool) == Live(h, pool)
    ensures g.used == h.used
  {
    InvMeans(g, pool);
    InvMeans(h, pool);
    assert g.used == Live(g, pool).Keys + {pool - HDR};
    assert h.used == Live(h, pool).Keys + {pool - HDR};
  }

  /** A used header beyond block i - 1 does not come before block i. */
  lemma NextUsed(h: Heap, pool: int, i: nat, y: int)
    requires Inv(h, pool) && 0 < i < |h.blocks| && y in h.used && h.blocks[i - 1] < y
    ensures h.blocks[i] <= y
  {
    InvMeans(h, pool);
    var j := IndexOf(h.blocks, y);
    if i < j {
      assert h.blocks[i] <= h.blocks[j];
    }
  }

  /** Offsets increase, and exactly the last one is the tailer's. */
  lemma NotTheTailer(h: Heap, pool: int, i: nat)
    requires Inv(h, pool) && i < |h.blocks|
    ensures i < |h.blocks| - 1 <==> h.blocks[i] != pool - HDR
    ensures i < |h.blocks| - 1 ==> h.blocks[i] < h.blocks[i + 1]
  {
    InvMeans(h, pool);
  }

  lemma FirstBlock(h: Heap, pool: int)
    requires Inv(h, pool)
    ensures |h.blocks| >= 2 && h.blocks[0] == 0
  {
    InvMeans(h, pool);
  }

  lemma {:induction false} SameBlock(g: Heap, h: Heap, pool: int, i: nat)
    requires Inv(g, pool) && Inv(h, pool) && Live(g, pool) == Live(h, pool) && i < |g.blocks|
    ensures i < |h.blocks| && g.blocks[i] == h.blocks[i]
  {
    FirstBlock(g, pool);
    FirstBlock(h, pool);
    if i > 0 {
      SameBlock(g, h, pool, i - 1);
      SameUsed(g, h, pool);
      var x, y := g.blocks[i - 1], g.blocks[i];
      NotTheTailer(g, pool, i - 1);
      NotTheTailer(h, pool, i - 1);
      if x in g.used {
        ProperHeap(g, pool);
        ProperHeap(h, pool);
        SizeAtIs(g.blocks, i - 1);
        SizeAtIs(h.blocks, i - 1);
        assert Live(g, pool)[x] == Live(h, pool)[x];
      } else {
        SuccessorOfFree(g, i - 1, pool);
        SuccessorOfFree(h, i - 1, pool);
        NextUsed(h, pool, i, y);
        NextUsed(g, pool, i, h.blocks[i]);
      }
    }
  }

  /** Two heaps with the same live allocations have the same blocks, the same free blocks and the
      same available_size, whatever happened before. */
  lemma CanonicalBlocks(g: Heap, h: Heap, pool: int)
    requires Inv(g, pool) && Inv(h, pool) && Live(g, pool) == Live(h, pool)
    ensures g.blocks == h.blocks && g.used == h.used && g.available == h.available
    ensures forall x :: x in g.free <==> x in h.free
  {
    SameUsed(g, h, pool);
    forall i | 0 <= i < |g.blocks| ensures i < |h.blocks| && g.blocks[i] == h.blocks[i] {
      SameBlock(g, h, pool, i);
    }
    FirstBlock(h, pool);
    SameBlock(h, g, pool, |h.blocks| - 1);
    InvMeans(g, pool);
    InvMeans(h, pool);
  }

  lemma FreeRestores(h: Heap, h': Heap, k: int, pool: int)
    requires Inv(h, pool) && Inv(h', pool) && IsLive(h', k)
    requires h'.blocks[k] !in Live(h, pool) && Live(h', pool) - {h'.blocks[k]} == Live(h, pool)
    ensures Inv(Free(h', k), pool) && Free(h', k).blocks == h.blocks && Free(h', k).used == h.used
    ensures Free(h', k).available == h.available && forall x :: x in Free(h', k).free <==> x in h.free
  {
    FreeKeeps(h', k, pool);
    FreeLive(h', k, pool);
    CanonicalBlocks(Free(h', k), h, pool);
  }

  /** Freeing what was just allocated restores the block list. */
  lemma AllocThenFree(h: Heap, request: int, pool: int, h': Heap, a: int)
    requires Inv(h, pool) && 0 <= request < U32 && (h', a) == Alloc(h, request) && a != -1
    ensures exists k :: IsLive(h', k) && h'.blocks[k] == a
    ensures forall k :: IsLive(h', k) && h'.blocks[k] == a ==>
              var h'' := Free(h', k);
              && h''.blocks == h.blocks && h''.used == h.used && h''.available == h.available
              && (forall x :: x in h''.free <==> x in h.free)
  {
    AllocKeeps(h, request, pool);
    AllocLive(h, request, pool);
    AddThenRemove(Live(h, pool), a, Live(h', pool)[a]);
    ProperHeap(h', pool);
    assert IsLive(h', IndexOf(h'.blocks, a));
    forall k | IsLive(h', k) && h'.blocks[k] == a
      ensures var h'' := Free(h', k);
              && h''.blocks == h.blocks && h''.used == h.used && h''.available == h.available
              && (forall x :: x in h''.free <==> x in h.free)
    {
      FreeRestores(h, h', k, pool);
    }
  }
}
