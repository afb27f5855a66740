/** The memory heap of src/memheap.c with its links.

    Block headers live in the pool; the model keeps the header fields in maps from header address
    to value, so that writing a link is a map update.  Every method is proved to do what the
    corresponding function of MemHeapSpec does to the block list and the free ring.
  */
module MemHeapLinks {
  import opened Seqs
  import opened Rings
  import opened Tiles
  import opened MemHeapSpec
  import opened MemHeapProofs
  import opened MemHeapRuns
  import opened MemHeapRealloc
  import opened Memory

  const HEADER := -1    // the address of free_header, which lies outside the pool
  const NULL := 0       // no allocation: data addresses are at least HDR

  /** The header of the block that a pointer leads to, or -1. */
  function HeaderOf(ptr: int): int {
    if ptr == NULL then -1 else ptr - HDR
  }

  /** What the split and take-out assignments leave behind. */
  ghost function HandedOut(h: Heap, k: nat, header: int, freeSize: int, size: int): Heap
    requires k < |h.blocks| && header in h.free
  {
    if freeSize >= size + HDR + MINIALLOC
    then Heap(Insert(h.blocks, k + 1, header + size + HDR), h.used + {header},
              [header + size + HDR] + Without(h.free, header), h.available - size - HDR)
    else Heap(h.blocks, h.used + {header}, Without(h.free, header), h.available - freeSize)
  }

  /** An address inside a block is no header yet. */
  lemma FreshHeader(h: Heap, k: int, n: int, pool: int)
    requires Inv(h, pool) && 0 <= k < |h.blocks| - 1 && h.blocks[k] < n < h.blocks[k + 1]
    ensures n !in h.blocks && n !in h.free && n > 0 && h.blocks[k] >= 0
  {
    InvMeans(h, pool);
    assert h.blocks[0] <= h.blocks[k];
  }

  lemma HandedOutIsAllocBlock(h: Heap, k: int, size: int)
    requires IsFree(h, k)
    ensures HandedOut(h, k, h.blocks[k], Size(h.blocks, k), size) == AllocBlock(h, k, size)
  {
  }

  /** What rt_memheap_alloc will do once its search has found header. */
  lemma AllocPlan(h: Heap, request: int, size: int, header: int, pool: int) returns (k: nat)
    requires Inv(h, pool) && 0 <= request < U32 && size == Rounded(request)
    requires FirstFit(h, size, 0) < |h.free| && header == h.free[FirstFit(h, size, 0)]
    ensures k < |h.blocks| && h.blocks[k] == header >= 0 && header in h.free
    ensures Take(h, request) == (HandedOut(h, k, header, SizeAt(h.blocks, header), size), header)
    ensures Inv(HandedOut(h, k, header, SizeAt(h.blocks, header), size), pool)
    ensures SizeAt(h.blocks, header) >= size + HDR + MINIALLOC ==>
              header + size + HDR !in h.blocks && header + size + HDR !in h.free
  {
    FreeMember(h, pool, header);
    k := IndexOf(h.blocks, header);
    RoundedHolds(request);
    HandedOutIsAllocBlock(h, k, size);
    AllocBlockKeeps(h, k, size, pool);
    if SizeAt(h.blocks, header) >= size + HDR + MINIALLOC {
      FreshHeader(h, k, header + size + HDR, pool);
    }
  }

  ghost predicate LeftIsFree(h: Heap, k: nat) {
    0 < k < |h.blocks| && h.blocks[k - 1] !in h.used
  }

  /** rt_memheap_free up to the left merge. */
  ghost function LeftMerged(h: Heap, k: nat): Heap
    requires k < |h.blocks| - 1
  {
    var used' := h.used - {h.blocks[k]};
    if LeftIsFree(h, k)
    then Heap(Drop(h.blocks, k), used', h.free, h.available + Size(h.blocks, k) + HDR)
    else Heap(h.blocks, used', h.free, h.available + Size(h.blocks, k))
  }

  /** The right merge of rt_memheap_free. */
  ghost function RightMerged(h: Heap, i: nat): Heap
    requires i < |h.blocks| - 1 && (h.blocks[i + 1] !in h.used ==> h.blocks[i + 1] in h.free)
  {
    if h.blocks[i + 1] in h.used then h
    else Heap(Drop(h.blocks, i + 1), h.used, Without(h.free, h.blocks[i + 1]), h.available + HDR)
  }

  /** What the assignments of rt_memheap_free leave behind: the left neighbour is merged first. */
  ghost function Freed(h: Heap, k: nat): Heap
    requires k < |h.blocks| - 1 && Distinct(h.blocks)
    requires h.blocks[k + 1] !in h.used ==> h.blocks[k + 1] in h.free
  {
    if LeftIsFree(h, k) then RightMerged(LeftMerged(h, k), k - 1)
    else
      var h' := RightMerged(LeftMerged(h, k), k);
      h'.(free := [h.blocks[k]] + h'.free)
  }

  lemma DropsCommute(b: seq<int>, k: nat)
    requires k + 1 < |b|
    ensures Drop(Drop(b, k + 1), k) == Drop(Drop(b, k), k)
  {
  }

  lemma FreedIsFree(h: Heap, k: nat)
    requires IsLive(h, k) && Distinct(h.blocks) && (h.blocks[k + 1] !in h.used ==> IsFree(h, k + 1))
    ensures Freed(h, k) == Free(h, k)
  {
    if IsFree(h, k + 1) {
      DropsCommute(h.blocks, k);
    }
  }

  lemma FreePlan(h: Heap, k: nat, pool: int)
    requires Inv(h, pool) && IsLive(h, k)
    ensures h.blocks[k + 1] !in h.used ==> IsFree(h, k + 1)
    ensures h.blocks[k] !in h.free && h.blocks[|h.blocks| - 1] in h.used && Distinct(h.blocks) && HEADER !in h.blocks
    ensures Freed(h, k) == Free(h, k) && Inv(Free(h, k), pool)
  {
    LiveFacts(h, k, pool);
    FreedIsFree(h, k);
    FreeKeeps(h, k, pool);
  }

  /** Block k ends at n now; the rest up to the next used block is one free block. */
  ghost function Resized(h: Heap, k: nat, n: int): Heap
    requires k + 1 < |h.blocks|
    requires h.blocks[k + 1] !in h.used ==> h.blocks[k + 1] in h.free && k + 2 < |h.blocks|
  {
    var right := h.blocks[k + 1];
    if right in h.used then
      Heap(Insert(h.blocks, k + 1, n), h.used, [n] + h.free, h.available + right - n - HDR)
    else
      Heap(Insert(Drop(h.blocks, k + 1), k + 1, n), h.used, [n] + Without(h.free, right),
           h.available - Size(h.blocks, k + 1) + h.blocks[k + 2] - n - HDR)
  }

  lemma ResizedIsCut(h: Heap, k: nat, n: int)
    requires IsLive(h, k) && (h.blocks[k + 1] !in h.used ==> IsFree(h, k + 1))
    ensures IsLive(Absorb(h, k), k) && Resized(h, k, n) == Cut(Absorb(h, k), k, n)
  {
  }

  lemma SplitThenJoin(b: seq<int>, k: nat, n: int)
    requires k + 2 < |b|
    ensures Drop(Insert(b, k + 1, n), k + 2) == Insert(Drop(b, k + 1), k + 1, n)
  {
  }

  /** The facts about live block k that the resizing sections of rt_memheap_realloc rely on. */
  lemma ResizePlan(h: Heap, k: nat, pool: int)
    requires Inv(h, pool) && IsLive(h, k)
    ensures h.blocks[k + 1] !in h.used ==> IsFree(h, k + 1)
    ensures HEADER !in h.blocks && h.blocks[k] >= 0 && Size(h.blocks, k) >= MINIALLOC && Distinct(h.blocks)
    ensures h.blocks[k + 1] !in h.used ==> h.blocks[k + 1] + HDR <= h.blocks[k + 2] <= pool - HDR
    ensures forall n :: h.blocks[k] < n < h.blocks[k + 1] ==> n !in h.blocks && n !in h.free
    ensures forall n :: IsFree(h, k + 1) && h.blocks[k + 1] < n < h.blocks[k + 2] ==> n !in h.blocks && n !in h.free
  {
    LiveFacts(h, k, pool);
    InvMeans(h, pool);
    assert NeighbourOk(h.used)(h.blocks[k], h.blocks[k + 1]);
    forall n | h.blocks[k] < n < h.blocks[k + 1] ensures n !in h.blocks && n !in h.free {
      FreshHeader(h, k, n, pool);
    }
    if IsFree(h, k + 1) {
      assert k + 2 < |h.blocks| - 1 ==> h.blocks[k + 2] < h.blocks[|h.blocks| - 1];
      forall n | h.blocks[k + 1] < n < h.blocks[k + 2] ensures n !in h.blocks && n !in h.free {
        FreshHeader(h, k + 1, n, pool);
      }
    }
  }

  lemma GrowForm(h: Heap, k: nat, newsize: int, n: int)
    requires IsLive(h, k) && CanGrow(h, k, newsize) && n == h.blocks[k] + HDR + newsize && 0 <= n < U32
    ensures Grow(h, k, newsize) == Resized(h, k, n)
    ensures Resized(h, k, n).available == h.available - (newsize - Size(h.blocks, k))
  {
    ResizedIsCut(h, k, n);
  }

  /** What growing live block k in place amounts to when the test passes. */
  lemma GrowPlan(h: Heap, k: nat, newsize: int, n: int, pool: int)
    requires Inv(h, pool) && pool < U32 && IsLive(h, k) && Word(newsize) && Size(h.blocks, k) < newsize
    requires newsize + MINIALLOC < U32 && CanGrow(h, k, newsize) && n == h.blocks[k] + HDR + newsize
    ensures n !in h.blocks && n !in h.free && n > 0
    ensures Grow(h, k, newsize) == Resized(h, k, n) && Inv(Grow(h, k, newsize), pool)
    ensures Resized(h, k, n).available == h.available - (newsize - Size(h.blocks, k))
  {
    assert h.blocks[k + 1] < n < h.blocks[k + 2] && 0 < n < U32 && n !in h.blocks && n !in h.free by {
      ResizePlan(h, k, pool);
    }
    GrowForm(h, k, newsize, n);
    assert Inv(Grow(h, k, newsize), pool) by {
      GrowKeeps(h, k, newsize, pool);
    }
  }

  lemma GrowReady(h: Heap, k: nat, newsize: int, n: int, pool: int)
    requires Inv(h, pool) && pool < U32 && IsLive(h, k) && Word(newsize) && n == h.blocks[k] + HDR + newsize
    requires Size(h.blocks, k) < newsize < U32 && (newsize + MINIALLOC < U32 || !IsFree(h, k + 1))
    ensures Inv(Grow(h, k, newsize), pool)
    ensures h.blocks[k + 1] !in h.used ==> IsFree(h, k + 1) && h.blocks[k + 1] != HEADER
    ensures CanGrow(h, k, newsize) ==> n !in h.blocks && n !in h.free && n != HEADER
    ensures CanGrow(h, k, newsize) ==> Resized(h, k, n).available == h.available - (newsize - Size(h.blocks, k))
    ensures Grow(h, k, newsize) == if CanGrow(h, k, newsize) then Resized(h, k, n) else h
  {
    LiveFacts(h, k, pool);
    if CanGrow(h, k, newsize) {
      GrowPlan(h, k, newsize, n, pool);
    }
  }

  lemma ShrinkReady(h: Heap, k: nat, newsize: int, n: int, pool: int)
    requires Inv(h, pool) && IsLive(h, k) && Word(newsize) && MINIALLOC <= newsize && n == h.blocks[k] + HDR + newsize
    requires newsize + HDR + MINIALLOC < Size(h.blocks, k)
    ensures h.blocks[k + 1] !in h.used ==> IsFree(h, k + 1) && h.blocks[k + 1] != HEADER
    ensures n !in h.blocks && n !in h.free && n != HEADER
    ensures Shrink(h, k, newsize) == Resized(h, k, n) && Inv(Shrink(h, k, newsize), pool)
  {
    LiveFacts(h, k, pool);
    ResizedIsCut(h, k, n);
    FreshHeader(h, k, n, pool);
    ShrinkKeeps(h, k, newsize, pool);
  }

  class MemHeap {
    const poolSize: int
    var availableSize: int
    var maxUsedSize: int
    var next: map<int, int>
    var prev: map<int, int>
    var nextFree: map<int, int>
    var prevFree: map<int, int>
    var used: set<int>          // the headers whose magic word carries RT_MEMHEAP_USED
    ghost var blocks: seq<int>
    ghost var free: seq<int>

    ghost function Abs(): Heap
      reads this
    {
      Heap(blocks, used, free, availableSize)
    }

    ghost function AsPool(): Pool
      reads this
    {
      Pool(Abs(), maxUsedSize)
    }

    /** next and prev spell out the block list, next_free and prev_free the free ring. */
    ghost predicate Linked()
      reads this
    {
      IsRing(next, prev, blocks) && IsRing(nextFree, prevFree, [HEADER] + free)
    }

    ghost predicate Valid()
      reads this
    {
      Linked() && Inv(Abs(), poolSize) && poolSize < U32
    }

    /** rt_memheap_init */
    constructor (size: int)
      requires 2 * HDR <= size < U32
      ensures Valid() && poolSize == size / 4 * 4
      ensures Abs() == Initial(poolSize) && maxUsedSize == 2 * HDR
    {
      poolSize := size / 4 * 4;
      availableSize := size / 4 * 4 - 2 * HDR;
      maxUsedSize := 2 * HDR;
      var tailer := size / 4 * 4 - HDR;
      next := map[0 := tailer, tailer := 0];
      prev := map[0 := tailer, tailer := 0];
      nextFree := map[HEADER := 0, 0 := HEADER];
      prevFree := map[HEADER := 0, 0 := HEADER];
      used := {tailer};
      blocks := [0, tailer];
      free := [0];
      new;
      InitialInv(poolSize);
      assert [HEADER] + free == [HEADER, 0];
    }

    /** Takes a header out of the free ring. */
    method UnlinkFree(a: int)
      requires Linked() && a in free && a != HEADER
      modifies this`nextFree, this`prevFree, this`free
      ensures Linked() && free == Without(old(free), a)
    {
      ghost var j := IndexOf(free, a);
      ghost var ring, rest := [HEADER] + free, [HEADER] + Drop(free, j);
      assert ring[j + 1] == a;
      assert IsDrop(ring, j + 1, rest);
      DropLinks(nextFree, prevFree, ring, j + 1, rest);
      var n, p := nextFree[a], prevFree[a];
      prevFree := prevFree[n := p];
      nextFree := nextFree[p := n];
      free := Drop(free, j);
    }

    /** Puts a header behind the ring's head. */
    method LinkFree(a: int)
      requires Linked() && a !in free && a != HEADER
      modifies this`nextFree, this`prevFree, this`free
      ensures Linked() && free == [a] + old(free)
    {
      ghost var ring, more := [HEADER] + free, [HEADER] + ([a] + free);
      assert ring[0] == HEADER;
      assert a !in ring;
      assert IsInsert(ring, 1, a, more);
      InsertLinks(nextFree, prevFree, ring, 0, a, more);
      var first := nextFree[HEADER];
      nextFree := nextFree[a := first];
      prevFree := prevFree[first := a][a := HEADER];
      nextFree := nextFree[HEADER := a];
      free := [a] + free;
    }

    /** Links header n in behind header a, the k-th block. */
    method SplitBlock(a: int, n: int, ghost k: nat)
      requires Linked() && k < |blocks| && blocks[k] == a && n !in blocks
      modifies this`next, this`prev, this`blocks
      ensures Linked() && blocks == Insert(old(blocks), k + 1, n)
    {
      InsertLinks(next, prev, blocks, k, n, Insert(blocks, k + 1, n));
      var right := next[a];
      next := next[n := right];
      prev := prev[right := n][n := a];
      next := next[a := n];
      blocks := Insert(blocks, k + 1, n);
    }

    /** Takes header a, the k-th block, out of the block list: the block in front of it grows. */
    method JoinBlock(a: int, ghost k: nat)
      requires Linked() && k < |blocks| && |blocks| > 1 && blocks[k] == a
      modifies this`next, this`prev, this`blocks
      ensures Linked() && blocks == Drop(old(blocks), k)
    {
      DropLinks(next, prev, blocks, k, Drop(blocks, k));
      var right, left := next[a], prev[a];
      next := next[left := right];
      prev := prev[right := left];
      blocks := Drop(blocks, k);
    }

    /** The links of the k-th block are its neighbours in the list; only the first one has the
        tailer in front of it. */
    lemma Neighbours(k: nat)
      requires Linked() && k < |blocks| - 1
      ensures blocks[k] in next && next[blocks[k]] == blocks[k + 1]
      ensures blocks[k] in prev && prev[blocks[k]] == (if k == 0 then blocks[|blocks| - 1] else blocks[k - 1])
    {
    }

    /** MEMITEM_SIZE reads the size of every ring member off the links. */
    ghost predicate SizesReadable()
      reads this
    {
      forall a :: a in free ==> a in next && next[a] - a - HDR == SizeAt(blocks, a)
    }

    lemma SizesAreReadable()
      requires Valid()
      ensures SizesReadable()
    {
      forall a | a in free ensures a in next && next[a] - a - HDR == SizeAt(blocks, a) {
        FreeMember(Abs(), poolSize, a);
        Neighbours(IndexOf(blocks, a));
      }
    }

    /** The search loop of rt_memheap_alloc: walks the ring up to the first block that holds size
        bytes.  found is its header, or HEADER when the ring has none. */
    method Search(size: int) returns (found: int, freeSize: int)
      requires NextLinks(nextFree, [HEADER] + free) && HEADER !in free && SizesReadable() && size > 0
      ensures var j := FirstFit(Abs(), size, 0);
              if j < |free| then found == free[j] && freeSize == SizeAt(blocks, found) && freeSize >= size
              else freeSize < size
    {
      freeSize := 0;
      ghost var ring := [HEADER] + free;
      ghost var j := 0;
      assert ring[0] == HEADER && nextFree[ring[0]] == ring[After(0, |ring|)];
      found := nextFree[HEADER];
      while found != HEADER && freeSize < size
        invariant 0 <= j <= |free| && found == ring[After(j, |ring|)]
        invariant freeSize < size ==> FirstFit(Abs(), size, 0) == FirstFit(Abs(), size, j)
        invariant freeSize >= size ==>
                  j < |free| && FirstFit(Abs(), size, 0) == j && freeSize == SizeAt(blocks, free[j])
        decreases |free| - j, size - freeSize
      {
        assert found == free[j];
        freeSize := next[found] - found - HDR;
        if freeSize < size {
          assert nextFree[ring[j + 1]] == ring[After(j + 1, |ring|)];
          found := nextFree[found];
          j := j + 1;
        }
      }
      assert found == HEADER ==> j == |free|;
    }

    /** Raises max_used_size after available_size went down. */
    method NotePeak()
      modifies this`maxUsedSize
      ensures maxUsedSize ==
                if poolSize - availableSize > old(maxUsedSize) then poolSize - availableSize else old(maxUsedSize)
    {
      if poolSize - availableSize > maxUsedSize {
        maxUsedSize := poolSize - availableSize;
      }
    }

    /** The split and take-out part of rt_memheap_alloc. */
    method HandOut(header: int, freeSize: int, size: int, ghost k: nat)
      requires Linked() && header in free && header >= 0 && size > 0 && k < |blocks| && blocks[k] == header
      requires freeSize >= size + HDR + MINIALLOC ==>
                 header + size + HDR !in blocks && header + size + HDR !in free
      modifies this
      ensures Linked()
      ensures Abs() == HandedOut(old(Abs()), k, header, freeSize, size)
      ensures maxUsedSize ==
                if poolSize - availableSize > old(maxUsedSize) then poolSize - availableSize else old(maxUsedSize)
    {
      if freeSize >= size + HDR + MINIALLOC {
        var n := header + size + HDR;
        SplitBlock(header, n, k);
        UnlinkFree(header);
        LinkFree(n);
        availableSize := availableSize - size - HDR;
      } else {
        availableSize := availableSize - freeSize;
        UnlinkFree(header);
      }
      NotePeak();
      used := used + {header};
    }

    /** The locked section of rt_memheap_alloc. */
    method TakeLocked(request: int) returns (ptr: int)
      requires Valid() && 0 <= request < U32
      modifies this
      ensures Valid() && Abs() == MemHeapSpec.Take(old(Abs()), request).0
      ensures var a := MemHeapSpec.Take(old(Abs()), request).1; ptr == if a == -1 then NULL else a + HDR
      ensures maxUsedSize == if ptr != NULL && poolSize - availableSize > old(maxUsedSize)
                             then poolSize - availableSize else old(maxUsedSize)
    {
      ptr := NULL;
      var size := Rounded(request);
      ghost var (h, a) := MemHeapSpec.Take(Abs(), request);
      assert SizesReadable() by {
        SizesAreReadable();
      }
      assert HEADER !in free by {
        assert ([HEADER] + free)[0] == HEADER && forall i :: 0 <= i < |free| ==> ([HEADER] + free)[i + 1] == free[i];
      }
      var header, freeSize := Search(size);
      if freeSize >= size {
        ghost var k := AllocPlan(Abs(), request, size, header, poolSize);
        assert a == header && h == HandedOut(Abs(), k, header, freeSize, size);
        HandOut(header, freeSize, size, k);
        ptr := header + HDR;
        return;
      }
      assert a == -1 && h == Abs();
    }

    /** rt_memheap_alloc */
    method Alloc(request: int) returns (ptr: int)
      requires Valid() && 0 <= request < U32
      modifies this
      ensures Valid() && Abs() == MemHeapSpec.Alloc(old(Abs()), request).0
      ensures var a := MemHeapSpec.Alloc(old(Abs()), request).1; ptr == if a == -1 then NULL else a + HDR
      ensures maxUsedSize == if ptr != NULL && poolSize - availableSize > old(maxUsedSize)
                             then poolSize - availableSize else old(maxUsedSize)
    {
      if Rounded(request) < availableSize {
        ptr := TakeLocked(request);
      } else {
        ptr := NULL;
      }
    }

    /** rt_memheap_free up to the left merge: header is the block that now starts the free range. */
    method MergeLeft(block: int, ghost k: nat) returns (header: int, insert: bool)
      requires Linked() && k < |blocks| - 1 && blocks[k] == block && blocks[|blocks| - 1] in used - {block}
      requires Distinct(blocks)
      modifies this`used, this`availableSize, this`next, this`prev, this`blocks
      ensures Linked() && Abs() == LeftMerged(old(Abs()), k)
      ensures insert <==> !LeftIsFree(old(Abs()), k)
      ensures header == old(blocks)[if insert then k else k - 1]
    {
      header, insert := block, true;
      Neighbours(k);
      used := used - {block};
      availableSize := availableSize + (next[header] - header - HDR);
      var left := prev[header];
      if left !in used {
        availableSize := availableSize + HDR;
        JoinBlock(header, k);
        header, insert := left, false;
      }
    }

    /** The right merge of rt_memheap_free. */
    method MergeRight(header: int, ghost i: nat)
      requires Linked() && i < |blocks| - 1 && blocks[i] == header
      requires blocks[i + 1] !in used ==> blocks[i + 1] in free && blocks[i + 1] != HEADER
      modifies this`availableSize, this`next, this`prev, this`blocks, this`nextFree, this`prevFree, this`free
      ensures Linked() && Abs() == RightMerged(old(Abs()), i)
    {
      Neighbours(i);
      var right := next[header];
      if right !in used {
        availableSize := availableSize + HDR;
        JoinBlock(right, i + 1);
        UnlinkFree(right);
      }
    }

    /** The locked section of rt_memheap_free. */
    method Merge(block: int, ghost k: nat)
      requires Linked() && k < |blocks| - 1 && blocks[k] == block && blocks[|blocks| - 1] in used - {block}
      requires block !in free && HEADER !in blocks && Distinct(blocks)
      requires blocks[k + 1] !in used ==> blocks[k + 1] in free
      modifies this
      ensures Linked() && Abs() == Freed(old(Abs()), k) && maxUsedSize == old(maxUsedSize)
    {
      ghost var right := blocks[k + 1];
      var header, insert := MergeLeft(block, k);
      ghost var i := if insert then k else k - 1;
      assert blocks[i + 1] == right && right != block;
      MergeRight(header, i);
      if insert {
        LinkFree(header);
      }
    }

    /** rt_memheap_free; k is the position of the freed block, which the caller must hold. */
    method Free(ptr: int, ghost k: nat)
      requires Valid() && (ptr != NULL ==> IsLive(Abs(), k) && blocks[k] == ptr - HDR)
      modifies this
      ensures Valid() && maxUsedSize == old(maxUsedSize)
      ensures Abs() == if ptr == NULL then old(Abs()) else MemHeapSpec.Free(old(Abs()), k)
    {
      if ptr != NULL {
        FreePlan(Abs(), k, poolSize);
        Merge(ptr - HDR, k);
      }
    }

    /** The relinking of an in-place grow: the free block behind header moves up to n. */
    method MoveFree(header: int, right: int, n: int, ghost k: nat)
      requires Linked() && k + 2 < |blocks| && blocks[k] == header && blocks[k + 1] == right && right in free
      requires right != HEADER && n != HEADER && n !in Drop(blocks, k + 1) && n !in Without(free, right)
      modifies this`next, this`prev, this`blocks, this`nextFree, this`prevFree, this`free
      ensures Linked() && blocks == Insert(Drop(old(blocks), k + 1), k + 1, n) &&
                free == [n] + Without(old(free), right)
    {
      UnlinkFree(right);
      JoinBlock(right, k + 1);
      SplitBlock(header, n, k);
      LinkFree(n);
    }

    /** The relinking of a shrink: the rest of the block, and a free block behind it, start at n. */
    method CutOff(header: int, n: int, ghost k: nat)
      requires Linked() && k + 1 < |blocks| && blocks[k] == header && n !in blocks && n !in free && n != HEADER
      requires blocks[k + 1] !in used ==> blocks[k + 1] in free && k + 2 < |blocks| && blocks[k + 1] != HEADER
      modifies this`availableSize, this`next, this`prev, this`blocks, this`nextFree, this`prevFree, this`free
      ensures Linked() && Abs() == Resized(old(Abs()), k, n)
    {
      ghost var h := Abs();
      Neighbours(k);
      SplitBlock(header, n, k);
      assert blocks[k + 1] == n && blocks[k + 2] == h.blocks[k + 1];
      Neighbours(k + 1);
      var right := next[n];
      if right !in used {
        Neighbours(k + 2);
        availableSize := availableSize - (next[right] - right - HDR);
        SplitThenJoin(h.blocks, k, n);
        JoinBlock(right, k + 2);
        UnlinkFree(right);
        Neighbours(k + 1);
      }
      LinkFree(n);
      availableSize := availableSize + (next[n] - n - HDR);
    }

    /** The in-place growth section of rt_memheap_realloc. */
    method GrowLinks(ptr: int, newsize: int, ghost k: nat) returns (grown: bool)
      requires Linked() && IsLive(Abs(), k) && blocks[k] == ptr - HDR
      requires blocks[k + 1] !in used ==> IsFree(Abs(), k + 1) && blocks[k + 1] != HEADER
      requires CanGrow(Abs(), k, newsize) ==>
                ptr + newsize !in blocks && ptr + newsize !in free && ptr + newsize != HEADER
      requires CanGrow(Abs(), k, newsize) ==>
                 Resized(Abs(), k, ptr + newsize).available == availableSize - (newsize - Size(blocks, k))
      modifies this
      ensures Linked() && (grown <==> CanGrow(old(Abs()), k, newsize))
      ensures Abs() == if grown then Resized(old(Abs()), k, ptr + newsize) else old(Abs())
      ensures maxUsedSize == if grown && poolSize - availableSize > old(maxUsedSize)
                             then poolSize - availableSize else old(maxUsedSize)
    {
      Neighbours(k);
      var header := ptr - HDR;
      var right := next[header];
      var oldsize := right - header - HDR;
      grown := false;
      if right !in used {
        Neighbours(k + 1);
        var nextsize := next[right] - right - HDR;
        if nextsize + oldsize > (newsize + MINIALLOC) % U32 {
          grown := true;
          availableSize := availableSize - (newsize - oldsize);
          NotePeak();
          MoveFree(header, right, ptr + newsize, k);
        }
      }
    }

    method GrowInPlace(ptr: int, newsize: int, ghost k: nat) returns (grown: bool)
      requires Valid() && IsLive(Abs(), k) && blocks[k] == ptr - HDR && Word(newsize)
      requires Size(blocks, k) < newsize < U32 && (newsize + MINIALLOC < U32 || !IsFree(Abs(), k + 1))
      modifies this
      ensures Valid() && Abs() == Grow(old(Abs()), k, newsize) && (grown <==> CanGrow(old(Abs()), k, newsize))
      ensures maxUsedSize == if grown && poolSize - availableSize > old(maxUsedSize)
                             then poolSize - availableSize else old(maxUsedSize)
    {
      GrowReady(Abs(), k, newsize, ptr + newsize, poolSize);
      grown := GrowLinks(ptr, newsize, k);
    }

    /** The shrinking section of rt_memheap_realloc. */
    method ShrinkInPlace(ptr: int, newsize: int, ghost k: nat)
      requires Valid() && IsLive(Abs(), k) && blocks[k] == ptr - HDR && Word(newsize) && MINIALLOC <= newsize
      modifies this
      ensures Valid() && Abs() == Shrink(old(Abs()), k, newsize) && maxUsedSize == old(maxUsedSize)
    {
      var header := ptr - HDR;
      Neighbours(k);
      var oldsize := next[header] - header - HDR;
      if newsize + HDR + MINIALLOC >= oldsize {
        return;
      }
      ShrinkReady(Abs(), k, newsize, ptr + newsize, poolSize);
      CutOff(header, ptr + newsize, k);
    }

    /** Allocates elsewhere and frees the block. */
    method AllocThenFree(ptr: int, newsize: int, ghost k: nat) returns (moved: int)
      requires Valid() && 0 <= newsize < U32 && IsLive(Abs(), k) && blocks[k] == ptr - HDR
      modifies this
      ensures Valid() && Abs() == Relocated(old(Abs()), k, newsize).0
      ensures (moved == NULL || moved >= HDR) && HeaderOf(moved) == MemHeapSpec.Alloc(old(Abs()), newsize).1
      ensures maxUsedSize == Peak(old(AsPool()), MemHeapSpec.Alloc(old(Abs()), newsize).0, moved != NULL, poolSize)
    {
      ghost var h := Abs();
      ghost var (h', a') := MemHeapSpec.Alloc(h, newsize);
      RelocatePlan(h, k, newsize, h', a', poolSize);
      moved := Alloc(newsize);
      assert Abs() == h' && HeaderOf(moved) == a';
      if moved != NULL {
        Free(ptr, IndexOf(blocks, ptr - HDR));
      }
    }

    /** The last part of rt_memheap_realloc, given the contents of memory. */
    method Relocate(ptr: int, oldsize: int, newsize: int, data: Bytes, ghost k: nat) returns (moved: int, data': Bytes)
      requires Valid() && 0 <= newsize < U32 && IsLive(Abs(), k) && blocks[k] == ptr - HDR
      modifies this
      ensures Valid() && moved >= NULL
      ensures Outcome(AsPool(), HeaderOf(moved), data') == Moved(old(AsPool()), k, oldsize, newsize, data, poolSize)
    {
      ghost var p := AsPool();
      moved := AllocThenFree(ptr, newsize, k);
      data' := if moved == NULL then data else Copy(data, moved, ptr, Least(oldsize, newsize));
      MovedIs(p, k, oldsize, newsize, data, poolSize, Outcome(AsPool(), HeaderOf(moved), data'));
    }

    /** rt_memheap_realloc of a live block. */
    method ReallocLive(ptr: int, request: int, data: Bytes, ghost k: nat) returns (moved: int, data': Bytes)
      requires Valid() && 0 <= request < U32 && IsLive(Abs(), k) && blocks[k] == ptr - HDR
      requires GrowSafe(Abs(), k, request)
      modifies this
      ensures Valid() && moved >= NULL
      ensures Outcome(AsPool(), HeaderOf(moved), data') == Reallocated(old(AsPool()), k, request, data, poolSize)
    {
      LiveFacts(Abs(), k, poolSize);
      if request == 0 {
        Free(ptr, k);
        return NULL, data;
      }
      RoundedHolds(request);
      Neighbours(k);
      var newsize := Rounded(request);
      var oldsize := next[ptr - HDR] - (ptr - HDR) - HDR;
      if newsize <= oldsize {
        ShrinkInPlace(ptr, newsize, k);
        return ptr, data;
      }
      BlockBelow(Abs(), k, poolSize);
      moved, data' := Enlarge(ptr, oldsize, newsize, data, k);
    }

    /** rt_memheap_realloc to a larger size. */
    method Enlarge(ptr: int, oldsize: int, newsize: int, data: Bytes, ghost k: nat) returns (moved: int, data': Bytes)
      requires Valid() && IsLive(Abs(), k) && blocks[k] == ptr - HDR && Word(newsize) && ptr >= HDR
      requires 0 <= oldsize == Size(blocks, k) < newsize < U32 && (newsize + MINIALLOC < U32 || !IsFree(Abs(), k + 1))
      modifies this
      ensures Valid() && moved >= NULL
      ensures Outcome(AsPool(), HeaderOf(moved), data') ==
                if CanGrow(old(Abs()), k, newsize) then
                  Outcome(Pool(Grow(old(Abs()), k, newsize),
                               Peak(old(AsPool()), Grow(old(Abs()), k, newsize), true, poolSize)),
                          ptr - HDR, data)
                else Moved(old(AsPool()), k, oldsize, newsize, data, poolSize)
    {
      var grown := GrowInPlace(ptr, newsize, k);
      if grown {
        return ptr, data;
      }
      moved, data' := Relocate(ptr, oldsize, newsize, data, k);
    }

    /** rt_memheap_realloc: of the null pointer it is an allocation, or nothing for size 0. */
    method Realloc(ptr: int, request: int, data: Bytes, ghost k: nat) returns (moved: int, data': Bytes)
      requires Valid() && 0 <= request < U32
      requires ptr != NULL ==> IsLive(Abs(), k) && blocks[k] == ptr - HDR && GrowSafe(Abs(), k, request)
      modifies this
      ensures Valid() && moved >= NULL
      ensures ptr != NULL ==>
                Outcome(AsPool(), HeaderOf(moved), data') == Reallocated(old(AsPool()), k, request, data, poolSize)
      ensures ptr == NULL ==> data' == data
      ensures ptr == NULL && request == 0 ==> AsPool() == old(AsPool()) && moved == NULL
      ensures ptr == NULL && request > 0 ==> AsPool() == Step(old(AsPool()), CallAlloc(Rounded(request)), poolSize)
      ensures ptr == NULL && request > 0 ==> HeaderOf(moved) == MemHeapSpec.Alloc(old(Abs()), Rounded(request)).1
    {
      if ptr != NULL {
        moved, data' := ReallocLive(ptr, request, data, k);
      } else if request == 0 {
        moved, data' := NULL, data;
      } else {
        RoundedHolds(request);
        AllocNotNull(Abs(), Rounded(request), poolSize);
        moved := Alloc(Rounded(request));
        data' := data;
      }
    }
  }
}
