/** The memory heap of src/memheap.c, as an abstract block list.

    Addresses are offsets from start_addr.  RT_ALIGN_SIZE is 4 and a block header
    (struct rt_memheap_item, six words) takes 24 bytes.  Each function below is what one locked
    section of the allocator does; a run is any sequence of them.
  */
module MemHeapSpec {
  import opened Seqs
  import opened Rings
  import opened Tiles

  const HDR := 24          // RT_MEMHEAP_SIZE
  const MINIALLOC := 12    // RT_MEMHEAP_MINIALLOC
  const U32 := 0x1_0000_0000

  /** blocks: the header addresses in list order, the tailer last; used: the headers whose magic
      word carries RT_MEMHEAP_USED; free: the free ring from free_list->next_free on. */
  datatype Heap = Heap(blocks: seq<int>, used: set<int>, free: seq<int>, available: int)

  /** RT_ALIGN and the minimum, in 32-bit arithmetic. */
  function Rounded(size: int): (r: int)
    requires 0 <= size < U32
  {
    var aligned := (size + 3) % U32 / 4 * 4;
    if aligned < MINIALLOC then MINIALLOC else aligned
  }

  /** MEMITEM_SIZE of block k. */
  ghost function Size(b: seq<int>, k: int): int
    requires 0 <= k < |b| - 1
  {
    b[k + 1] - b[k] - HDR
  }

  ghost function FreeWeight(used: set<int>): (int, int) -> int {
    (x, y) => if x in used then 0 else y - x - HDR
  }

  ghost predicate FreeRing(h: Heap) {
    Distinct(h.free) && forall x {:trigger x in h.free} :: x in h.free <==> x in h.blocks && x !in h.used
  }

  /** What holds between a block and the next one: they are not both free, and a live block
      holds at least the minimum allocation. */
  ghost function NeighbourOk(used: set<int>): (int, int) -> bool {
    (x, y) => (x in used || y in used) && (x in used ==> x + HDR + MINIALLOC <= y)
  }

  /** The structure every run keeps: the blocks tile the pool up to the used tailer, no two
      neighbours are free, and the free ring holds each free block exactly once. */
  ghost predicate Structure(h: Heap, pool: int) {
    && Tiling(h.blocks, HDR, pool - HDR)
    && (forall x {:trigger x in h.used} :: x in h.used ==> x in h.blocks)
    && pool - HDR in h.used
    && Adjacent(h.blocks, NeighbourOk(h.used))
    && FreeRing(h)
  }

  /** available_size is the summed data size of the free blocks. */
  ghost predicate Balanced(h: Heap) {
    |h.blocks| > 0 && h.available == Sum(h.blocks, FreeWeight(h.used))
  }

  /** Structure and balance together.  The definition is unfolded only where Unfolded(h, _) is
      mentioned, which the lemmas InvMeans and InvHolds do: proofs about several heaps at once
      stay small that way. */
  ghost predicate Inv(h: Heap, pool: int) {
    forall u {:trigger Unfolded(h, u)} :: Unfolded(h, u) ==> Structure(h, pool) && Balanced(h)
  }

  ghost predicate Unfolded(h: Heap, u: bool) {
    true
  }

  /** rt_memheap_init on a pool of the given aligned size. */
  ghost function Initial(pool: int): Heap {
    Heap([0, pool - HDR], {pool - HDR}, [0], pool - 2 * HDR)
  }

  /** Block k is a used block a caller may hold. */
  ghost predicate IsLive(h: Heap, k: int) {
    0 <= k < |h.blocks| - 1 && h.blocks[k] in h.used
  }

  ghost predicate IsFree(h: Heap, k: int) {
    0 <= k < |h.blocks| - 1 && h.blocks[k] !in h.used && h.blocks[k] in h.free
  }

  // ---------- The moves out of which the locked sections are composed ----------

  /** Free block k leaves the ring and is marked used. */
  ghost function MarkUsed(h: Heap, k: int): Heap
    requires IsFree(h, k)
  {
    var a := h.blocks[k];
    h.(used := h.used + {a}, free := Without(h.free, a), available := h.available - Size(h.blocks, k))
  }

  /** Live block k is cut at n and the rest becomes a free block at the front of the ring. */
  ghost function Cut(h: Heap, k: int, n: int): Heap
    requires IsLive(h, k)
  {
    h.(blocks := Insert(h.blocks, k + 1, n), free := [n] + h.free, available := h.available + h.blocks[k + 1] - n - HDR)
  }

  /** Live block k swallows the block behind it if that one is free. */
  ghost function Absorb(h: Heap, k: int): Heap
    requires IsLive(h, k)
  {
    if IsFree(h, k + 1) then
      h.(blocks := Drop(h.blocks, k + 1), free := Without(h.free, h.blocks[k + 1]),
         available := h.available - Size(h.blocks, k + 1))
    else h
  }

  /** Live block k is marked free: it joins a free left neighbour or goes to the front of the ring. */
  ghost function MarkFree(h: Heap, k: int): Heap
    requires IsLive(h, k)
  {
    var a := h.blocks[k];
    if k > 0 && h.blocks[k - 1] !in h.used then
      h.(blocks := Drop(h.blocks, k), used := h.used - {a}, available := h.available + HDR + Size(h.blocks, k))
    else
      h.(used := h.used - {a}, free := [a] + h.free, available := h.available + Size(h.blocks, k))
  }

  // ---------- The locked sections ----------

  /** The data size of the block whose header is at a. */
  ghost function SizeAt(b: seq<int>, a: int): int {
    if a in b && IndexOf(b, a) < |b| - 1 then Size(b, IndexOf(b, a)) else 0
  }

  /** The ring position of the first free block, from the given one on, that holds size bytes. */
  ghost function FirstFit(h: Heap, size: int, from: nat): (j: nat)
    requires from <= |h.free|
    ensures from <= j <= |h.free|
    ensures forall i :: from <= i < j ==> SizeAt(h.blocks, h.free[i]) < size
    ensures j < |h.free| ==> SizeAt(h.blocks, h.free[j]) >= size
    decreases |h.free| - from
  {
    if from == |h.free| || SizeAt(h.blocks, h.free[from]) >= size then from else FirstFit(h, size, from + 1)
  }

  /** Handing out free block k: the rest is split off when it can hold another allocation. */
  ghost function AllocBlock(h: Heap, k: int, size: int): Heap
    requires IsFree(h, k)
  {
    if Size(h.blocks, k) >= size + HDR + MINIALLOC
    then Cut(MarkUsed(h, k), k, h.blocks[k] + HDR + size)
    else MarkUsed(h, k)
  }

  /** The locked section of rt_memheap_alloc, entered once the size has been found below available_size; the
      second component is the header of the block handed out, or -1. */
  ghost function Take(h: Heap, request: int): (Heap, int)
    requires 0 <= request < U32
  {
    var size := Rounded(request);
    var j := FirstFit(h, size, 0);
    if j < |h.free| && h.free[j] in h.blocks && IsFree(h, IndexOf(h.blocks, h.free[j]))
    then (AllocBlock(h, IndexOf(h.blocks, h.free[j]), size), h.free[j])
    else (h, -1)
  }

  /** rt_memheap_alloc when nothing comes between its test and its section. */
  ghost function Alloc(h: Heap, request: int): (Heap, int)
    requires 0 <= request < U32
  {
    if Rounded(request) < h.available then Take(h, request) else (h, -1)
  }

  /** rt_memheap_free of live block k. */
  ghost function Free(h: Heap, k: int): Heap
    requires IsLive(h, k)
  {
    var h' := Absorb(h, k);
    if IsLive(h', k) then MarkFree(h', k) else h
  }

  /** The test of rt_memheap_realloc for growing block k in place, in 32-bit arithmetic. */
  ghost predicate CanGrow(h: Heap, k: int, newsize: int)
    requires IsLive(h, k)
  {
    IsFree(h, k + 1) && Size(h.blocks, k + 1) + Size(h.blocks, k) > (newsize + MINIALLOC) % U32
  }

  /** Growing block k in place, when the free block behind it allows that. */
  ghost function Grow(h: Heap, k: int, newsize: int): Heap
    requires IsLive(h, k)
  {
    var h' := Absorb(h, k);
    if CanGrow(h, k, newsize) && IsLive(h', k)
    then Cut(h', k, (h.blocks[k] + HDR + newsize) % U32)
    else h
  }

  /** Shrinking block k, unless less than another allocation would be cut off. */
  ghost function Shrink(h: Heap, k: int, newsize: int): Heap
    requires IsLive(h, k)
  {
    var h' := Absorb(h, k);
    if newsize + HDR + MINIALLOC < Size(h.blocks, k) && IsLive(h', k)
    then Cut(h', k, h.blocks[k] + HDR + newsize)
    else h
  }
}
