/** rt_realloc with the bytes it copies, and whole runs of the first-fit heap (src/mem.c). */
module SmallMemRuns {
  import opened Seqs
  import opened Options
  import opened Memory
  import opened Rings
  import opened Tiles
  import opened SmallMemSpec
  import opened SmallMemProofs

  /** The pointer belongs to a block in use. */
  ghost predicate Owned(m: Mem, p: int) {
    p - HEADER in m.blocks && p - HEADER in m.used && p - HEADER < m.size + HEADER
  }

  /** The pointer lies between the start of the heap and the end block: others are ignored. */
  predicate InHeap(m: Mem, p: int) {
    0 <= p < m.size + HEADER
  }

  /** The null pointer, a pointer outside the heap, or one in use. */
  ghost predicate Usable(m: Mem, p: Option<int>) {
    p.Some? && InHeap(m, p.value) ==> Owned(m, p.value)
  }

  ghost function BlockOf(m: Mem, p: int): nat
    requires p - HEADER in m.blocks
  {
    IndexOf(m.blocks, p - HEADER)
  }

  /** rt_free. */
  ghost function Free(m: Mem, p: Option<int>): Mem {
    if p.Some? && InHeap(m, p.value) && Owned(m, p.value) && BlockOf(m, p.value) + 1 < |m.blocks|
    then FreeBlock(m, BlockOf(m, p.value)) else m
  }

  ghost predicate Ready(m: Mem, p: Option<int>) {
    m.lfree in m.blocks && (p.Some? && InHeap(m, p.value) ==> Owned(m, p.value) && BlockOf(m, p.value) + 1 < |m.blocks|)
  }

  /** rt_realloc. */
  ghost function Realloc(m: Mem, data: Bytes, p: Option<int>, n: nat): (Option<int>, Mem, Bytes)
    requires Ready(m, p)
  {
    var size := Align(n);
    if size > m.size then (None, m, data)
    else if size == 0 then (None, Free(m, p), data)
    else if p == None then (Malloc(m, size).0, Malloc(m, size).1, data)
    else if !InHeap(m, p.value) then (p, m, data)
    else
      var k := BlockOf(m, p.value);
      var had := SizeOf(m, k);
      if had == size then (p, m, data)
      else if size + HEADER + MIN_SIZE < had then (p, Shrink(m, k, size), data)
      else Relocate(m, data, p.value, had, size)
  }

  /** rt_realloc allocating a new block, copying and freeing. */
  ghost function Relocate(m: Mem, data: Bytes, p: int, had: int, size: nat): (Option<int>, Mem, Bytes)
    requires m.lfree in m.blocks
  {
    var (r, m') := Malloc(m, size);
    if r == None then (None, m', data)
    else (r, Free(m', Some(p)), Copy(data, r.value, p, Least(had, size)))
  }

  lemma OwnedTaken(m: Mem, p: int)
    requires Inv(m) && Owned(m, p)
    ensures InHeap(m, p) && Taken(m, BlockOf(m, p)) && m.blocks[BlockOf(m, p)] == p - HEADER
    ensures Occupies(m.blocks, m.used, p - HEADER, SizeOf(m, BlockOf(m, p)))
  {
    TiledMeans(m);
    var k := BlockOf(m, p);
    assert k + 1 < |m.blocks|;
    OccupiesMeans(m.blocks, m.used, p - HEADER, SizeOf(m, k));
    assert m.blocks[k + 1] == p - HEADER + HEADER + SizeOf(m, k);
  }

  lemma LastBlock(m: Mem)
    requires Tiled(m)
    ensures |m.blocks| >= 2 && m.blocks[|m.blocks| - 1] == m.size + HEADER
  {
    TiledMeans(m);
  }

  lemma OccupiesOwned(m: Mem, y: int, n: int)
    requires Inv(m) && Occupies(m.blocks, m.used, y, n)
    ensures Owned(m, y + HEADER) && BlockOf(m, y + HEADER) + 1 < |m.blocks| && SizeOf(m, BlockOf(m, y + HEADER)) == n
  {
    OccupiesMeans(m.blocks, m.used, y, n);
    TileFacts(m);
    LastBlock(m);
    OccupantIs(m.blocks, m.used, y, n);
  }

  lemma OccupantIs(b: seq<int>, used: set<int>, y: int, n: int)
    requires IsOccupant(b, used, y, n) && Distinct(b) && Grows(b)
    ensures y in b && y in used && y < b[|b| - 1]
    ensures IndexOf(b, y) + 1 < |b| && b[IndexOf(b, y) + 1] == y + HEADER + n
  {
    var i, j :| 0 <= i && j == i + 1 < |b| && b[i] == y && b[j] == y + HEADER + n;
    assert IndexOf(b, y) == i;
  }

  lemma ReallocReady(m: Mem, p: Option<int>)
    requires Inv(m) && Usable(m, p)
    ensures Ready(m, p)
  {
    if p.Some? && InHeap(m, p.value) {
      OwnedTaken(m, p.value);
    }
  }

  lemma FreeOfKeeps(m: Mem, p: Option<int>)
    requires Inv(m) && Usable(m, p)
    ensures Inv(Free(m, p)) && (Lowest(m) ==> Lowest(Free(m, p)))
    ensures forall y, n :: Occupies(Free(m, p).blocks, Free(m, p).used, y, n) <==>
                             !(p.Some? && InHeap(m, p.value) && y == p.value - HEADER) &&
                                 Occupies(m.blocks, m.used, y, n)
  {
    if p.Some? && InHeap(m, p.value) {
      OwnedTaken(m, p.value);
      var k := BlockOf(m, p.value);
      FreeKeeps(m, k);
      forall y, n ensures Occupies(Free(m, p).blocks, Free(m, p).used, y, n) <==>
                            y != p.value - HEADER && Occupies(m.blocks, m.used, y, n)
      {
        FreeOccupies(m, k, y, n);
      }
    }
  }

  /** The block of the owned pointer stays owned when another block is handed out. */
  lemma StillOwned(m: Mem, n: nat, p: int)
    requires Inv(m) && Owned(m, p) && Malloc(m, n).0.Some?
    ensures Inv(Malloc(m, n).1) && Owned(Malloc(m, n).1, p) && InHeap(Malloc(m, n).1, p) && Malloc(m, n).0 != Some(p)
  {
    MallocKeeps(m, n);
    OwnedTaken(m, p);
    var l := MallocGives(m, n);
    OwnedAgain(Malloc(m, n).1, p, SizeOf(m, BlockOf(m, p)));
  }

  lemma OwnedAgain(m: Mem, p: int, n: int)
    requires Inv(m) && Occupies(m.blocks, m.used, p - HEADER, n)
    ensures Owned(m, p) && InHeap(m, p)
  {
    OccupiesOwned(m, p - HEADER, n);
    OwnedTaken(m, p);
  }

  /** rt_realloc keeps the invariant in every reachable heap. */
  lemma ReallocKeeps(m: Mem, data: Bytes, p: Option<int>, n: nat)
    requires Inv(m) && Usable(m, p)
    ensures Ready(m, p)
    ensures Inv(Realloc(m, data, p, n).1)
  {
    ReallocReady(m, p);
    var size := Align(n);
    AlignIs(n);
    if size > m.size {
    } else if size == 0 {
      FreeOfKeeps(m, p);
    } else if p == None {
      MallocKeeps(m, size);
    } else if InHeap(m, p.value) {
      OwnedTaken(m, p.value);
      var k := BlockOf(m, p.value);
      if SizeOf(m, k) != size {
        if size + HEADER + MIN_SIZE < SizeOf(m, k) {
          ShrinkKeeps(m, k, size);
        } else {
          MallocKeeps(m, size);
          if Malloc(m, size).0.Some? {
            StillOwned(m, size, p.value);
            OwnedTaken(Malloc(m, size).1, p.value);
            FreeOfKeeps(Malloc(m, size).1, p);
          }
        }
      }
    }
  }

  /** What a successful rt_realloc of a pointer promises: the new block has room, the bytes up to the
      smaller of the two sizes have moved with it, and every other block has its place, size and bytes. */
  ghost predicate IsMoved(m: Mem, data: Bytes, p: int, had: int, size: int, q: int, m': Mem, data': Bytes) {
    && HasRoom(m', q - HEADER, size)
    && SameContents(data, p, data', q, Least(had, size))
    && AllKept(m, data, p, m', data')
  }

  /** Every block but that of p. */
  ghost predicate AllKept(m: Mem, data: Bytes, p: int, m': Mem, data': Bytes) {
    forall u {:trigger Shown(p, p, u)} :: Shown(p, p, u) ==>
      forall y, n {:trigger Occupies(m.blocks, m.used, y, n)} ::
        Occupies(m.blocks, m.used, y, n) && y != p - HEADER ==> Kept(m', data, data', y, n)
  }

  lemma AllKeptMeans(m: Mem, data: Bytes, p: int, m': Mem, data': Bytes)
    ensures AllKept(m, data, p, m', data') <==>
              forall y, n {:trigger Occupies(m.blocks, m.used, y, n)} ::
                Occupies(m.blocks, m.used, y, n) && y != p - HEADER ==> Kept(m', data, data', y, n)
  {
    assert Shown(p, p, true);
  }

  ghost predicate Kept(m': Mem, data: Bytes, data': Bytes, y: int, n: int) {
    Occupies(m'.blocks, m'.used, y, n) && SameBytes(data, data', y + HEADER, n)
  }

  /** IsMoved, which proofs unfold only where they ask for it. */
  ghost predicate Moved(m: Mem, data: Bytes, p: int, had: int, size: int, q: int, m': Mem, data': Bytes) {
    forall u {:trigger Shown(p, q, u)} :: Shown(p, q, u) ==> IsMoved(m, data, p, had, size, q, m', data')
  }

  predicate Shown(p: int, q: int, u: bool) {
    true
  }

  lemma MovedMeans(m: Mem, data: Bytes, p: int, had: int, size: int, q: int, m': Mem, data': Bytes)
    ensures Moved(m, data, p, had, size, q, m', data') <==> IsMoved(m, data, p, had, size, q, m', data')
  {
    assert Shown(p, q, true);
  }

  ghost predicate HasRoom(m: Mem, y: int, size: int) {
    exists l :: l >= size && Occupies(m.blocks, m.used, y, l)
  }

  lemma SameSize(m: Mem, data: Bytes, p: int)
    requires Inv(m) && Owned(m, p)
    ensures BlockOf(m, p) + 1 < |m.blocks|
    ensures Moved(m, data, p, SizeOf(m, BlockOf(m, p)), SizeOf(m, BlockOf(m, p)), p, m, data)
  {
    OwnedTaken(m, p);
    var had := SizeOf(m, BlockOf(m, p));
    AllKeptMeans(m, data, p, m, data);
    assert IsMoved(m, data, p, had, had, p, m, data);
    MovedMeans(m, data, p, had, had, p, m, data);
  }

  lemma InPlace(m: Mem, data: Bytes, p: int, size: int)
    requires Inv(m) && Owned(m, p) && size >= 4 && Word(size)
    ensures BlockOf(m, p) + 1 < |m.blocks|
    ensures var k := BlockOf(m, p);
            size + HEADER + MIN_SIZE < SizeOf(m, k) ==>
                Moved(m, data, p, SizeOf(m, k), size, p, Shrink(m, k, size), data)
  {
    OwnedTaken(m, p);
    var k := BlockOf(m, p);
    if size + HEADER + MIN_SIZE < SizeOf(m, k) {
      var m' := Shrink(m, k, size);
      ShrinkOccupies(m, k, size, p - HEADER, size);
      forall y, n | Occupies(m.blocks, m.used, y, n) && y != p - HEADER ensures Kept(m', data, data, y, n) {
        ShrinkOccupies(m, k, size, y, n);
      }
      AllKeptMeans(m, data, p, m', data);
      assert IsMoved(m, data, p, SizeOf(m, k), size, p, m', data);
      MovedMeans(m, data, p, SizeOf(m, k), size, p, m', data);
    }
  }

  /** Copying into a block does not disturb the other blocks. */
  lemma CopyElsewhere(m: Mem, data: Bytes, q: int, l: int, from: int, n: int, y: int, d: int)
    requires Tiled(m) && Occupies(m.blocks, m.used, q - HEADER, l) && Occupies(m.blocks, m.used, y, d)
    requires y != q - HEADER && n <= l
    ensures SameBytes(data, Copy(data, q, from, n), y + HEADER, d)
  {
    if y < q - HEADER {
      OccupantsApart(m, y, d, q - HEADER, l);
    } else {
      OccupantsApart(m, q - HEADER, l, y, d);
    }
    CopyBeside(data, q, from, n, y + HEADER, d);
  }

  /** Another block has been handed out for the new size, and the old one given back. */
  lemma NewBlock(m: Mem, p: int, size: int) returns (l: int)
    requires Inv(m) && Owned(m, p) && size >= 4 && Word(size) && size <= m.size < U32 && Malloc(m, size).0.Some?
    ensures var (r, m1) := Malloc(m, size);
            && l >= size && Occupies(m1.blocks, m1.used, r.value - HEADER, l)
            && Occupies(Free(m1, Some(p)).blocks, Free(m1, Some(p)).used, r.value - HEADER, l)
  {
    MallocKeeps(m, size);
    StillOwned(m, size, p);
    OwnedTaken(Malloc(m, size).1, p);
    AlignSelf(size);
    l := MallocGives(m, size);
    FreeOfKeeps(Malloc(m, size).1, Some(p));
  }

  /** The other used blocks stay when one is handed out, and it is none of them. */
  lemma OthersBeside(m: Mem, n: nat, y: int, d: int)
    requires Inv(m) && Malloc(m, n).0.Some? && Occupies(m.blocks, m.used, y, d)
    ensures var (r, m1) := Malloc(m, n); Occupies(m1.blocks, m1.used, y, d) && y != r.value - HEADER
  {
    var l := MallocGives(m, n);
    OccupiesMeans(m.blocks, m.used, y, d);
  }

  lemma OthersStay(m: Mem, p: int, size: int, y: int, d: int)
    requires Inv(m) && Owned(m, p) && size >= 4 && Word(size) && size <= m.size < U32 && Malloc(m, size).0.Some?
    requires Occupies(m.blocks, m.used, y, d) && y != p - HEADER
    ensures var (r, m1) := Malloc(m, size);
            && Occupies(m1.blocks, m1.used, y, d) && y != r.value - HEADER
            && Occupies(Free(m1, Some(p)).blocks, Free(m1, Some(p)).used, y, d)
  {
    OthersBeside(m, size, y, d);
    StillOwned(m, size, p);
    FreeOfKeeps(Malloc(m, size).1, Some(p));
  }

  lemma OtherKept(m: Mem, data: Bytes, p: int, size: int, l: int, n: int, y: int, d: int)
    requires Inv(m) && Owned(m, p) && size >= 4 && Word(size) && size <= m.size < U32 && Malloc(m, size).0.Some?
    requires Occupies(m.blocks, m.used, y, d) && y != p - HEADER && n <= l
    requires Occupies(Malloc(m, size).1.blocks, Malloc(m, size).1.used, Malloc(m, size).0.value - HEADER, l)
    ensures var (r, m1) := Malloc(m, size);
            Kept(Free(m1, Some(p)), data, Copy(data, r.value, p, n), y, d)
  {
    OthersStay(m, p, size, y, d);
    MallocKeeps(m, size);
    CopyElsewhere(Malloc(m, size).1, data, Malloc(m, size).0.value, l, p, n, y, d);
  }

  lemma AllMoved(m: Mem, data: Bytes, p: int, had: int, size: int, q: int, m': Mem, n: int, l: int)
    requires l >= size && Occupies(m'.blocks, m'.used, q - HEADER, l) && n == Least(had, size)
    requires AllKept(m, data, p, m', Copy(data, q, p, n))
    ensures Moved(m, data, p, had, size, q, m', Copy(data, q, p, n))
  {
    CopyContents(data, q, p, n);
    assert IsMoved(m, data, p, had, size, q, m', Copy(data, q, p, n));
    MovedMeans(m, data, p, had, size, q, m', Copy(data, q, p, n));
  }

  /** q and m' are what rt_realloc of p gets when it allocates a new block and frees the old one; proofs unfold
      this only where they ask for it. */
  ghost predicate IsPlace(m: Mem, p: int, size: nat, q: int, m': Mem)
    requires m.lfree in m.blocks
  {
    forall u {:trigger Shown(p, q, u)} :: Shown(p, q, u) ==>
      Malloc(m, size).0 == Some(q) && m' == Free(Malloc(m, size).1, Some(p))
  }

  lemma PlaceMeans(m: Mem, p: int, size: nat, q: int, m': Mem)
    requires m.lfree in m.blocks
    ensures IsPlace(m, p, size, q, m') <==> Malloc(m, size).0 == Some(q) && m' == Free(Malloc(m, size).1, Some(p))
  {
    assert Shown(p, q, true);
  }

  lemma NewPlace(m: Mem, p: int, size: int) returns (q: int, m': Mem, l: int)
    requires Inv(m) && Owned(m, p) && size >= 4 && Word(size) && size <= m.size < U32 && Malloc(m, size).0.Some?
    ensures IsPlace(m, p, size, q, m') && l >= size && Occupies(m'.blocks, m'.used, q - HEADER, l)
    ensures Occupies(Malloc(m, size).1.blocks, Malloc(m, size).1.used, q - HEADER, l)
  {
    l := NewBlock(m, p, size);
    q, m' := Malloc(m, size).0.value, Free(Malloc(m, size).1, Some(p));
    PlaceMeans(m, p, size, q, m');
  }

  lemma OthersKept(m: Mem, data: Bytes, p: int, size: int, q: int, m': Mem, l: int, n: int)
    requires Inv(m) && Owned(m, p) && size >= 4 && Word(size) && size <= m.size < U32 && Malloc(m, size).0.Some?
    requires IsPlace(m, p, size, q, m') && n <= l
    requires Occupies(Malloc(m, size).1.blocks, Malloc(m, size).1.used, q - HEADER, l)
    ensures AllKept(m, data, p, m', Copy(data, q, p, n))
  {
    PlaceMeans(m, p, size, q, m');
    forall y, d | Occupies(m.blocks, m.used, y, d) && y != p - HEADER
      ensures Kept(m', data, Copy(data, q, p, n), y, d)
    {
      OtherKept(m, data, p, size, l, n, y, d);
    }
    AllKeptMeans(m, data, p, m', Copy(data, q, p, n));
  }

  lemma MovesTo(m: Mem, data: Bytes, p: int, had: int, size: int) returns (q: int, m': Mem)
    requires Inv(m) && Owned(m, p) && size >= 4 && Word(size) && size <= m.size < U32 && Malloc(m, size).0.Some?
    ensures IsPlace(m, p, size, q, m') && Moved(m, data, p, had, size, q, m', Copy(data, q, p, Least(had, size)))
  {
    var n, l := Least(had, size), 0;
    q, m', l := NewPlace(m, p, size);
    OthersKept(m, data, p, size, q, m', l, n);
    AllMoved(m, data, p, had, size, q, m', n, l);
  }

  lemma Elsewhere(m: Mem, data: Bytes, p: int, size: int)
    requires Inv(m) && Owned(m, p) && size >= 4 && Word(size) && size <= m.size < U32 && Malloc(m, size).0.Some?
    ensures BlockOf(m, p) + 1 < |m.blocks|
    ensures var (r, m1) := Malloc(m, size); var had := SizeOf(m, BlockOf(m, p));
            Moved(m, data, p, had, size, r.value, Free(m1, Some(p)), Copy(data, r.value, p, Least(had, size)))
  {
    OwnedTaken(m, p);
    var q, m' := MovesTo(m, data, p, SizeOf(m, BlockOf(m, p)), size);
    PlaceMeans(m, p, size, q, m');
  }

  lemma AlignSelf(n: nat)
    requires Word(n) && n < U32
    ensures Align(n) == n
  {
  }

  /** The block of an owned pointer is used before it is freed and not afterwards. */
  lemma FreeChanges(m: Mem, p: int)
    requires Inv(m) && Owned(m, p)
    ensures InHeap(m, p) && BlockOf(m, p) + 1 < |m.blocks| && p - HEADER in m.used
    ensures Free(m, Some(p)).used == m.used - {p - HEADER} && Free(m, Some(p)) != m
  {
    OwnedTaken(m, p);
  }

  lemma AlignWraps(n: nat)
    requires 0 < n < U32
    ensures n <= U32 - 4 <==> Align(n) != 0
    ensures n <= U32 - 4 ==> Align(n) >= n
  {
    AlignIs(n);
  }

  lemma MovesOrStays(m: Mem, data: Bytes, p: int, n: nat)
    requires Inv(m) && Owned(m, p) && 0 < n <= U32 - 4 && m.size < U32
    ensures Ready(m, Some(p)) && BlockOf(m, p) + 1 < |m.blocks|
    ensures var (r, m', data') := Realloc(m, data, Some(p), n);
            && (r == None ==> m' == m && data' == data)
            && (r.Some? ==> Moved(m, data, p, SizeOf(m, BlockOf(m, p)), Align(n), r.value, m', data'))
  {
    OwnedTaken(m, p);
    ReallocReady(m, Some(p));
    AlignIs(n);
    var size := Align(n);
    if size <= m.size {
      var had := SizeOf(m, BlockOf(m, p));
      if had == size {
        SameSize(m, data, p);
      } else if size + HEADER + MIN_SIZE < had {
        InPlace(m, data, p, size);
      } else {
        MallocKeeps(m, size);
        if Malloc(m, size).0.Some? {
          Elsewhere(m, data, p, size);
        }
      }
    }
  }

  /** The three sizes above 2^32 - 4 are aligned to 0: the block is freed. */
  lemma ReallocFrees(m: Mem, data: Bytes, p: int, n: nat)
    requires Inv(m) && Owned(m, p) && U32 - 4 < n < U32
    ensures Ready(m, Some(p)) && Realloc(m, data, Some(p), n) == (None, Free(m, Some(p)), data) && Free(m, Some(p)) != m
  {
    ReallocReady(m, Some(p));
    AlignWraps(n);
    FreeChanges(m, p);
    TiledMeans(m);
  }

  /** rt_realloc of a pointer in use to a nonzero size: when it succeeds, the first min(old, new) bytes have
      moved along and the other blocks are as before; when it fails, nothing has changed if and only if the
      size is at most 2^32 - 4, and the block has been freed above that. */
  lemma ReallocMoves(m: Mem, data: Bytes, p: int, n: nat)
    requires Inv(m) && Owned(m, p) && 0 < n < U32 && m.size < U32
    ensures Ready(m, Some(p)) && BlockOf(m, p) + 1 < |m.blocks|
    ensures var (r, m', data') := Realloc(m, data, Some(p), n);
            && (r.Some? ==> Align(n) >= n && Moved(m, data, p, SizeOf(m, BlockOf(m, p)), Align(n), r.value, m', data'))
            && (r == None ==> ((m' == m && data' == data) <==> n <= U32 - 4))
            && (n > U32 - 4 ==> r == None && m' == Free(m, Some(p)) && data' == data)
  {
    OwnedTaken(m, p);
    AlignWraps(n);
    if n <= U32 - 4 {
      MovesOrStays(m, data, p, n);
    } else {
      ReallocFrees(m, data, p, n);
    }
  }

  lemma InitHolds(size: int)
    requires size >= MIN_SIZE && Word(size)
    ensures Inv(Init(size)) && Lowest(Init(size))
  {
    var m := Init(size);
    assert Word(m.blocks[0]) && Word(m.blocks[1]);
    assert m.blocks[0] in m.blocks && m.blocks[1] in m.blocks;
    TiledMeans(m);
    assert Sum(m.blocks, Weight(m.used)) == SumTo(m.blocks, Weight(m.used), 0) + Weight(m.used)(0, size + HEADER);
  }

  // ---------- When rt_malloc returns ----------

  /** The link of block k: the end block's is to itself. */
  function Link(m: Mem, k: nat): (j: nat)
    requires k < |m.blocks|
    ensures j < |m.blocks|
  {
    if k + 1 < |m.blocks| then k + 1 else k
  }

  /** The search loop of rt_malloc from block k on, on rt_size_t: Some(None) when it runs out, Some(Some(j))
      when it stops at block j, and None when it goes on for more than this many rounds. */
  function Scan(m: Mem, k: nat, need: int, rounds: nat): Option<Option<nat>>
    requires k < |m.blocks|
    decreases rounds
  {
    if m.blocks[k] >= (m.size - need) % U32 then Some(None)
    else if m.blocks[k] !in m.used && (m.blocks[Link(m, k)] - (m.blocks[k] + HEADER)) % U32 >= need then Some(Some(k))
    else if rounds == 0 then None
    else Scan(m, Link(m, k), need, rounds - 1)
  }

  ghost predicate ScanEnds(m: Mem, k: nat, need: int)
    requires k < |m.blocks|
  {
    exists rounds: nat :: Scan(m, k, need, rounds).Some?
  }

  /** rt_malloc returns. */
  ghost predicate Returns(m: Mem, n: nat)
    requires m.lfree in m.blocks
  {
    n == 0 || Align(n) > m.size || ScanEnds(m, IndexOf(m.blocks, m.lfree), Max(Align(n), MIN_SIZE))
  }

  /** In a tiled heap the loop ends, and with the result of Search: the bound does not wrap. */
  lemma {:induction false} ScanSearches(m: Mem, k: nat, need: int, rounds: nat)
    requires Tiled(m) && m.size + HEADER < U32 && MIN_SIZE <= need <= m.size
    requires k < |m.blocks| && rounds >= |m.blocks| - 1 - k
    ensures Scan(m, k, need, rounds) == Some(Search(m, k, need))
    decreases rounds
  {
    BlockInside(m, k);
    if k + 1 < |m.blocks| {
      BlockInside(m, k + 1);
      if m.blocks[k] < m.size - need && !Fits(m, k, need) {
        ScanSearches(m, k + 1, need, rounds - 1);
      }
    }
  }

  lemma BlockInside(m: Mem, k: nat)
    requires Tiled(m) && k < |m.blocks|
    ensures 0 <= m.blocks[k] <= m.size + HEADER && (k + 1 == |m.blocks| ==> m.blocks[k] == m.size + HEADER)
    ensures k + 1 < |m.blocks| ==> m.blocks[k] + HEADER < m.blocks[k + 1]
  {
    TiledMeans(m);
  }

  /** In every reachable heap rt_malloc returns, and its loop does what Malloc says. */
  lemma MallocReturns(m: Mem, n: nat)
    requires Inv(m) && m.size + HEADER < U32
    ensures Returns(m, n)
    ensures n != 0 && Align(n) <= m.size ==>
              var k, need := IndexOf(m.blocks, m.lfree), Max(Align(n), MIN_SIZE);
              exists rounds: nat :: Scan(m, k, need, rounds) == Some(Search(m, k, need))
  {
    TiledMeans(m);
    if n != 0 && Align(n) <= m.size {
      ScanSearches(m, IndexOf(m.blocks, m.lfree), Max(Align(n), MIN_SIZE), |m.blocks|);
    }
  }

  /** Below 12 bytes no block fits, and the unsigned bound size - 12 lies above the end block. */
  lemma {:induction false} ScanSpins(size: nat, k: nat, need: int, rounds: nat)
    requires size < MIN_SIZE == need && k < 2
    ensures Scan(Init(size), k, need, rounds) == None
    decreases rounds
  {
    if rounds > 0 {
      ScanSpins(size, 1, need, rounds - 1);
    }
  }

  /** rt_malloc on a fresh heap returns exactly when the heap has at least 12 bytes behind its first
      header, or nothing is requested, or the aligned request is refused at once.  Requests of more than
      2^32 - 4 bytes are aligned to 0. */
  lemma TinyHeap(size: nat, n: nat)
    requires Word(size) && size + HEADER < U32 && n < U32
    ensures Returns(Init(size), n) <==> size >= MIN_SIZE || n == 0 || Align(n) > size
  {
    var m := Init(size);
    assert IndexOf(m.blocks, 0) == 0;
    if size >= MIN_SIZE {
      InitHolds(size);
      MallocReturns(m, n);
    } else if n != 0 && Align(n) <= size {
      forall rounds: nat ensures Scan(m, 0, MIN_SIZE, rounds) == None {
        ScanSpins(size, 0, MIN_SIZE, rounds);
      }
    }
  }

  // ---------- Whole runs ----------

  datatype Op = OpMalloc(n: nat) | OpFree(p: Option<int>) | OpRealloc(p: Option<int>, n: nat)

  /** A call with a usable pointer. */
  ghost predicate IsStep(m: Mem, op: Op, m': Mem) {
    match op
    case OpMalloc(n) => m.lfree in m.blocks ==> m' == Malloc(m, n).1
    case OpFree(p) => Usable(m, p) && m' == Free(m, p)
    case OpRealloc(p, n) => Usable(m, p) && (Ready(m, p) ==> m' == Realloc(m, map[], p, n).1)
  }

  ghost predicate IsRun(run: seq<Mem>, ops: seq<Op>, size: int) {
    && |run| == |ops| + 1 && run[0] == Init(size)
    && forall i, j {:trigger run[i], run[j]} :: 0 <= i < |ops| && j == i + 1 ==> IsStep(run[i], ops[i], run[j])
  }

  lemma StepKeeps(m: Mem, op: Op, m': Mem)
    requires Inv(m) && IsStep(m, op, m')
    ensures Inv(m') && (!op.OpRealloc? && Lowest(m) ==> Lowest(m'))
  {
    match op
    case OpMalloc(n) => MallocKeeps(m, n);
    case OpFree(p) => FreeOfKeeps(m, p);
    case OpRealloc(p, n) => ReallocKeeps(m, map[], p, n);
  }

  /** With fewer than 12 bytes between the headers no block is ever handed out. */
  lemma TinyStays(size: nat, op: Op, m': Mem)
    requires size < MIN_SIZE && IsStep(Init(size), op, m')
    ensures m' == Init(size)
  {
    var m := Init(size);
    assert m.blocks[0] == 0 && IndexOf(m.blocks, 0) == 0;
    match op
    case OpMalloc(n) =>
    case OpFree(p) =>
    case OpRealloc(p, n) =>
  }

  /** Every heap of every run of rt_malloc, rt_free and rt_realloc is tiled without free neighbours, lfree
      is a free block or the end, and used_mem is the summed span of the blocks in use; without
      rt_realloc lfree is the lowest free block.  A heap with fewer than 12 bytes between its headers
      stays as it was initialised. */
  lemma {:induction false} RunKeeps(run: seq<Mem>, ops: seq<Op>, size: nat, i: nat)
    requires Word(size) && IsRun(run, ops, size) && i < |run|
    ensures size >= MIN_SIZE ==> Inv(run[i])
    ensures size >= MIN_SIZE && (forall j :: 0 <= j < i ==> !ops[j].OpRealloc?) ==> Lowest(run[i])
    ensures size < MIN_SIZE ==> run[i] == Init(size)
  {
    if i == 0 {
      if size >= MIN_SIZE {
        InitHolds(size);
      }
    } else {
      RunKeeps(run, ops, size, i - 1);
      var m, m' := run[i - 1], run[i];
      assert IsStep(m, ops[i - 1], m');
      if size >= MIN_SIZE {
        StepKeeps(m, ops[i - 1], m');
      } else {
        TinyStays(size, ops[i - 1], m');
      }
    }
  }
}
