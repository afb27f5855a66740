/** Where rt_malloc of the slab allocator puts requests whose size is a power of two. */
module SlabAlign {
  import opened Options
  import opened Pages
  import opened ZoneLayout
  import opened SlabSpec
  import opened SlabRuns

  // ---------- Multiples ----------

  function Times(k: nat, m: nat): nat {
    k * m
  }

  ghost predicate IsMultiple(a: nat, m: nat) {
    exists k: nat :: Times(k, m) == a
  }

  lemma MultipleAdds(a: nat, b: nat, m: nat)
    requires IsMultiple(a, m) && IsMultiple(b, m)
    ensures IsMultiple(a + b, m)
  {
    var i: nat :| Times(i, m) == a;
    var j: nat :| Times(j, m) == b;
    assert Times(i + j, m) == a + b;
  }

  lemma MultipleTimes(a: nat, b: nat, m: nat)
    requires IsMultiple(a, b) && IsMultiple(b, m)
    ensures IsMultiple(a, m)
  {
    var i: nat :| Times(i, b) == a;
    var j: nat :| Times(j, m) == b;
    TimesTimes(i, j, m);
  }

  lemma TimesTimes(i: nat, j: nat, m: nat)
    ensures Times(i * j, m) == Times(i, Times(j, m))
  {
  }

  /** Of two powers of two the larger is a multiple of the smaller. */
  lemma {:induction false} Pow2Divides(m: nat, n: nat)
    requires IsPow2(m) && IsPow2(n) && m <= n
    ensures IsMultiple(n, m)
    decreases m
  {
    if m == 1 {
      assert Times(n, 1) == n;
    } else {
      Pow2Divides(m / 2, n / 2);
      var k: nat :| Times(k, m / 2) == n / 2;
      assert Times(k, m) == 2 * Times(k, m / 2);
    }
  }

  lemma PageIsPow2()
    ensures IsPow2(PAGE)
  {
    assert IsPow2(1) && IsPow2(2) && IsPow2(4) && IsPow2(8) && IsPow2(16) && IsPow2(32) && IsPow2(64);
    assert IsPow2(128) && IsPow2(256) && IsPow2(512) && IsPow2(1024) && IsPow2(2048);
  }

  lemma PagesAligned(a: nat, m: nat)
    requires IsPow2(m) && m <= PAGE
    ensures IsMultiple(a * PAGE, m)
  {
    PageIsPow2();
    Pow2Divides(m, PAGE);
    assert Times(a, PAGE) == a * PAGE;
    MultipleTimes(a * PAGE, PAGE, m);
  }

  // ---------- Chunks ----------

  /** A chunk whose size is a power of two is aligned to its size exactly when its zone is: the page
      allocator aligns zones to pages only, so chunks larger than a page need not be. */
  lemma AlignedIff(s: Slab, z: nat, p: nat)
    requires Inv(s) && LiveChunk(s.zones, z, p) && IsPow2(s.zones[z].chunk)
    ensures IsMultiple(p, s.zones[z].chunk) <==> IsMultiple(z * PAGE, s.zones[z].chunk)
  {
    var zone := s.zones[z];
    ZoneLayoutIs(s, z);
    var i := CarvedIndex(z * PAGE + zone.base, zone.chunk, zone.uindex + 1, p);
    var q := BaseIsMultiple(zone.chunk);
    ShiftMultiple(z * PAGE, p, q, i, zone.chunk);
  }

  lemma ZoneLayoutIs(s: Slab, z: nat)
    requires Sound(s) && z in s.zones
    ensures s.zones[z].chunk > 0 && s.zones[z].base == BaseOffset(s.zones[z].chunk)
  {
    InvMeans(s);
    assert ZoneOk(z, s.zones[z], s.zoneSize);
  }

  lemma BaseIsMultiple(chunk: nat) returns (q: nat)
    requires chunk > 0 && IsPow2(chunk)
    ensures BaseOffset(chunk) == Times(q, chunk)
  {
    q := (HEADER + chunk - 1) / chunk;
  }

  lemma {:induction false} CarvedIndex(lo: nat, chunk: nat, n: nat, p: nat) returns (i: nat)
    requires p in Carved(lo, chunk, n)
    ensures p == lo + Times(i, chunk)
  {
    if p in Carved(lo, chunk, n - 1) {
      i := CarvedIndex(lo, chunk, n - 1, p);
    } else {
      i := n - 1;
    }
  }

  lemma ShiftMultiple(a: nat, p: nat, q: nat, i: nat, m: nat)
    requires p == a + Times(q, m) + Times(i, m) && m > 0
    ensures IsMultiple(p, m) <==> IsMultiple(a, m)
  {
    assert Times(q + i, m) == Times(q, m) + Times(i, m);
    if IsMultiple(a, m) {
      var k: nat :| Times(k, m) == a;
      assert Times(k + q + i, m) == p;
    }
    if IsMultiple(p, m) {
      var k: nat :| Times(k, m) == p;
      if k < q + i {
        MulGrows(k + 1, q + i, m);
      }
      assert Times(k - (q + i), m) == a;
    }
  }

  lemma SmallPow2(size: nat)
    requires IsPow2(size) && size <= PAGE
    ensures 1 <= size < ZONE_LIMIT && ZoneIndex(size).1 == if size < 8 then 8 else size
    ensures IsPow2(ZoneIndex(size).1) && IsMultiple(ZoneIndex(size).1, size)
  {
    Pow2Cases(size);
    OwnClass(size);
    assert IsPow2(1) && IsPow2(2) && IsPow2(4) && IsPow2(8);
    Pow2Divides(size, if size < 8 then 8 else size);
  }

  /** The powers of two up to a page. */
  predicate Listed(n: nat) {
    || n == 1 || n == 2 || n == 4 || n == 8 || n == 16 || n == 32 || n == 64
    || n == 128 || n == 256 || n == 512 || n == 1024 || n == 2048 || n == 4096
  }

  lemma OwnClass(n: nat)
    requires Listed(n)
    ensures ZoneIndex(n).1 == if n < 8 then 8 else n
  {
  }

  lemma {:induction false} Pow2Cases(n: nat)
    requires IsPow2(n) && n <= PAGE
    ensures Listed(n)
  {
    if n > 1 {
      Pow2Cases(n / 2);
      assert n == n / 2 * 2;
    }
  }

  lemma Pow2Multiple(m: nat, n: nat) returns (k: nat)
    requires IsPow2(m) && IsPow2(n) && m <= n
    ensures n == k * m
  {
    Pow2Divides(m, n);
    k :| Times(k, m) == n;
  }

  /** Requests of up to a page whose size is a power of two are aligned to it, in every heap. */
  lemma SmallAligned(s: Slab, size: nat)
    requires Inv(s) && IsPow2(size) && size <= PAGE && Malloc(s, size).0.Some?
    ensures IsMultiple(Malloc(s, size).0.value, size)
  {
    SmallPow2(size);
    ZoneSizeIs(s);
    var o := MallocKeeps(s, size);
    var (r, s') := Malloc(s, size);
    var chunk := ZoneIndex(size).1;
    assert Live(s', o, r.value);
    AlignedIff(s', o.z, r.value);
    PagesAligned(o.z, chunk);
    MultipleTimes(r.value, chunk, size);
  }

  lemma ZoneSizeIs(s: Slab)
    requires Sound(s)
    ensures IsZoneSize(s.zoneSize)
  {
    InvMeans(s);
  }

  // ---------- Whole pages ----------

  lemma InitPages(npages: nat, n: nat)
    requires n == (npages * 4 + PAGE - 1) / PAGE && 0 < n < npages
    ensures Init(npages).free == [Run(n, npages - n)]
  {
    assert Free([], 0, npages) == [Run(0, npages)];
    assert [Run(0, npages)][1..] == [];
  }

  /** The first request for whole pages comes to lie right behind the page table. */
  lemma FirstPages(npages: nat, n: nat, size: nat)
    requires n == (npages * 4 + PAGE - 1) / PAGE && 0 < n < npages && size % PAGE == 0 && size < U32
    requires size >= ChunkLimit(Init(npages).zoneSize) && 0 < size / PAGE <= npages - n
    ensures Inv(Init(npages)) && Malloc(Init(npages), size).0 == Some(n * PAGE)
  {
    InitHolds(npages);
    InitPages(npages, n);
    assert PagesFor(size) == size / PAGE by { WholePages(size); }
  }

  lemma WholePages(size: nat)
    requires size % PAGE == 0 && size < U32
    ensures PagesFor(size) == size / PAGE
  {
  }

  lemma Pow2Twice(n: nat)
    requires IsPow2(n)
    ensures IsPow2(2 * n)
  {
    assert 2 * n / 2 == n;
  }

  lemma TwiceTimes(h: nat, n: nat)
    ensures 2 * h * n == 2 * (h * n)
  {
  }

  lemma {:induction false} Pow2Times(m: nat, n: nat)
    requires IsPow2(m) && IsPow2(n)
    ensures IsPow2(m * n)
    decreases m
  {
    if m > 1 {
      var h := m / 2;
      Pow2Times(h, n);
      TwiceTimes(h, n);
      Pow2Twice(h * n);
    }
  }

  lemma WordIsPow2()
    ensures IsPow2(U32)
  {
    PageIsPow2();
    assert IsPow2(256);
    Pow2Times(PAGE, PAGE);
    Pow2Times(PAGE * PAGE, 256);
  }

  /** The largest power of two of 32 bits is 2^31. */
  lemma Pow2Below(size: nat)
    requires IsPow2(size) && size < U32
    ensures size <= U32 / 2
  {
    WordIsPow2();
    var k := Pow2Multiple(size, U32);
    if k < 2 {
      MulGrows(k, 1, size);
    } else {
      MulGrows(2, k, size);
    }
  }

  lemma NotBoth(a: nat, m: nat)
    requires m > PAGE && IsMultiple(a, m)
    ensures !IsMultiple(a + PAGE, m)
  {
    var i: nat :| Times(i, m) == a;
    if IsMultiple(a + PAGE, m) {
      var j: nat :| Times(j, m) == a + PAGE;
      MulGrows(j, i, m);
      MulGrows(i + 1, j, m);
    }
  }

  /** Two halves of the request, and a page table that is no larger than one of them. */
  lemma LargePow2(size: nat) returns (h: nat)
    requires IsPow2(size) && PAGE < size < U32
    ensures h > 0 && size == 2 * h * PAGE && 3 * h + 2 <= U32 / PAGE
    ensures 0 < (3 * h * 4 + PAGE - 1) / PAGE <= h
  {
    PageIsPow2();
    assert IsPow2(2 * PAGE);
    Pow2Below(size);
    var k := Pow2Multiple(PAGE, size);
    h := Pow2Multiple(2 * PAGE, size);
  }

  /** For every larger power of two there is a heap whose very first request is not aligned. */
  lemma Misaligned(size: nat) returns (npages: nat, heapStart: nat)
    requires IsPow2(size) && PAGE < size < U32
    ensures HeapAt(npages, heapStart) && Inv(Init(npages)) && !Aligned(Init(npages), heapStart, size)
  {
    var h := LargePow2(size);
    npages := 3 * h;
    var n := (npages * 4 + PAGE - 1) / PAGE;
    ZoneSizes(npages * PAGE);
    FirstPages(npages, n, size);
    heapStart := AwkwardStart(n, size);
  }

  /** Of two addresses a page apart at least one is not a multiple of more than a page. */
  lemma AwkwardStart(n: nat, size: nat) returns (heapStart: nat)
    requires size > PAGE
    ensures (heapStart == PAGE || heapStart == 2 * PAGE) && !IsMultiple(heapStart + n * PAGE, size)
  {
    heapStart := PAGE;
    if IsMultiple(heapStart + n * PAGE, size) {
      heapStart := 2 * PAGE;
      NotBoth(PAGE + n * PAGE, size);
    }
  }

  // ---------- Both ----------

  /** The page-aligned part of the address space that the heap has been given. */
  ghost predicate HeapAt(npages: nat, heapStart: nat) {
    npages > 0 && heapStart % PAGE == 0 && heapStart + npages * PAGE <= U32
  }

  ghost predicate Reachable(s: Slab, npages: nat) {
    exists run, ops :: IsRun(run, ops) && run[0] == Init(npages) && run[|run| - 1] == s
  }

  /** If rt_malloc(size) succeeds, the address is a multiple of size. */
  ghost predicate Aligned(s: Slab, heapStart: nat, size: nat)
    requires Inv(s)
  {
    Malloc(s, size).0.Some? ==> IsMultiple(heapStart + Malloc(s, size).0.value, size)
  }

  /** In every heap of every run at every address. */
  ghost predicate AlwaysAligned(size: nat) {
    forall s, npages, heapStart :: HeapAt(npages, heapStart) && Reachable(s, npages) ==>
        Inv(s) && Aligned(s, heapStart, size)
  }

  /** Requests whose size is a power of two are always aligned to their size exactly up to one page. */
  lemma PowersAligned(size: nat)
    requires IsPow2(size) && size < U32
    ensures AlwaysAligned(size) <==> size <= PAGE
  {
    if size <= PAGE {
      forall s, npages, heapStart | HeapAt(npages, heapStart) && Reachable(s, npages)
        ensures Inv(s) && Aligned(s, heapStart, size)
      {
        ReachableHolds(s, npages);
        AlignedAt(s, heapStart, size);
      }
    } else {
      var npages, heapStart := Misaligned(size);
      InitReachable(npages);
    }
  }

  lemma AlignedAt(s: Slab, heapStart: nat, size: nat)
    requires Inv(s) && heapStart % PAGE == 0 && IsPow2(size) && size <= PAGE
    ensures Aligned(s, heapStart, size)
  {
    if Malloc(s, size).0.Some? {
      SmallAligned(s, size);
      PagesAligned(heapStart / PAGE, size);
      MultipleAdds(heapStart, Malloc(s, size).0.value, size);
    }
  }

  lemma ReachableHolds(s: Slab, npages: nat)
    requires npages > 0 && Reachable(s, npages)
    ensures Inv(s)
  {
    var run, ops :| IsRun(run, ops) && run[0] == Init(npages) && run[|run| - 1] == s;
    RunKeeps(run, ops, npages, |run| - 1);
  }

  lemma InitReachable(npages: nat)
    ensures Reachable(Init(npages), npages)
  {
    var run: seq<Slab>, ops: seq<Op> := [Init(npages)], [];
    assert IsRun(run, ops) && run[|run| - 1] == Init(npages);
  }

  /** 8 KB requested from a fresh heap of 100 pages at 0x20000000 come to lie at 0x20001000. */
  lemma EightKilobytes()
    ensures HeapAt(100, 0x2000_0000) && Inv(Init(100)) && Malloc(Init(100), 8192).0 == Some(0x1000)
    ensures IsPow2(8192) && !IsMultiple(0x2000_1000, 8192)
  {
    PageIsPow2();
    FirstPages(100, 1, 8192);
    assert forall k: nat :: Times(k, 8192) != 0x2000_1000;
  }
}
