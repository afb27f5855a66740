/** rt_malloc and rt_free of the slab allocator as a whole. */
module SlabRuns {
  import opened Options
  import opened Memory
  import opened Pages
  import opened ZoneLayout
  import opened SlabSpec
  import opened SlabProofs
  import opened SlabKeeps

  /** The zone that owns a live pointer, or the pages handed out whole. */
  datatype Owner = ByZone(z: nat) | ByPages

  ghost predicate Live(s: Slab, o: Owner, p: nat) {
    match o
    case ByZone(z) => LiveChunk(s.zones, z, p)
    case ByPages => LiveLarge(s.large, p)
  }

  function SizeOf(s: Slab, o: Owner, p: nat): nat {
    match o
    case ByZone(z) => if z in s.zones then s.zones[z].chunk else 0
    case ByPages => if p / PAGE in s.held then s.held[p / PAGE] * PAGE else 0
  }

  /** Exactly the pointer p of owner o has become live. */
  ghost predicate GrowsBy(s: Slab, s': Slab, o: Owner, p: nat) {
    !Live(s, o, p) && forall y, q :: Live(s', y, q) <==> Live(s, y, q) || (y == o && q == p)
  }

  ghost predicate ShrinksBy(s: Slab, s': Slab, o: Owner, p: nat) {
    Live(s, o, p) && forall y, q :: Live(s', y, q) <==> Live(s, y, q) && !(y == o && q == p)
  }

  // ---------- rt_malloc ----------

  /** The allocator has no room for the request. */
  ghost predicate Exhausted(s: Slab, size: nat) {
    if size == 0 then true
    else if size >= ChunkLimit(s.zoneSize) then
      PagesFor(size) == 0 || forall b :: b in s.free ==> b.n < PagesFor(size)
    else if size < ZONE_LIMIT then
      && (forall z :: z in s.zones && s.zones[z].chunk == ZoneIndex(size).1 ==> s.zones[z].nfree == 0)
      && s.spare == []
      && forall b :: b in s.free ==> b.n < ZonePages(s.zoneSize)
    else false
  }

  lemma AddsGrows(s: Slab, s': Slab, z: nat, p: nat)
    requires LiveAdds(s, s', z, p)
    ensures GrowsBy(s, s', ByZone(z), p)
  {
  }

  lemma PageAllocFails(s: Slab, n: nat)
    requires Sound(s)
    ensures PageAlloc(s.free, n).0 == None <==> n == 0 || forall b :: b in s.free ==> b.n < n
  {
    InvMeans(s);
    if n > 0 {
      AllocTakes(s.free, n, Alloc(s.free, n).0, Alloc(s.free, n).1);
    }
  }

  lemma PagesHold(size: nat)
    requires size < U32 && PagesFor(size) > 0
    ensures PagesFor(size) * PAGE >= size
  {
  }

  /** The bytes that rt_malloc sets aside: a chunk of the class, or whole pages. */
  function BlockSize(zoneSize: nat, size: nat): nat {
    if size >= ChunkLimit(zoneSize) then PagesFor(size) * PAGE
    else if 1 <= size < ZONE_LIMIT then ZoneIndex(size).1
    else 0
  }

  lemma MallocsPages(s: Slab, size: nat) returns (o: Owner)
    requires Inv(s) && ChunkLimit(s.zoneSize) <= size < U32 && size > 0
    ensures var (r, s') := MallocLarge(s, size);
            && Inv(s') && (r == None <==> Exhausted(s, size)) && (r == None ==> s' == s)
            && o.ByPages?
            && (r.Some? ==> GrowsBy(s, s', o, r.value) && SizeOf(s', o, r.value) == PagesFor(size) * PAGE >= size)
  {
    o := ByPages;
    LargeKeeps(s, size);
    PageAllocFails(s, PagesFor(size));
    if PagesFor(size) > 0 {
      PagesHold(size);
    }
  }

  /** A zone of the class with a free chunk is listed, and only such zones are. */
  lemma ListEmpty(s: Slab, size: nat)
    requires Sound(s) && 1 <= size < ChunkLimit(s.zoneSize) && size < ZONE_LIMIT
    ensures ZoneIndex(size).0 < |s.lists|
    ensures s.lists[ZoneIndex(size).0] == [] <==>
              forall z :: z in s.zones && s.zones[z].chunk == ZoneIndex(size).1 ==> s.zones[z].nfree == 0
  {
    InvMeans(s);
    SmallestClass(size);
    var (zi, chunk) := ZoneIndex(size);
    var list := s.lists[zi];
    assert ListOk(list, zi, s.zones);
    if list != [] {
      assert list[0] in list && ZoneOk(list[0], s.zones[list[0]], s.zoneSize);
    }
    forall z | z in s.zones && s.zones[z].chunk == chunk ensures s.zones[z].nfree > 0 <==> z in list
                                                        ensures s.zones[z].nfree >= 0 {
      assert ZoneOk(z, s.zones[z], s.zoneSize);
      WholeZone(z, s.zones[z], s.zoneSize);
      SameClass(zi, s.zones[z].zi);
    }
  }

  lemma SameClass(i: nat, j: nat)
    requires i < NZONES && j < NZONES && ChunkOf(i) == ChunkOf(j)
    ensures i == j
  {
    if i < j { ChunksGrow(i, j); }
    if j < i { ChunksGrow(j, i); }
  }

  lemma MallocTakes(s: Slab, size: nat) returns (o: Owner)
    requires Inv(s) && 1 <= size < ChunkLimit(s.zoneSize) && size < ZONE_LIMIT
    requires ZoneIndex(size).0 < |s.lists| && s.lists[ZoneIndex(size).0] != []
    ensures var (r, s') := Malloc(s, size);
            && r.Some? && Inv(s') && GrowsBy(s, s', o, r.value)
            && o.ByZone? && SizeOf(s', o, r.value) == ZoneIndex(size).1 >= size
  {
    SmallestClass(size);
    var zi := ZoneIndex(size).0;
    TakeKeeps(s, zi);
    var z := s.lists[zi][0];
    o := ByZone(z);
    AddsGrows(s, TakeChunk(s, zi).1, z, TakeChunk(s, zi).0);
    HeadChunk(s, zi);
  }

  lemma HeadChunk(s: Slab, zi: nat)
    requires Sound(s) && zi < |s.lists| && s.lists[zi] != []
    ensures zi < NZONES && s.lists[zi][0] in s.zones && s.zones[s.lists[zi][0]].chunk == ChunkOf(zi)
  {
    InvMeans(s);
    assert ListOk(s.lists[zi], zi, s.zones);
    assert s.lists[zi][0] in s.lists[zi];
    assert ZoneOk(s.lists[zi][0], s.zones[s.lists[zi][0]], s.zoneSize);
  }

  /** s1 is s itself, or s with a fresh spare zone. */
  lemma MallocOpens(s: Slab, s1: Slab, size: nat) returns (o: Owner)
    requires Sound(s1) && LiveSame(s, s1) && s1.zoneSize == s.zoneSize && 1 <= |s1.spare| <= RELEASE_THRESH
    requires 1 <= size < ChunkLimit(s.zoneSize)
    ensures var (zi, chunk) := ZoneIndex(size);
            && IsZoneSize(s.zoneSize) && size < ZONE_LIMIT && zi < |s1.lists|
            && chunk > 0 && s.zoneSize >= BaseOffset(chunk)
            && var (p, s') := OpenZone(s1, zi, chunk);
               Inv(s') && GrowsBy(s, s', o, p) && o.ByZone? && SizeOf(s', o, p) == chunk >= size
  {
    OpenKeeps(s1, size);
    SmallestClass(size);
    var (zi, chunk) := ZoneIndex(size);
    o := ByZone(s1.spare[0]);
    var (p, s') := OpenZone(s1, zi, chunk);
    AddsGrows(s1, s', s1.spare[0], p);
    SameGrows(s, s1, s', o, p);
  }

  lemma SameGrows(s: Slab, s1: Slab, s': Slab, o: Owner, p: nat)
    requires LiveSame(s, s1) && GrowsBy(s1, s', o, p)
    ensures GrowsBy(s, s', o, p)
  {
    forall y, q ensures Live(s1, y, q) <==> Live(s, y, q) {
    }
  }

  /** rt_malloc keeps the invariant and makes exactly its result live, with enough room, a chunk or whole
      pages as the size asks for; it fails,
      changing nothing, exactly when the allocator has no room. */
  lemma MallocKeeps(s: Slab, size: nat) returns (o: Owner)
    requires Inv(s) && size < U32
    ensures var (r, s') := Malloc(s, size);
            && Inv(s') && (r == None <==> Exhausted(s, size)) && (r == None ==> s' == s)
            && (r.Some? ==> GrowsBy(s, s', o, r.value) && SizeOf(s', o, r.value) == BlockSize(s.zoneSize, size) >= size)
            && (r.Some? ==> (o.ByPages? <==> size >= ChunkLimit(s.zoneSize)))
  {
    o := ByPages;
    if size >= ChunkLimit(s.zoneSize) && size > 0 {
      o := MallocsPages(s, size);
    } else if size > 0 {
      MallocReady(s, size);
      ListEmpty(s, size);
      if s.lists[ZoneIndex(size).0] != [] {
        o := MallocTakes(s, size);
      } else if s.spare != [] {
        o := MallocOpens(s, s, size);
      } else {
        PageAllocFails(s, ZonePages(s.zoneSize));
        RefillKeeps(s);
        if Refill(s).spare != [] {
          o := MallocOpens(s, Refill(s), size);
        }
      }
    }
  }

  // ---------- rt_free ----------

  /** The page table leads from a live pointer to its owner. */
  lemma Recovers(s: Slab, o: Owner, p: nat)
    requires Sound(s) && Live(s, o, p)
    ensures Freeable(s, p)
    ensures o.ByZone? ==> s.kup[p / PAGE].Small? && p / PAGE - s.kup[p / PAGE].off == o.z
    ensures o.ByPages? ==> p / PAGE in s.held && s.kup[p / PAGE] == Large(s.held[p / PAGE])
  {
    InvMeans(s);
    match o
    case ByZone(z) =>
      var n := ZonePages(s.zoneSize);
      assert ZoneOk(z, s.zones[z], s.zoneSize);
      ChunkInside(z, s.zones[z], s.zoneSize, p);
      ChunkPositive(s.zones[z].zi);
      PageInside(z, n, p);
      assert z in s.zones.Keys + Elements(s.spare) && Marked(s.kup, z, n);
      assert s.kup[p / PAGE] == Small(p / PAGE - z);
    case ByPages =>
      assert s.kup[p / PAGE] == Large(s.held[p / PAGE]);
  }

  lemma PageInside(z: nat, n: nat, p: nat)
    requires z * PAGE <= p < z * PAGE + n * PAGE
    ensures z <= p / PAGE < z + n
  {
  }

  lemma DropsShrinks(s: Slab, s': Slab, z: nat, p: nat)
    requires LiveDrops(s, s', z, p)
    ensures ShrinksBy(s, s', ByZone(z), p)
  {
  }

  lemma SameShrinks(s: Slab, s1: Slab, s': Slab, o: Owner, p: nat)
    requires ShrinksBy(s, s1, o, p) && LiveSame(s1, s')
    ensures ShrinksBy(s, s', o, p)
  {
    forall y, q ensures Live(s', y, q) <==> Live(s1, y, q) {
    }
  }

  lemma FreeChunkKeeps(s: Slab, z: nat, p: nat)
    requires Inv(s) && LiveChunk(s.zones, z, p)
    ensures s.zones[z].zi < |s.lists|
    ensures Inv(FreeChunk(s, z, p)) && ShrinksBy(s, FreeChunk(s, z, p), ByZone(z), p)
  {
    GiveKeeps(s, z, p);
    var s1 := GiveChunk(s, z, p);
    DropsShrinks(s, s1, z, p);
    if Retires(s1, z) {
      RetireKeeps(s1, z);
      var s2 := Retire(s1, z);
      SameShrinks(s, s1, s2, ByZone(z), p);
      if |s2.spare| > RELEASE_THRESH {
        ReleaseKeeps(s2);
        SameShrinks(s, s2, Release(s2), ByZone(z), p);
      }
    }
  }

  /** rt_free of a live pointer ends the life of that pointer and of no other, and gives back exactly
      its chunk or its pages. */
  lemma FreeKeeps(s: Slab, o: Owner, p: nat)
    requires Inv(s) && Live(s, o, p)
    ensures Freeable(s, p) && Inv(FreeOf(s, p)) && ShrinksBy(s, FreeOf(s, p), o, p)
  {
    Recovers(s, o, p);
    match o
    case ByZone(z) => FreeChunkKeeps(s, z, p);
    case ByPages => FreeLargeKeeps(s, p);
  }

  // ---------- Live blocks are disjoint ----------

  ghost function RunOf(o: Owner, p: nat): nat {
    match o
    case ByZone(z) => z
    case ByPages => p / PAGE
  }

  lemma LiveInside(s: Slab, o: Owner, p: nat)
    requires Sound(s) && Live(s, o, p)
    ensures RunOf(o, p) in s.held && SizeOf(s, o, p) > 0
    ensures RunOf(o, p) * PAGE <= p && p + SizeOf(s, o, p) <= (RunOf(o, p) + s.held[RunOf(o, p)]) * PAGE
  {
    InvMeans(s);
    match o
    case ByZone(z) =>
      assert ZoneOk(z, s.zones[z], s.zoneSize);
      ChunkInside(z, s.zones[z], s.zoneSize, p);
      ChunkPositive(s.zones[z].zi);
      assert z in s.zones.Keys;
      assert s.held[z] * PAGE == s.zoneSize;
    case ByPages =>
      assert p / PAGE in s.large;
      assert s.held[p / PAGE] > 0;
  }

  /** Two live blocks never overlap. */
  lemma LiveApart(s: Slab, o: Owner, p: nat, y: Owner, q: nat)
    requires Inv(s) && Live(s, o, p) && Live(s, y, q) && (o, p) != (y, q)
    ensures p + SizeOf(s, o, p) <= q || q + SizeOf(s, y, q) <= p
  {
    LiveInside(s, o, p);
    LiveInside(s, y, q);
    InvMeans(s);
    var a, b := RunOf(o, p), RunOf(y, q);
    if a != b {
      assert if a < b then a + s.held[a] <= b else b + s.held[b] <= a;
      RunsBeside(s, a, b);
    } else if o.ByZone? && y.ByZone? {
      var zone := s.zones[o.z];
      assert ZoneOk(o.z, zone, s.zoneSize);
      ChunkPositive(zone.zi);
      var lo := o.z * PAGE + zone.base;
      if p < q {
        CarvedApart(lo, zone.chunk, zone.uindex + 1, p, q);
      } else {
        CarvedApart(lo, zone.chunk, zone.uindex + 1, q, p);
      }
    }
  }

  lemma RunsBeside(s: Slab, a: nat, b: nat)
    requires a in s.held && b in s.held && if a < b then a + s.held[a] <= b else b + s.held[b] <= a
    ensures if a < b then (a + s.held[a]) * PAGE <= b * PAGE else (b + s.held[b]) * PAGE <= a * PAGE
  {
  }

  // ---------- rt_realloc ----------

  /** What zoneindex makes of the size: it leaves sizes of 16 KB and more alone. */
  function Rounded(size: nat): nat {
    if 1 <= size < ZONE_LIMIT then ZoneIndex(size).1 else size
  }

  /** rt_malloc, rt_memcpy and rt_free. */
  function Move(s: Slab, data: Bytes, p: nat, had: nat, size: nat): (Option<nat>, Slab, Bytes)
    requires Inv(s)
  {
    var (r, s1) := Malloc(s, size);
    if r == None then (None, s1, data)
    else (r, if Freeable(s1, p) then FreeOf(s1, p) else s1, Copy(data, r.value, p, Least(size, had)))
  }

  /** The null pointer or a live one. */
  ghost predicate Usable(s: Slab, p: Option<nat>) {
    p.Some? ==> Freeable(s, p.value) && exists o :: Live(s, o, p.value)
  }

  /** rt_realloc. */
  function Realloc(s: Slab, data: Bytes, p: Option<nat>, size: nat): (Option<nat>, Slab, Bytes)
    requires Inv(s) && (p.Some? ==> Freeable(s, p.value))
  {
    if p == None then (Malloc(s, size).0, Malloc(s, size).1, data)
    else if size == 0 then (None, FreeOf(s, p.value), data)
    else
      match s.kup[p.value / PAGE]
      case Large(n) => Move(s, data, p.value, n * PAGE, size)
      case Small(off) =>
        var chunk, bytes := s.zones[p.value / PAGE - off].chunk, Rounded(size);
        if chunk == bytes then (p, s, data) else Move(s, data, p.value, chunk, bytes)
      case Unused => (None, s, data)
  }

  /** p of owner o has been replaced by q of owner y, and all others are live as before. */
  ghost predicate LiveMoves(s: Slab, s': Slab, o: Owner, p: nat, y: Owner, q: nat) {
    forall z, x :: Live(s', z, x) <==> (Live(s, z, x) && !(z == o && x == p)) || (z == y && x == q)
  }

  /** The live blocks other than p have their bytes. */
  ghost predicate OthersKept(s: Slab, data: Bytes, data': Bytes, o: Owner, p: nat) {
    forall z, x {:trigger Live(s, z, x)} :: Live(s, z, x) && !(z == o && x == p) ==> BytesKept(s, data, data', z, x)
  }

  ghost predicate BytesKept(s: Slab, data: Bytes, data': Bytes, o: Owner, p: nat) {
    SameBytes(data, data', p, SizeOf(s, o, p))
  }

  /** q of owner y has come in place of p, with room for size bytes; the bytes that fit have come along,
      and the other live blocks have their bytes. */
  ghost predicate Replaces(s: Slab, data: Bytes, o: Owner, p: nat, s': Slab, data': Bytes, y: Owner, q: nat,
                           size: nat) {
    && SizeOf(s', y, q) >= size && LiveMoves(s, s', o, p, y, q)
    && SameContents(data, p, data', q, Least(size, SizeOf(s, o, p))) && OthersKept(s, data, data', o, p)
  }

  /** A live block keeps its size through an rt_malloc. */
  lemma MallocSizes(s: Slab, size: nat, o: Owner, p: nat)
    requires Inv(s) && Live(s, o, p)
    ensures SizeOf(Malloc(s, size).1, o, p) == SizeOf(s, o, p)
  {
    RunHeld(s, o, p);
    if size >= ChunkLimit(s.zoneSize) {
      TakenFresh(s, PagesFor(size));
    } else {
      TakenFresh(s, ZonePages(s.zoneSize));
      RefillKeeps(s);
      SpareFresh(s);
      SpareFresh(Refill(s));
    }
  }

  lemma RunHeld(s: Slab, o: Owner, p: nat)
    requires Sound(s) && Live(s, o, p)
    ensures RunOf(o, p) in s.held && (o.ByZone? ==> o.z in s.zones)
  {
    InvMeans(s);
    match o
    case ByZone(z) => assert z in s.zones.Keys;
    case ByPages => assert p / PAGE in s.large;
  }

  /** A run taken from the page allocator was not held before. */
  lemma TakenFresh(s: Slab, n: nat)
    requires Sound(s)
    ensures PageAlloc(s.free, n).0.Some? ==> PageAlloc(s.free, n).0.value !in s.held
  {
    InvMeans(s);
    var (r, free) := PageAlloc(s.free, n);
    if r.Some? {
      HeldTake(s.free, s.held, n, r.value, free);
    }
  }

  lemma SpareFresh(s: Slab)
    requires Sound(s)
    ensures s.spare != [] ==> s.spare[0] !in s.zones
  {
    InvMeans(s);
    assert s.spare != [] ==> s.spare[0] in s.spare;
  }

  /** What rt_realloc promises of its result: a replacement with room, or nothing has changed. */
  ghost predicate Answers(s: Slab, data: Bytes, o: Owner, p: nat, size: nat, y: Owner,
                          answer: (Option<nat>, Slab, Bytes)) {
    var (r, s', data') := answer;
    && Inv(s') && (r == None ==> s' == s && data' == data)
    && (r.Some? ==> Replaces(s, data, o, p, s', data', y, r.value, size))
  }

  lemma MoveReplaces(s: Slab, data: Bytes, o: Owner, p: nat, size: nat) returns (y: Owner)
    requires Inv(s) && Live(s, o, p) && 0 < size < U32
    ensures Answers(s, data, o, p, size, y, Move(s, data, p, SizeOf(s, o, p), size))
  {
    y := MallocKeeps(s, size);
    var (r, s1) := Malloc(s, size);
    if r.Some? {
      FreeKeeps(s1, o, p);
      var n := Least(size, SizeOf(s, o, p));
      CopyContents(data, r.value, p, n);
      KeepsSize(s1, o, p, y, r.value);
      MoveLives(s, s1, FreeOf(s1, p), o, p, y, r.value);
      MoveKeeps(s, data, o, p, size, y, n);
    }
  }

  lemma MoveLives(s: Slab, s1: Slab, s': Slab, o: Owner, p: nat, y: Owner, q: nat)
    requires Live(s, o, p) && GrowsBy(s, s1, y, q) && ShrinksBy(s1, s', o, p)
    ensures LiveMoves(s, s', o, p, y, q)
  {
  }

  lemma MoveKeeps(s: Slab, data: Bytes, o: Owner, p: nat, size: nat, y: Owner, n: int)
    requires Inv(s) && 0 < size < U32 && n <= size && Malloc(s, size).0.Some?
    requires var (r, s1) := Malloc(s, size); Inv(s1) && GrowsBy(s, s1, y, r.value) && SizeOf(s1, y, r.value) >= size
    ensures OthersKept(s, data, Copy(data, Malloc(s, size).0.value, p, n), o, p)
  {
    var q := Malloc(s, size).0.value;
    forall z: Owner, x: nat | Live(s, z, x) && !(z == o && x == p)
      ensures BytesKept(s, data, Copy(data, q, p, n), z, x)
    {
      MallocSizes(s, size, z, x);
      LiveApart(Malloc(s, size).1, y, q, z, x);
      CopyBeside(data, q, p, n, x, SizeOf(s, z, x));
    }
  }

  /** Another block keeps its size when one is freed. */
  lemma KeepsSize(s: Slab, o: Owner, p: nat, y: Owner, q: nat)
    requires Inv(s) && Live(s, o, p) && Live(s, y, q) && (o, p) != (y, q)
    ensures Freeable(s, p) && SizeOf(FreeOf(s, p), y, q) == SizeOf(s, y, q)
  {
    FreeKeeps(s, o, p);
    Recovers(s, o, p);
    RunHeld(s, y, q);
    RunHeld(FreeOf(s, p), y, q);
  }

  lemma RoundedUp(size: nat)
    requires 0 < size < U32
    ensures size <= Rounded(size) < U32
  {
    if size < ZONE_LIMIT {
      SmallestClass(size);
    }
  }

  /** rt_realloc of a live pointer to a nonzero size replaces it by one with room for that size, keeping
      the bytes that fit and all other live blocks with their bytes; or it fails and changes nothing. */
  lemma ReallocMoves(s: Slab, data: Bytes, o: Owner, p: nat, size: nat) returns (y: Owner)
    requires Inv(s) && Live(s, o, p) && 0 < size < U32
    ensures Freeable(s, p) && Answers(s, data, o, p, size, y, Realloc(s, data, Some(p), size))
  {
    Recovers(s, o, p);
    match o
    case ByPages =>
      LargeLength(s, p);
      y := MoveReplaces(s, data, ByPages, p, size);
    case ByZone(z) =>
      y := ChunkMoves(s, data, z, p, size);
      ChunkReallocs(s, data, z, p, size);
  }

  lemma ChunkReallocs(s: Slab, data: Bytes, z: nat, p: nat, size: nat)
    requires Inv(s) && Live(s, ByZone(z), p) && Freeable(s, p) && size > 0
    ensures Realloc(s, data, Some(p), size) == ChunkAnswer(s, data, z, p, size)
  {
    Recovers(s, ByZone(z), p);
  }

  function ChunkAnswer(s: Slab, data: Bytes, z: nat, p: nat, size: nat): (Option<nat>, Slab, Bytes)
    requires Inv(s) && z in s.zones
  {
    if s.zones[z].chunk == Rounded(size) then (Some(p), s, data)
    else Move(s, data, p, s.zones[z].chunk, Rounded(size))
  }

  lemma ChunkMoves(s: Slab, data: Bytes, z: nat, p: nat, size: nat) returns (y: Owner)
    requires Inv(s) && Live(s, ByZone(z), p) && 0 < size < U32
    ensures Answers(s, data, ByZone(z), p, size, y, ChunkAnswer(s, data, z, p, size))
  {
    RoundedUp(size);
    y := ByZone(z);
    if s.zones[z].chunk != Rounded(size) {
      y := MoveReplaces(s, data, ByZone(z), p, Rounded(size));
      AnswersLess(s, data, y, ByZone(z), p, Rounded(size), size, Move(s, data, p, s.zones[z].chunk, Rounded(size)));
    }
  }

  lemma AnswersLess(s: Slab, data: Bytes, y: Owner, o: Owner, p: nat, size: nat, n: nat,
                    answer: (Option<nat>, Slab, Bytes))
    requires Answers(s, data, o, p, size, y, answer) && n <= size
    ensures Answers(s, data, o, p, n, y, answer)
  {
  }

  lemma LargeLength(s: Slab, p: nat)
    requires Sound(s) && Live(s, ByPages, p)
    ensures p / PAGE in s.kup && s.kup[p / PAGE].Large? && s.kup[p / PAGE].n * PAGE == SizeOf(s, ByPages, p)
  {
    Recovers(s, ByPages, p);
  }

  lemma ReallocKeeps(s: Slab, data: Bytes, p: Option<nat>, size: nat)
    requires Inv(s) && Usable(s, p) && size < U32
    ensures Inv(Realloc(s, data, p, size).1)
  {
    if p.Some? {
      var o :| Live(s, o, p.value);
      if size > 0 {
        var y := ReallocMoves(s, data, o, p.value, size);
      } else {
        FreeKeeps(s, o, p.value);
      }
    } else {
      var o := MallocKeeps(s, size);
    }
  }

  // ---------- Whole runs ----------

  lemma ZoneSizes(limsize: nat)
    ensures IsZoneSize(GrowZone(0x8000, limsize))
  {
    assert GrowZone(0x20000, limsize) == 0x20000;
    assert GrowZone(0x10000, limsize) == 0x10000 || GrowZone(0x10000, limsize) == GrowZone(0x20000, limsize);
  }

  lemma InitHolds(npages: nat)
    requires npages > 0
    ensures Inv(Init(npages)) && forall o, p :: !Live(Init(npages), o, p)
  {
    var n := (npages * 4 + PAGE - 1) / PAGE;
    var all := [Run(0, npages)];
    assert all[1..] == [];
    assert Canonical(all) && Held(all, map[]);
    var (r, free) := PageAlloc(all, n);
    AllocTakes(all, n, r, free);
    assert all[0] in all;
    HeldTake(all, map[], n, r.value, free);
    ZoneSizes(npages * PAGE);
    var s := Init(npages);
    forall i | 0 <= i < NZONES ensures ListOk(s.lists[i], i, s.zones) {
    }
    assert Core(s);
    InvMeans(s);
  }

  datatype Op = OpMalloc(size: nat) | OpFree(p: nat) | OpRealloc(ptr: Option<nat>, size: nat)

  ghost predicate IsStep(s: Slab, op: Op, s': Slab) {
    match op
    case OpMalloc(size) => size < U32 && (Inv(s) ==> s' == Malloc(s, size).1)
    case OpFree(p) => Freeable(s, p) && (exists o :: Live(s, o, p)) && s' == FreeOf(s, p)
    case OpRealloc(p, size) => size < U32 && Usable(s, p) && (Inv(s) ==> s' == Realloc(s, map[], p, size).1)
  }

  ghost predicate IsRun(run: seq<Slab>, ops: seq<Op>) {
    && |run| == |ops| + 1
    && forall i, j {:trigger run[i], run[j]} :: 0 <= i < |ops| && j == i + 1 ==> IsStep(run[i], ops[i], run[j])
  }

  /** Every state of every run from initialisation satisfies the invariant. */
  lemma {:induction false} RunKeeps(run: seq<Slab>, ops: seq<Op>, npages: nat, i: nat)
    requires npages > 0 && IsRun(run, ops) && run[0] == Init(npages) && i < |run|
    ensures Inv(run[i])
  {
    if i == 0 {
      InitHolds(npages);
    } else {
      RunKeeps(run, ops, npages, i - 1);
      var s, op := run[i - 1], ops[i - 1];
      assert IsStep(s, op, run[i]);
      match op
      case OpMalloc(size) =>
        var o := MallocKeeps(s, size);
      case OpFree(p) =>
        var o :| Live(s, o, p);
        FreeKeeps(s, o, p);
      case OpRealloc(p, size) => ReallocKeeps(s, map[], p, size);
    }
  }
}
