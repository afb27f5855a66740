/** The slab allocator (src/slab.c): zones of equal chunks on top of the page allocator.

    Addresses are offsets from the start of the heap; a page is named by its number.
  */
module SlabSpec {
  import opened Seqs
  import opened Options
  import opened IpcList
  import opened Pages
  import opened ZoneLayout

  const U32 := 0x1_0000_0000
  const RELEASE_THRESH := 2

  /** One memusage entry. */
  datatype Usage = Unused | Small(off: nat) | Large(n: nat)

  /** A zone header; freeChunks is the chain that starts at z_freechunk. */
  datatype Zone = Zone(nfree: int, nmax: nat, base: nat, uindex: nat, chunk: nat, zi: nat, freeChunks: seq<nat>)

  /** zones are the zones in use, by first page; lists is zone_array, spare is zone_free.  held maps the
      first page of every run taken from the page allocator to its length, and large says which of
      them were handed out whole: the program does not store these two. */
  datatype Slab = Slab(zoneSize: nat, free: seq<Run>, zones: map<nat, Zone>, lists: seq<seq<nat>>, spare: seq<nat>,
                       kup: map<nat, Usage>, held: map<nat, nat>, large: set<nat>)

  // ---------- Operations ----------

  function ZonePages(zoneSize: nat): nat {
    zoneSize / PAGE
  }

  function SetSmall(kup: map<nat, Usage>, z: nat, n: nat): map<nat, Usage> {
    if n == 0 then kup else SetSmall(kup, z, n - 1)[z + n - 1 := Small(n - 1)]
  }

  function SetUnused(kup: map<nat, Usage>, z: nat, n: nat): map<nat, Usage> {
    if n == 0 then kup else SetUnused(kup, z, n - 1)[z + n - 1 := Unused]
  }

  /** The page count rt_malloc asks for; the alignment wraps. */
  function PagesFor(size: nat): nat {
    (size + PAGE - 1) % U32 / PAGE
  }

  /** rt_page_alloc, with its refusal of zero pages. */
  function PageAlloc(free: seq<Run>, n: nat): (Option<nat>, seq<Run>) {
    if n == 0 then (None, free) else Alloc(free, n)
  }

  function MallocLarge(s: Slab, size: nat): (Option<nat>, Slab) {
    var n := PagesFor(size);
    var (r, free) := PageAlloc(s.free, n);
    if r == None then (None, s)
    else
      var a := r.value;
      (Some(a * PAGE), s.(free := free, held := s.held[a := n], large := s.large + {a}, kup := s.kup[a := Large(n)]))
  }

  predicate HasRoom(zone: Zone) {
    zone.uindex + 1 != zone.nmax || zone.freeChunks != []
  }

  function ZoneTake(z: nat, zone: Zone): (nat, Zone)
    requires HasRoom(zone)
  {
    if zone.uindex + 1 != zone.nmax then
      (z * PAGE + zone.base + (zone.uindex + 1) * zone.chunk, zone.(nfree := zone.nfree - 1, uindex := zone.uindex + 1))
    else (zone.freeChunks[0], zone.(nfree := zone.nfree - 1, freeChunks := zone.freeChunks[1..]))
  }

  function TakeChunk(s: Slab, zi: nat): (nat, Slab)
    requires zi < |s.lists| && s.lists[zi] != [] && s.lists[zi][0] in s.zones && HasRoom(s.zones[s.lists[zi][0]])
  {
    var z := s.lists[zi][0];
    var (p, zone) := ZoneTake(z, s.zones[z]);
    (p, s.(zones := s.zones[z := zone],
           lists := if zone.nfree == 0 then s.lists[zi := s.lists[zi][1..]] else s.lists))
  }

  /** A fresh zone from the page allocator joins the spare zones. */
  function Refill(s: Slab): Slab {
    var n := ZonePages(s.zoneSize);
    var (r, free) := PageAlloc(s.free, n);
    if r == None then s
    else
      var z := r.value;
      s.(free := free, held := s.held[z := n], kup := SetSmall(s.kup, z, n), spare := [z] + s.spare)
  }

  function NewZone(zoneSize: nat, zi: nat, chunk: nat): Zone
    requires chunk > 0 && zoneSize >= BaseOffset(chunk)
  {
    var base := BaseOffset(chunk);
    var nmax := (zoneSize - base) / chunk;
    Zone(nmax - 1, nmax, base, 0, chunk, zi, [])
  }

  function OpenZone(s: Slab, zi: nat, chunk: nat): (nat, Slab)
    requires s.spare != [] && zi < |s.lists| && chunk > 0 && s.zoneSize >= BaseOffset(chunk)
  {
    var z := s.spare[0];
    var zone := NewZone(s.zoneSize, zi, chunk);
    (z * PAGE + zone.base,
     s.(spare := s.spare[1..], zones := s.zones[z := zone], lists := s.lists[zi := [z] + s.lists[zi]]))
  }

  /** rt_malloc. */
  function Malloc(s: Slab, size: nat): (Option<nat>, Slab)
    requires Inv(s)
  {
    if size == 0 then (None, s)
    else if size >= ChunkLimit(s.zoneSize) then MallocLarge(s, size)
    else
      MallocReady(s, size);
      var (zi, bytes) := ZoneIndex(size);
      if s.lists[zi] != [] then
        var (p, s') := TakeChunk(s, zi);
        (Some(p), s')
      else
        var s1 := if s.spare == [] then Refill(s) else s;
        if s1.spare == [] then (None, s)
        else
          var (p, s') := OpenZone(s1, zi, bytes);
          (Some(p), s')
  }

  lemma MallocReady(s: Slab, size: nat)
    requires Sound(s) && 1 <= size < ChunkLimit(s.zoneSize)
    ensures IsZoneSize(s.zoneSize) && size < ZONE_LIMIT && ZoneIndex(size).0 < |s.lists| == NZONES
    ensures 0 < ZoneIndex(size).1 == ChunkOf(ZoneIndex(size).0) && s.zoneSize >= BaseOffset(ZoneIndex(size).1)
    ensures var list := s.lists[ZoneIndex(size).0]; list != [] ==> list[0] in s.zones && HasRoom(s.zones[list[0]])
  {
    InvMeans(s);
    ThreeChunks(s.zoneSize, size);
    SmallestClass(size);
    var zi := ZoneIndex(size).0;
    assert ListOk(s.lists[zi], zi, s.zones);
    if s.lists[zi] != [] {
      assert s.lists[zi][0] in s.lists[zi];
      assert ZoneOk(s.lists[zi][0], s.zones[s.lists[zi][0]], s.zoneSize);
    }
  }

  function FreeLarge(s: Slab, p: nat): Slab
    requires p / PAGE in s.kup && s.kup[p / PAGE].Large?
  {
    var a, n := p / PAGE, s.kup[p / PAGE].n;
    s.(kup := s.kup[a := Large(0)], free := Free(s.free, a, n), held := s.held - {a}, large := s.large - {a})
  }

  function GiveChunk(s: Slab, z: nat, p: nat): Slab
    requires z in s.zones && s.zones[z].zi < |s.lists|
  {
    var zone, zi := s.zones[z], s.zones[z].zi;
    s.(zones := s.zones[z := zone.(nfree := zone.nfree + 1, freeChunks := [p] + zone.freeChunks)],
       lists := if zone.nfree == 0 then s.lists[zi := [z] + s.lists[zi]] else s.lists)
  }

  /** The zone is wholly free, and it is not alone on its list. */
  predicate Retires(s: Slab, z: nat)
    requires z in s.zones && s.zones[z].zi < |s.lists|
  {
    var zone, list := s.zones[z], s.lists[s.zones[z].zi];
    zone.nfree == zone.nmax && list != [] && (list[|list| - 1] != z || list[0] != z)
  }

  function Retire(s: Slab, z: nat): Slab
    requires z in s.zones && s.zones[z].zi < |s.lists|
  {
    var zi := s.zones[z].zi;
    s.(lists := s.lists[zi := Remove(s.lists[zi], z)], zones := s.zones - {z}, spare := [z] + s.spare)
  }

  function Release(s: Slab): Slab
    requires s.spare != []
  {
    var z, n := s.spare[0], ZonePages(s.zoneSize);
    s.(spare := s.spare[1..], kup := SetUnused(s.kup, z, n), free := Free(s.free, z, n), held := s.held - {z})
  }

  /** rt_free of a pointer that is live. */
  function FreeChunk(s: Slab, z: nat, p: nat): Slab
    requires z in s.zones && s.zones[z].zi < |s.lists|
  {
    var s1 := GiveChunk(s, z, p);
    if Retires(s1, z) then
      var s2 := Retire(s1, z);
      if |s2.spare| > RELEASE_THRESH then Release(s2) else s2
    else s1
  }

  /** What rt_free relies on: the page table leads from the pointer to a page run or to a zone in use. */
  predicate Freeable(s: Slab, p: nat) {
    p / PAGE in s.kup &&
    match s.kup[p / PAGE]
    case Unused => false
    case Large(n) => true
    case Small(off) => off <= p / PAGE && p / PAGE - off in s.zones && s.zones[p / PAGE - off].zi < |s.lists|
  }

  /** rt_free. */
  function FreeOf(s: Slab, p: nat): Slab
    requires Freeable(s, p)
  {
    if s.kup[p / PAGE].Large? then FreeLarge(s, p) else FreeChunk(s, p / PAGE - s.kup[p / PAGE].off, p)
  }

  /** The zone size computed by rt_system_heap_init from the heap's size. */
  function GrowZone(zoneSize: nat, limsize: nat): nat
    decreases 0x20000 - zoneSize
  {
    if 0 < zoneSize < 0x20000 && zoneSize * 2 < limsize / 1024 then GrowZone(zoneSize * 2, limsize) else zoneSize
  }

  /** rt_system_heap_init: all pages free, then the page table is taken out of them. */
  function Init(npages: nat): Slab {
    var n := (npages * 4 + PAGE - 1) / PAGE;
    var (r, free) := PageAlloc(Free([], 0, npages), n);
    Slab(GrowZone(0x8000, npages * PAGE), free, map[], seq(NZONES, i => []), [], map[],
         if r == None then map[] else map[r.value := n], {})
  }

  // ---------- Live pointers ----------

  /** The first n chunks from address lo on. */
  function Carved(lo: nat, chunk: nat, n: nat): set<nat> {
    if n == 0 then {} else Carved(lo, chunk, n - 1) + {lo + (n - 1) * chunk}
  }

  function ChunksOf(z: nat, zone: Zone): set<nat> {
    Carved(z * PAGE + zone.base, zone.chunk, zone.uindex + 1)
  }

  /** The chunk at p has been handed out by the zone and not been freed. */
  predicate LiveIn(z: nat, zone: Zone, p: nat) {
    p in ChunksOf(z, zone) && p !in zone.freeChunks
  }

  predicate LiveChunk(zones: map<nat, Zone>, z: nat, p: nat) {
    z in zones && LiveIn(z, zones[z], p)
  }

  predicate LiveLarge(large: set<nat>, p: nat) {
    p % PAGE == 0 && p / PAGE in large
  }

  // ---------- The invariant ----------

  /** Runs taken from the page allocator are disjoint from each other and from the free pages. */
  ghost predicate Held(free: seq<Run>, held: map<nat, nat>) {
    && Canonical(free)
    && (forall a {:trigger held[a]} :: a in held ==> held[a] > 0 && Apart(free, a, held[a]))
    && forall a, b {:trigger held[a], held[b]} :: a in held && b in held && a < b ==> a + held[a] <= b
  }

  ghost predicate ZoneOk(z: nat, zone: Zone, zoneSize: nat) {
    && zone.zi < NZONES && zone.chunk == ChunkOf(zone.zi) > 0
    && HEADER <= zone.base == BaseOffset(zone.chunk) && zone.base + zone.nmax * zone.chunk <= zoneSize
    && 3 <= zone.nmax && zone.uindex < zone.nmax
    && Distinct(zone.freeChunks) && (forall p :: p in zone.freeChunks ==> p in ChunksOf(z, zone))
    && zone.nfree == zone.nmax - 1 - zone.uindex + |zone.freeChunks|
  }

  ghost predicate ZonesOk(zones: map<nat, Zone>, zoneSize: nat) {
    forall z {:trigger zones[z]} :: z in zones ==> ZoneOk(z, zones[z], zoneSize)
  }

  /** A list holds exactly the zones of its class that have a free chunk. */
  ghost predicate ListOk(list: seq<nat>, i: nat, zones: map<nat, Zone>) {
    Distinct(list) && forall z :: z in list <==> z in zones && zones[z].zi == i && zones[z].nfree > 0
  }

  ghost predicate ListsOk(lists: seq<seq<nat>>, zones: map<nat, Zone>) {
    |lists| == NZONES && forall i {:trigger lists[i]} :: 0 <= i < NZONES ==> ListOk(lists[i], i, zones)
  }

  /** Every held run is a zone in use, a spare zone, handed out whole, or held for the page table. */
  ghost predicate Owners(zs: set<nat>, spare: seq<nat>, large: set<nat>, held: map<nat, nat>, n: nat) {
    && Distinct(spare)
    && (forall z :: z in spare ==> z !in zs && z !in large)
    && (forall z :: z in zs ==> z !in large)
    && (forall z {:trigger z in zs} {:trigger z in spare} :: z in zs || z in spare ==> z in held && held[z] == n)
    && (forall a :: a in large ==> a in held)
  }

  ghost predicate Marked(kup: map<nat, Usage>, z: nat, n: nat) {
    forall a {:trigger kup[a]} {:trigger a in kup} :: z <= a < z + n ==> a in kup && kup[a] == Small(a - z)
  }

  ghost predicate KupOk(kup: map<nat, Usage>, zs: set<nat>, large: set<nat>, held: map<nat, nat>, n: nat) {
    && (forall z {:trigger Marked(kup, z, n)} :: z in zs ==> Marked(kup, z, n))
    && (forall a {:trigger kup[a]} {:trigger a in large} :: a in large ==>
        a in held && a in kup && kup[a] == Large(held[a]))
  }

  ghost function Elements(list: seq<nat>): set<nat> {
    set x | x in list
  }

  ghost predicate Core(s: Slab) {
    && IsZoneSize(s.zoneSize)
    && Held(s.free, s.held)
    && ZonesOk(s.zones, s.zoneSize)
    && ListsOk(s.lists, s.zones)
    && Owners(s.zones.Keys, s.spare, s.large, s.held, ZonePages(s.zoneSize))
    && KupOk(s.kup, s.zones.Keys + Elements(s.spare), s.large, s.held, ZonePages(s.zoneSize))
  }

  /** Core, which proofs unfold only where they ask for it, and at most two spare zones. */
  ghost predicate Inv(s: Slab) {
    |s.spare| <= RELEASE_THRESH && Sound(s)
  }

  ghost predicate Sound(s: Slab) {
    forall u {:trigger Unfolded(s, u)} :: Unfolded(s, u) ==> Core(s)
  }

  ghost predicate Unfolded(s: Slab, u: bool) {
    true
  }

  lemma InvMeans(s: Slab)
    ensures Sound(s) <==> Core(s)
  {
    assert Unfolded(s, true);
  }
}
