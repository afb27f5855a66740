/** The invariant and the set of live pointers through every slab operation. */
module SlabKeeps {
  import opened Options
  import opened IpcList
  import opened Pages
  import opened ZoneLayout
  import opened SlabSpec
  import opened SlabProofs

  /** Exactly the chunk p of zone z has become live. */
  ghost predicate LiveAdds(s: Slab, s': Slab, z: nat, p: nat) {
    && s'.large == s.large && !LiveChunk(s.zones, z, p)
    && forall y, q :: LiveChunk(s'.zones, y, q) <==> LiveChunk(s.zones, y, q) || (y == z && q == p)
  }

  ghost predicate LiveDrops(s: Slab, s': Slab, z: nat, p: nat) {
    && s'.large == s.large && LiveChunk(s.zones, z, p)
    && forall y, q :: LiveChunk(s'.zones, y, q) <==> LiveChunk(s.zones, y, q) && !(y == z && q == p)
  }

  ghost predicate LiveSame(s: Slab, s': Slab) {
    s'.large == s.large && forall y, q :: LiveChunk(s'.zones, y, q) <==> LiveChunk(s.zones, y, q)
  }

  /** Only zones and lists differ. */
  ghost predicate SamePages(s: Slab, s': Slab) {
    && s'.zoneSize == s.zoneSize && s'.free == s.free && s'.held == s.held && s'.kup == s.kup
    && s'.spare == s.spare && s'.large == s.large && s'.zones.Keys == s.zones.Keys
  }

  lemma SoundZones(s: Slab, s': Slab)
    requires Sound(s) && SamePages(s, s') && ZonesOk(s'.zones, s'.zoneSize) && ListsOk(s'.lists, s'.zones)
    ensures Sound(s')
  {
    InvMeans(s);
    assert Core(s');
    InvMeans(s');
  }

  lemma ZonesChange(zones: map<nat, Zone>, zoneSize: nat, z: nat, zone: Zone)
    requires ZonesOk(zones, zoneSize) && ZoneOk(z, zone, zoneSize)
    ensures ZonesOk(zones[z := zone], zoneSize)
  {
  }

  lemma TakeKeeps(s: Slab, zi: nat)
    requires Sound(s) && zi < |s.lists| && s.lists[zi] != []
    ensures s.lists[zi][0] in s.zones && HasRoom(s.zones[s.lists[zi][0]])
    ensures Sound(TakeChunk(s, zi).1) && SamePages(s, TakeChunk(s, zi).1)
    ensures LiveAdds(s, TakeChunk(s, zi).1, s.lists[zi][0], TakeChunk(s, zi).0)
  {
    assert Core(s) by { InvMeans(s); }
    var list := s.lists[zi];
    assert ListOk(list, zi, s.zones);
    var z := list[0];
    assert z in list;
    assert ZoneOk(z, s.zones[z], s.zoneSize);
    ZoneTakes(z, s.zones[z], s.zoneSize);
    var (p, zone) := ZoneTake(z, s.zones[z]);
    var s' := TakeChunk(s, zi).1;
    ZonesChange(s.zones, s.zoneSize, z, zone);
    ListTakes(list, zi, s.zones, zone);
    ListsChange(s.lists, s.zones, zi, if zone.nfree == 0 then list[1..] else list, s'.zones);
    assert s.lists[zi := list] == s.lists;
    SoundZones(s, s');
  }

  lemma GiveKeeps(s: Slab, z: nat, p: nat)
    requires Sound(s) && LiveChunk(s.zones, z, p)
    ensures s.zones[z].zi < |s.lists|
    ensures Sound(GiveChunk(s, z, p)) && SamePages(s, GiveChunk(s, z, p))
    ensures LiveDrops(s, GiveChunk(s, z, p), z, p)
  {
    assert Core(s) by { InvMeans(s); }
    var zone, zi := s.zones[z], s.zones[z].zi;
    assert ZoneOk(z, zone, s.zoneSize);
    var list := s.lists[zi];
    assert ListOk(list, zi, s.zones);
    var s' := GiveChunk(s, z, p);
    WholeZone(z, zone, s.zoneSize);
    ZoneGives(z, zone, s.zoneSize, p, s'.zones[z]);
    ZonesChange(s.zones, s.zoneSize, z, s'.zones[z]);
    ListGives(list, zi, s.zones, z, s'.zones[z]);
    ListsChange(s.lists, s.zones, zi, if zone.nfree == 0 then [z] + list else list, s'.zones);
    assert s.lists[zi := list] == s.lists;
    SoundZones(s, s');
  }

  // ---------- Zones between the lists and the spare zones ----------

  lemma OpenKeeps(s: Slab, size: nat)
    requires Sound(s) && 1 <= size < ChunkLimit(s.zoneSize) && s.spare != []
    ensures var (zi, chunk) := ZoneIndex(size);
            && IsZoneSize(s.zoneSize) && size < ZONE_LIMIT && zi < |s.lists|
            && chunk > 0 && s.zoneSize >= BaseOffset(chunk)
            && Sound(OpenZone(s, zi, chunk).1)
            && LiveAdds(s, OpenZone(s, zi, chunk).1, s.spare[0], OpenZone(s, zi, chunk).0)
  {
    MallocReady(s, size);
    assert Core(s) by { InvMeans(s); }
    var (zi, chunk) := ZoneIndex(size);
    var z := s.spare[0];
    ThreeChunks(s.zoneSize, size);
    NewZoneOk(z, s.zoneSize, zi, chunk);
    var zone := NewZone(s.zoneSize, zi, chunk);
    var s' := OpenZone(s, zi, chunk).1;
    assert z in s.spare && z !in s.zones.Keys;
    ZonesChange(s.zones, s.zoneSize, z, zone);
    assert ListOk(s.lists[zi], zi, s.zones);
    ListOpens(s.lists[zi], zi, s.zones, z, zone);
    ListsChange(s.lists, s.zones, zi, [z] + s.lists[zi], s'.zones);
    SpareMoves(s.zones.Keys, s.spare, s.large, s.held, ZonePages(s.zoneSize));
    assert s'.zones.Keys == s.zones.Keys + {z};
    assert s'.zones.Keys + Elements(s'.spare) == s.zones.Keys + Elements(s.spare);
    assert Core(s');
    InvMeans(s');
  }

  /** The first spare zone comes into use. */
  lemma SpareMoves(zs: set<nat>, spare: seq<nat>, large: set<nat>, held: map<nat, nat>, n: nat)
    requires Owners(zs, spare, large, held, n) && spare != []
    ensures Owners(zs + {spare[0]}, spare[1..], large, held, n)
    ensures zs + {spare[0]} + Elements(spare[1..]) == zs + Elements(spare)
  {
    PopFirst(spare);
    assert spare[0] in spare;
  }

  lemma RetireOwners(zs: set<nat>, spare: seq<nat>, large: set<nat>, held: map<nat, nat>, n: nat, z: nat)
    requires Owners(zs, spare, large, held, n) && z in zs
    ensures Owners(zs - {z}, [z] + spare, large, held, n)
    ensures zs - {z} + Elements([z] + spare) == zs + Elements(spare)
  {
  }

  lemma RetireKeeps(s: Slab, z: nat)
    requires Sound(s) && z in s.zones && s.zones[z].nfree == s.zones[z].nmax
    ensures s.zones[z].zi < |s.lists|
    ensures Sound(Retire(s, z)) && LiveSame(s, Retire(s, z))
  {
    assert Core(s) by { InvMeans(s); }
    var zone, zi := s.zones[z], s.zones[z].zi;
    assert ZoneOk(z, zone, s.zoneSize);
    assert ListOk(s.lists[zi], zi, s.zones);
    var s' := Retire(s, z);
    WholeZone(z, zone, s.zoneSize);
    ListRetires(s.lists[zi], zi, s.zones, z);
    ListsChange(s.lists, s.zones, zi, Remove(s.lists[zi], z), s'.zones);
    RetireOwners(s.zones.Keys, s.spare, s.large, s.held, ZonePages(s.zoneSize), z);
    assert s'.zones.Keys == s.zones.Keys - {z};
    assert Core(s');
    InvMeans(s');
  }

  // ---------- Pages taken and given back ----------

  lemma OwnersTake(zs: set<nat>, spare: seq<nat>, large: set<nat>, held: map<nat, nat>, n: nat, a: nat, k: nat)
    requires Owners(zs, spare, large, held, n) && a !in held
    ensures Owners(zs, spare, large + {a}, held[a := k], n)
    ensures k == n ==> Owners(zs, [a] + spare, large, held[a := k], n)
  {
  }

  lemma OwnersGive(zs: set<nat>, spare: seq<nat>, large: set<nat>, held: map<nat, nat>, n: nat, a: nat)
    requires Owners(zs, spare, large, held, n)
    ensures a in large ==> Owners(zs, spare, large - {a}, held - {a}, n)
    ensures spare != [] && a == spare[0] ==> Owners(zs, spare[1..], large, held - {a}, n)
  {
    if spare != [] {
      PopFirst(spare);
    }
  }

  /** The entries of a held run are of no concern to the other owners. */
  lemma KupBeside(kup: map<nat, Usage>, kup': map<nat, Usage>, held: map<nat, nat>, a: nat, k: nat,
                  zs: set<nat>, large: set<nat>, n: nat)
    requires SameOutside(kup, kup', a, k) && KupOk(kup, zs, large, held, n) && a !in zs && a !in large && k > 0
    requires forall b {:trigger held[b]} :: b in held && b != a ==> b + held[b] <= a || a + k <= b
    requires forall b {:trigger held[b]} :: b in held ==> held[b] > 0
    requires forall z {:trigger z in zs} :: z in zs ==> z in held && held[z] == n
    requires forall b {:trigger b in large} :: b in large ==> b in held
    ensures KupOk(kup', zs, large, held, n)
  {
    KupElsewhere(kup, kup', a, k, zs, large, held, n);
  }

  lemma RefillKeeps(s: Slab)
    requires Sound(s)
    ensures Sound(Refill(s)) && LiveSame(s, Refill(s))
    ensures Refill(s).zoneSize == s.zoneSize
  {
    var n := ZonePages(s.zoneSize);
    var (r, free) := PageAlloc(s.free, n);
    if r != None {
      assert Core(s) by { InvMeans(s); }
      var z, s' := r.value, Refill(s);
      assert n > 0 && Alloc(s.free, n) == (Some(z), free);
      HeldTake(s.free, s.held, n, z, free);
      OwnersTake(s.zones.Keys, s.spare, s.large, s.held, n, z, n);
      SmallSet(s.kup, z, n);
      var own := s.zones.Keys + Elements(s.spare);
      KupBeside(s.kup, s'.kup, s.held, z, n, own, s.large, n);
      KupGrows(s'.kup, own, s.large, s.held, n, z, n);
      assert s'.zones.Keys + Elements(s'.spare) == own + {z};
      assert Core(s');
      InvMeans(s');
    }
  }

  lemma KupGrows(kup: map<nat, Usage>, zs: set<nat>, large: set<nat>, held: map<nat, nat>, n: nat, a: nat, k: nat)
    requires KupOk(kup, zs, large, held, n) && a !in held
    ensures Marked(kup, a, n) ==> KupOk(kup, zs + {a}, large, held[a := k], n)
    ensures a in kup && kup[a] == Large(k) ==> KupOk(kup, zs, large + {a}, held[a := k], n)
  {
  }

  lemma ReleaseKeeps(s: Slab)
    requires Sound(s) && s.spare != []
    ensures Sound(Release(s)) && LiveSame(s, Release(s))
  {
    assert Core(s) by { InvMeans(s); }
    var z, n, s' := s.spare[0], ZonePages(s.zoneSize), Release(s);
    assert z in s.spare;
    HeldGive(s.free, s.held, z);
    OwnersGive(s.zones.Keys, s.spare, s.large, s.held, n, z);
    UnusedSet(s.kup, z, n);
    PopFirst(s.spare);
    var own := s.zones.Keys + Elements(s'.spare);
    assert KupOk(s.kup, own, s.large, s.held, n);
    KupBeside(s.kup, s'.kup, s.held, z, n, own, s.large, n);
    KupShrinks(s'.kup, own, s.large, s.held, n, z);
    assert Core(s');
    InvMeans(s');
  }

  lemma KupShrinks(kup: map<nat, Usage>, zs: set<nat>, large: set<nat>, held: map<nat, nat>, n: nat, a: nat)
    requires KupOk(kup, zs, large, held, n) && a !in large
    ensures KupOk(kup, zs, large, held - {a}, n)
  {
  }

  lemma LargeKeeps(s: Slab, size: nat)
    requires Sound(s)
    ensures var (r, s') := MallocLarge(s, size);
            && Sound(s') && s'.spare == s.spare && s'.zones == s.zones
            && (r == None ==> s' == s)
            && (r.Some? ==> r.value % PAGE == 0 && r.value / PAGE !in s.large && s'.large == s.large + {r.value / PAGE}
                            && s'.held == s.held[r.value / PAGE := PagesFor(size)])
  {
    var n := PagesFor(size);
    var (r, free) := PageAlloc(s.free, n);
    if r != None {
      assert Core(s) by { InvMeans(s); }
      var a, s' := r.value, MallocLarge(s, size).1;
      HeldTake(s.free, s.held, n, a, free);
      OwnersTake(s.zones.Keys, s.spare, s.large, s.held, ZonePages(s.zoneSize), a, n);
      var own := s.zones.Keys + Elements(s.spare);
      KupBeside(s.kup, s'.kup, s.held, a, n, own, s.large, ZonePages(s.zoneSize));
      KupGrows(s'.kup, own, s.large, s.held, ZonePages(s.zoneSize), a, n);
      assert Core(s');
      InvMeans(s');
    }
  }

  lemma FreeLargeKeeps(s: Slab, p: nat)
    requires Sound(s) && LiveLarge(s.large, p)
    ensures p / PAGE in s.kup && p / PAGE in s.held && s.kup[p / PAGE] == Large(s.held[p / PAGE])
    ensures Sound(FreeLarge(s, p)) && FreeLarge(s, p).spare == s.spare && FreeLarge(s, p).zones == s.zones
    ensures FreeLarge(s, p).large == s.large - {p / PAGE}
  {
    assert Core(s) by { InvMeans(s); }
    var a, s', n := p / PAGE, FreeLarge(s, p), ZonePages(s.zoneSize);
    var own := s.zones.Keys + Elements(s.spare);
    assert s.kup[a] == Large(s.held[a]);
    HeldGive(s.free, s.held, a);
    OwnersGive(s.zones.Keys, s.spare, s.large, s.held, n, a);
    KupBeside(s.kup, s'.kup, s.held, a, s.held[a], own, s.large - {a}, n);
    KupShrinks(s'.kup, own, s.large - {a}, s.held, n, a);
    assert Core(s');
    InvMeans(s');
  }
}
