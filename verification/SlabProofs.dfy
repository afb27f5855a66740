/** What each step of the slab allocator keeps. */
module SlabProofs {
  import opened Seqs
  import opened Options
  import opened IpcList
  import opened Pages
  import opened ZoneLayout
  import opened SlabSpec

  // ---------- Page runs ----------

  /** The new run touches no run that is held already. */
  ghost predicate Clear(held: map<nat, nat>, a: nat, k: nat) {
    a !in held && forall b {:trigger held[b]} :: b in held ==> b + held[b] <= a || a + k <= b
  }

  lemma HeldTake(free: seq<Run>, held: map<nat, nat>, k: nat, a: nat, free': seq<Run>)
    requires Held(free, held) && k > 0 && Alloc(free, k) == (Some(a), free')
    ensures Clear(held, a, k) && Held(free', held[a := k])
  {
    AllocTakes(free, k, Some(a), free');
    forall b | b in held
      ensures b + held[b] <= a || a + k <= b
      ensures Apart(free', b, held[b])
    {
      RunsApart(free, a, k, b, held[b]);
      ApartLess(free, free', b, held[b]);
    }
    assert a !in held;
    assert Apart(free', a, k);
  }

  lemma ApartLess(free: seq<Run>, free': seq<Run>, b: nat, n: nat)
    requires Apart(free, b, n) && forall p :: Covers(free', p) ==> Covers(free, p)
    ensures Apart(free', b, n)
  {
  }

  lemma RunsApart(free: seq<Run>, a: nat, k: nat, b: nat, n: nat)
    requires (forall p :: a <= p < a + k ==> Covers(free, p)) && Apart(free, b, n) && k > 0 && n > 0
    ensures b + n <= a || a + k <= b
  {
    var p := if a < b then b else a;
    assert a <= p < a + k && b <= p < b + n ==> Covers(free, p);
  }

  lemma HeldGive(free: seq<Run>, held: map<nat, nat>, a: nat)
    requires Held(free, held) && a in held
    ensures Held(Free(free, a, held[a]), held - {a})
  {
    var k := held[a];
    FreeGives(free, a, k, Free(free, a, k));
    forall b | b in held && b != a ensures Apart(Free(free, a, k), b, held[b]) {
      assert held[b] > 0 && Apart(free, b, held[b]);
      assert if a < b then a + held[a] <= b else b + held[b] <= a;
    }
  }

  // ---------- The chunks of one zone ----------

  lemma {:induction false} CarvedBounds(lo: nat, chunk: nat, n: nat, p: nat)
    requires p in Carved(lo, chunk, n)
    ensures n > 0 && lo <= p <= lo + (n - 1) * chunk
  {
    if p in Carved(lo, chunk, n - 1) {
      CarvedBounds(lo, chunk, n - 1, p);
      assert (n - 1) * chunk == (n - 2) * chunk + chunk;
    }
  }

  lemma {:induction false} CarvedApart(lo: nat, chunk: nat, n: nat, p: nat, q: nat)
    requires p in Carved(lo, chunk, n) && q in Carved(lo, chunk, n) && p < q && chunk > 0
    ensures p + chunk <= q
  {
    var last := lo + (n - 1) * chunk;
    if q in Carved(lo, chunk, n - 1) {
      CarvedBounds(lo, chunk, n - 1, q);
      assert (n - 1) * chunk == (n - 2) * chunk + chunk;
      assert p in Carved(lo, chunk, n - 1);
      CarvedApart(lo, chunk, n - 1, p, q);
    } else {
      CarvedBounds(lo, chunk, n - 1, p);
      assert (n - 1) * chunk == (n - 2) * chunk + chunk;
    }
  }

  lemma {:induction false} CarvedSize(lo: nat, chunk: nat, n: nat)
    requires chunk > 0
    ensures |Carved(lo, chunk, n)| == n
  {
    if n > 0 {
      CarvedSize(lo, chunk, n - 1);
      var last := lo + (n - 1) * chunk;
      if last in Carved(lo, chunk, n - 1) {
        CarvedBounds(lo, chunk, n - 1, last);
        assert (n - 1) * chunk == (n - 2) * chunk + chunk;
      }
    }
  }

  lemma {:induction false} ElementsSize(list: seq<nat>)
    requires Distinct(list)
    ensures |Elements(list)| == |list|
  {
    if list == [] {
      assert Elements(list) == {};
    } else {
      ElementsSize(list[1..]);
      assert Elements(list) == {list[0]} + Elements(list[1..]);
    }
  }

  lemma {:induction false} SubsetSize<T>(a: set<T>, b: set<T>)
    requires a <= b
    ensures |a| <= |b| && (|a| == |b| ==> a == b)
  {
    assert b == a + (b - a);
  }

  /** The counter of free chunks never exceeds the zone, and when it fills the zone no chunk is live. */
  lemma WholeZone(z: nat, zone: Zone, zoneSize: nat)
    requires ZoneOk(z, zone, zoneSize)
    ensures 0 <= zone.nfree <= zone.nmax
    ensures zone.nfree == zone.nmax ==> forall p :: p in ChunksOf(z, zone) ==> p in zone.freeChunks
  {
    ChunkPositive(zone.zi);
    ElementsSize(zone.freeChunks);
    CarvedSize(z * PAGE + zone.base, zone.chunk, zone.uindex + 1);
    SubsetSize(Elements(zone.freeChunks), ChunksOf(z, zone));
    assert zone.nfree == zone.nmax ==> Elements(zone.freeChunks) == ChunksOf(z, zone);
  }

  lemma ChunkPositive(zi: nat)
    requires zi < NZONES
    ensures ChunkOf(zi) >= 8
  {
  }

  lemma LastFits(u: nat, nmax: nat, chunk: nat, base: nat, zoneSize: nat)
    requires u < nmax && base + nmax * chunk <= zoneSize
    ensures base + u * chunk + chunk <= zoneSize
  {
    MulGrows(u + 1, nmax, chunk);
    MulStep(u, chunk);
  }

  /** Chunks lie in the pages of their zone. */
  lemma ChunkInside(z: nat, zone: Zone, zoneSize: nat, p: nat)
    requires ZoneOk(z, zone, zoneSize) && p in ChunksOf(z, zone)
    ensures z * PAGE + HEADER <= p && p + zone.chunk <= z * PAGE + zoneSize
  {
    CarvedBounds(z * PAGE + zone.base, zone.chunk, zone.uindex + 1, p);
    LastFits(zone.uindex, zone.nmax, zone.chunk, zone.base, zoneSize);
  }

  /** A chunk is taken either behind the last one carved or from the chain; it was not live. */
  lemma ZoneTakes(z: nat, zone: Zone, zoneSize: nat)
    requires ZoneOk(z, zone, zoneSize) && zone.nfree > 0
    ensures HasRoom(zone)
    ensures var (p, zone') := ZoneTake(z, zone);
            && ZoneOk(z, zone', zoneSize) && zone'.zi == zone.zi && zone'.nfree == zone.nfree - 1
            && !LiveIn(z, zone, p)
            && forall q :: LiveIn(z, zone', q) <==> LiveIn(z, zone, q) || q == p
  {
    if zone.uindex + 1 != zone.nmax {
      TakesNew(z, zone, zoneSize);
    } else {
      TakesFreed(z, zone, zoneSize);
    }
  }

  lemma TakesNew(z: nat, zone: Zone, zoneSize: nat)
    requires ZoneOk(z, zone, zoneSize) && zone.uindex + 1 != zone.nmax
    ensures var (p, zone') := ZoneTake(z, zone);
            && ZoneOk(z, zone', zoneSize) && !LiveIn(z, zone, p)
            && forall q :: LiveIn(z, zone', q) <==> LiveIn(z, zone, q) || q == p
  {
    var lo, p := z * PAGE + zone.base, ZoneTake(z, zone).0;
    ChunkPositive(zone.zi);
    NewChunk(lo, zone.chunk, zone.uindex + 1);
    assert ChunksOf(z, ZoneTake(z, zone).1) == ChunksOf(z, zone) + {p};
  }

  lemma MulStep(n: nat, m: nat)
    ensures (n + 1) * m == n * m + m
  {
  }

  lemma NewChunk(lo: nat, chunk: nat, n: nat)
    requires chunk > 0
    ensures lo + n * chunk !in Carved(lo, chunk, n)
    ensures Carved(lo, chunk, n + 1) == Carved(lo, chunk, n) + {lo + n * chunk}
  {
    if n > 0 {
      MulStep(n - 1, chunk);
    }
    if lo + n * chunk in Carved(lo, chunk, n) {
      CarvedBounds(lo, chunk, n, lo + n * chunk);
    }
  }

  lemma TakesFreed(z: nat, zone: Zone, zoneSize: nat)
    requires ZoneOk(z, zone, zoneSize) && zone.nfree > 0 && zone.uindex + 1 == zone.nmax
    ensures HasRoom(zone)
    ensures var (p, zone') := ZoneTake(z, zone);
            && ZoneOk(z, zone', zoneSize) && !LiveIn(z, zone, p)
            && forall q :: LiveIn(z, zone', q) <==> LiveIn(z, zone, q) || q == p
  {
    var fc := zone.freeChunks;
    assert fc[0] in fc;
    PopFirst(fc);
  }

  lemma ZoneGives(z: nat, zone: Zone, zoneSize: nat, p: nat, zone': Zone)
    requires ZoneOk(z, zone, zoneSize) && LiveIn(z, zone, p)
    requires zone' == zone.(nfree := zone.nfree + 1, freeChunks := [p] + zone.freeChunks)
    ensures ZoneOk(z, zone', zoneSize)
    ensures forall q :: LiveIn(z, zone', q) <==> LiveIn(z, zone, q) && q != p
  {
    assert ChunksOf(z, zone') == ChunksOf(z, zone);
  }

  lemma NewZoneFits(zoneSize: nat, base: nat, chunk: nat)
    requires chunk > 0 && base <= zoneSize
    ensures base + (zoneSize - base) / chunk * chunk <= zoneSize
  {
    assert zoneSize - base == (zoneSize - base) / chunk * chunk + (zoneSize - base) % chunk;
  }

  lemma NewZoneOk(z: nat, zoneSize: nat, zi: nat, chunk: nat)
    requires zi < NZONES && chunk == ChunkOf(zi) > 0 && HEADER <= BaseOffset(chunk) <= zoneSize
    requires (zoneSize - BaseOffset(chunk)) / chunk >= 3
    ensures var zone := NewZone(zoneSize, zi, chunk);
            && ZoneOk(z, zone, zoneSize) && zone.nfree >= 2
            && forall q :: LiveIn(z, zone, q) <==> q == z * PAGE + zone.base
  {
    NewZoneFits(zoneSize, BaseOffset(chunk), chunk);
    var lo := z * PAGE + BaseOffset(chunk);
    assert Carved(lo, chunk, 1) == Carved(lo, chunk, 0) + {lo};
  }

  // ---------- The lists of zones with free chunks ----------

  /** Zones of other classes than zi are the same. */
  ghost predicate SameElsewhere(zones: map<nat, Zone>, zones': map<nat, Zone>, zi: nat) {
    forall z :: (z in zones && zones[z].zi != zi) || (z in zones' && zones'[z].zi != zi) ==>
                  z in zones && z in zones' && zones'[z] == zones[z]
  }

  lemma ListsChange(lists: seq<seq<nat>>, zones: map<nat, Zone>, zi: nat, list: seq<nat>, zones': map<nat, Zone>)
    requires ListsOk(lists, zones) && zi < NZONES && SameElsewhere(zones, zones', zi) && ListOk(list, zi, zones')
    ensures ListsOk(lists[zi := list], zones')
  {
    var lists' := lists[zi := list];
    forall i | 0 <= i < NZONES ensures ListOk(lists'[i], i, zones') {
      if i != zi {
        assert ListOk(lists[i], i, zones);
      }
    }
  }

  lemma ListTakes(list: seq<nat>, zi: nat, zones: map<nat, Zone>, zone: Zone)
    requires ListOk(list, zi, zones) && list != []
    requires zone.zi == zi && list[0] in zones && zones[list[0]].nfree == zone.nfree + 1
    ensures SameElsewhere(zones, zones[list[0] := zone], zi)
    ensures ListOk(if zone.nfree == 0 then list[1..] else list, zi, zones[list[0] := zone])
  {
    PopFirst(list);
    assert list[0] in list;
  }

  lemma ListGives(list: seq<nat>, zi: nat, zones: map<nat, Zone>, z: nat, zone: Zone)
    requires ListOk(list, zi, zones) && z in zones && zones[z].zi == zi == zone.zi
    requires zone.nfree == zones[z].nfree + 1 && zones[z].nfree >= 0
    ensures SameElsewhere(zones, zones[z := zone], zi)
    ensures ListOk(if zones[z].nfree == 0 then [z] + list else list, zi, zones[z := zone])
  {
  }

  lemma ListOpens(list: seq<nat>, zi: nat, zones: map<nat, Zone>, z: nat, zone: Zone)
    requires ListOk(list, zi, zones) && z !in zones && zone.zi == zi && zone.nfree > 0
    ensures SameElsewhere(zones, zones[z := zone], zi)
    ensures ListOk([z] + list, zi, zones[z := zone])
  {
  }

  lemma ListRetires(list: seq<nat>, zi: nat, zones: map<nat, Zone>, z: nat)
    requires ListOk(list, zi, zones) && z in zones && zones[z].zi == zi
    ensures SameElsewhere(zones, zones - {z}, zi)
    ensures ListOk(Remove(list, z), zi, zones - {z})
  {
    RemoveElements(list, z);
  }

  // ---------- The page table ----------

  lemma {:induction false} SmallSet(kup: map<nat, Usage>, z: nat, n: nat)
    ensures Marked(SetSmall(kup, z, n), z, n)
    ensures forall a :: a < z || a >= z + n ==> (a in SetSmall(kup, z, n) <==> a in kup)
    ensures forall a :: (a < z || a >= z + n) && a in kup ==> SetSmall(kup, z, n)[a] == kup[a]
  {
    if n > 0 {
      SmallSet(kup, z, n - 1);
      var kup' := SetSmall(kup, z, n - 1);
      assert Marked(kup', z, n - 1);
    }
  }

  lemma {:induction false} UnusedSet(kup: map<nat, Usage>, z: nat, n: nat)
    ensures forall a :: a < z || a >= z + n ==> (a in SetUnused(kup, z, n) <==> a in kup)
    ensures forall a :: (a < z || a >= z + n) && a in kup ==> SetUnused(kup, z, n)[a] == kup[a]
  {
    if n > 0 {
      UnusedSet(kup, z, n - 1);
    }
  }

  /** The entries outside [a, a + k) are unchanged. */
  ghost predicate SameOutside(kup: map<nat, Usage>, kup': map<nat, Usage>, a: nat, k: nat) {
    && (forall x :: x < a || x >= a + k ==> (x in kup' <==> x in kup))
    && (forall x :: (x < a || x >= a + k) && x in kup ==> kup'[x] == kup[x])
  }

  lemma MarkedElsewhere(kup: map<nat, Usage>, kup': map<nat, Usage>, a: nat, k: nat, z: nat, n: nat)
    requires SameOutside(kup, kup', a, k) && Marked(kup, z, n) && (z + n <= a || a + k <= z)
    ensures Marked(kup', z, n)
  {
    forall x | z <= x < z + n ensures x in kup' && kup'[x] == Small(x - z) {
      assert x in kup && kup[x] == Small(x - z);
    }
  }

  /** Changing the entries of one run leaves the entries that matter to the other owners alone. */
  lemma KupElsewhere(kup: map<nat, Usage>, kup': map<nat, Usage>, a: nat, k: nat,
                     zs: set<nat>, large: set<nat>, held: map<nat, nat>, n: nat)
    requires SameOutside(kup, kup', a, k) && KupOk(kup, zs, large, held, n)
    requires forall z :: z in zs ==> z + n <= a || a + k <= z
    requires forall b :: b in large ==> b < a || a + k <= b
    ensures KupOk(kup', zs, large, held, n)
  {
    forall z | z in zs ensures Marked(kup', z, n) {
      assert Marked(kup, z, n);
      MarkedElsewhere(kup, kup', a, k, z, n);
    }
    forall b | b in large ensures b in kup' && kup'[b] == Large(held[b]) {
      assert b in kup && kup[b] == Large(held[b]);
    }
  }
}
