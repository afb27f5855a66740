/** The slab allocator as an object whose lists, zones and page table are updated in place. */
module SlabObject {
  import opened Options
  import opened Memory
  import opened IpcList
  import opened Pages
  import opened ZoneLayout
  import opened SlabSpec
  import opened SlabProofs
  import opened SlabRuns

  /** The search loops have passed the first i runs: what is left to do is the same operation on
      the rest of the list. */
  ghost predicate Searching(free: seq<Run>, n: nat, i: nat, r: Option<nat>, result: seq<Run>) {
    i <= |free| && r == Alloc(free[i..], n).0 && result == free[..i] + Alloc(free[i..], n).1
  }

  ghost predicate Placing(free: seq<Run>, a: nat, n: nat, i: nat, result: seq<Run>) {
    i <= |free| && forall u {:trigger Looked(i, u)} :: Looked(i, u) ==> result == free[..i] + Free(free[i..], a, n)
  }

  /** Proofs unfold Placing only where they mention this. */
  predicate Looked(i: nat, u: bool) {
    true
  }

  lemma SearchStarts(free: seq<Run>, a: nat, n: nat)
    ensures Searching(free, n, 0, Alloc(free, n).0, Alloc(free, n).1)
    ensures Placing(free, a, n, 0, Free(free, a, n))
  {
    assert free[0..] == free;
  }

  lemma SearchStep(free: seq<Run>, n: nat, i: nat, r: Option<nat>, result: seq<Run>)
    requires Searching(free, n, i, r, result)
    ensures i == |free| ==> r == None && result == free
    ensures i < |free| && free[i].n < n ==> Searching(free, n, i + 1, r, result)
    ensures i < |free| && free[i].n == n ==> r == Some(free[i].start) && result == free[..i] + free[i + 1..]
    ensures i < |free| && free[i].n > n ==>
              r == Some(free[i].start) && result == free[..i] + [Run(free[i].start + n, free[i].n - n)] + free[i + 1..]
  {
    if i < |free| {
      assert free[i..][1..] == free[i + 1..];
    }
  }

  lemma PlaceStep(free: seq<Run>, a: nat, n: nat, i: nat, result: seq<Run>)
    requires Placing(free, a, n, i, result) && i < |free|
    requires free[i].start + free[i].n != a && free[i].start < a + n
    ensures Placing(free, a, n, i + 1, result)
  {
    assert Looked(i, true);
    assert free[i..][1..] == free[i + 1..];
  }

  lemma PlaceBehind(free: seq<Run>, a: nat, n: nat, i: nat, result: seq<Run>)
    requires Placing(free, a, n, i, result) && i < |free| && free[i].start + free[i].n == a
    ensures result == if i + 1 < |free| && a + n == free[i + 1].start then
                        free[..i] + [Run(free[i].start, free[i].n + n + free[i + 1].n)] + free[i + 2..]
                      else free[..i] + [Run(free[i].start, free[i].n + n)] + free[i + 1..]
  {
    assert Looked(i, true);
    var rest := free[i..];
    assert rest[1..] == free[i + 1..];
    if i + 1 < |free| {
      assert rest[1] == free[i + 1] && rest[2..] == free[i + 2..];
    }
  }

  lemma PlaceBefore(free: seq<Run>, a: nat, n: nat, i: nat, result: seq<Run>)
    requires Placing(free, a, n, i, result) && i < |free| && free[i].start == a + n && free[i].start + free[i].n != a
    ensures result == free[..i] + [Run(a, free[i].n + n)] + free[i + 1..]
  {
    assert Looked(i, true);
    assert free[i..][1..] == free[i + 1..];
  }

  lemma PlaceHere(free: seq<Run>, a: nat, n: nat, i: nat, result: seq<Run>)
    requires Placing(free, a, n, i, result) && (i < |free| ==> free[i].start > a + n)
    ensures result == free[..i] + [Run(a, n)] + free[i..]
  {
    assert Looked(i, true);
  }

  lemma {:induction false} RemoveAt(list: seq<nat>, z: nat, k: nat)
    requires k < |list| && list[k] == z && z !in list[..k]
    ensures Remove(list, z) == list[..k] + list[k + 1..]
  {
    if k > 0 {
      assert list[0] in list[..k];
      assert list[1..][..k - 1] == list[..k][1..];
      RemoveAt(list[1..], z, k - 1);
      assert list[1..][k..] == list[k + 1..];
    }
  }

  class SlabHeap {
    const zoneSize: nat
    var free: seq<Run>
    var zones: map<nat, Zone>
    var lists: seq<seq<nat>>
    var spare: seq<nat>
    var kup: map<nat, Usage>
    ghost var held: map<nat, nat>
    ghost var large: set<nat>

    ghost function AsSlab(): Slab
      reads this
    {
      Slab(zoneSize, free, zones, lists, spare, kup, held, large)
    }

    ghost predicate Valid()
      reads this
    {
      Inv(AsSlab())
    }

    /** rt_system_heap_init for a heap of this many pages. */
    constructor (npages: nat)
      requires npages > 0
      ensures Valid() && AsSlab() == Init(npages)
    {
      InitHolds(npages);
      var n := (npages * 4 + PAGE - 1) / PAGE;
      var (r, rest) := SlabSpec.PageAlloc(Free([], 0, npages), n);
      var size := 0x8000;
      while size < 0x20000 && size * 2 < npages * PAGE / 1024
        invariant size > 0 && GrowZone(0x8000, npages * PAGE) == GrowZone(size, npages * PAGE)
        decreases 0x20000 - size
      {
        size := size * 2;
      }
      zoneSize := size;
      free := rest;
      zones := map[];
      lists := seq(NZONES, i => []);
      spare := [];
      kup := map[];
      held := if r == None then map[] else map[r.value := n];
      large := {};
    }

    /** rt_page_alloc. */
    method PageAlloc(n: nat) returns (r: Option<nat>)
      modifies this`free
      ensures (r, free) == SlabSpec.PageAlloc(old(free), n)
    {
      if n == 0 {
        return None;
      }
      ghost var (found, result) := Alloc(free, n);
      SearchStarts(free, 0, n);
      var i := 0;
      while i < |free|
        invariant free == old(free) && Searching(free, n, i, found, result)
      {
        SearchStep(free, n, i, found, result);
        var b := free[i];
        if b.n > n {
          free := free[..i] + [Run(b.start + n, b.n - n)] + free[i + 1..];
          return Some(b.start);
        }
        if b.n == n {
          free := free[..i] + free[i + 1..];
          return Some(b.start);
        }
        i := i + 1;
      }
      SearchStep(free, n, i, found, result);
      r := None;
    }

    /** rt_page_free. */
    method PageFree(a: nat, n: nat)
      requires n > 0
      modifies this`free
      ensures free == Free(old(free), a, n)
    {
      ghost var result := Free(free, a, n);
      SearchStarts(free, a, n);
      var i := 0;
      while i < |free|
        invariant free == old(free) && Placing(free, a, n, i, result)
      {
        var b := free[i];
        if b.start + b.n == a {
          PlaceBehind(free, a, n, i, result);
          if i + 1 < |free| && b.start + (b.n + n) == free[i + 1].start {
            free := free[..i] + [Run(b.start, b.n + n + free[i + 1].n)] + free[i + 2..];
          } else {
            free := free[..i] + [Run(b.start, b.n + n)] + free[i + 1..];
          }
          return;
        }
        if b.start == a + n {
          PlaceBefore(free, a, n, i, result);
          free := free[..i] + [Run(a, b.n + n)] + free[i + 1..];
          return;
        }
        if b.start > a + n {
          break;
        }
        PlaceStep(free, a, n, i, result);
        i := i + 1;
      }
      PlaceHere(free, a, n, i, result);
      free := free[..i] + [Run(a, n)] + free[i..];
    }

    /** Mark the pages of a fresh zone. */
    method MarkZone(z: nat)
      modifies this`kup
      ensures kup == SetSmall(old(kup), z, ZonePages(zoneSize))
    {
      var off := 0;
      while off < ZonePages(zoneSize)
        invariant off <= ZonePages(zoneSize) && kup == SetSmall(old(kup), z, off)
      {
        kup := kup[z + off := Small(off)];
        off := off + 1;
      }
    }

    method UnmarkZone(z: nat)
      modifies this`kup
      ensures kup == SetUnused(old(kup), z, ZonePages(zoneSize))
    {
      var i := 0;
      while i < ZonePages(zoneSize)
        invariant i <= ZonePages(zoneSize) && kup == SetUnused(old(kup), z, i)
      {
        kup := kup[z + i := Unused];
        i := i + 1;
      }
    }

    method TakeLarge(size: nat) returns (r: Option<nat>)
      modifies this
      ensures (r, AsSlab()) == MallocLarge(old(AsSlab()), size)
    {
      var n := PagesFor(size);
      var page := PageAlloc(n);
      if page == None {
        AllocUnchanged(old(free), n);
        return None;
      }
      var a := page.value;
      kup := kup[a := Large(n)];
      held := held[a := n];
      large := large + {a};
      r := Some(a * PAGE);
    }

    /** The first branch of rt_malloc for small sizes: the first zone of the class has a free chunk. */
    method TakeFrom(zi: nat, size: nat) returns (p: nat)
      requires zi < |lists| && lists[zi] != [] && lists[zi][0] in zones && HasRoom(zones[lists[zi][0]])
      requires zones[lists[zi][0]].chunk == size
      modifies this`zones, this`lists
      ensures (p, AsSlab()) == TakeChunk(old(AsSlab()), zi)
    {
      var z := lists[zi][0];
      var zone := zones[z];
      zones := zones[z := zone.(nfree := zone.nfree - 1)];
      if zone.nfree - 1 == 0 {
        lists := lists[zi := lists[zi][1..]];
      }
      if zone.uindex + 1 != zone.nmax {
        zones := zones[z := zones[z].(uindex := zone.uindex + 1)];
        p := z * PAGE + zone.base + (zone.uindex + 1) * size;
      } else {
        p := zone.freeChunks[0];
        zones := zones[z := zones[z].(freeChunks := zone.freeChunks[1..])];
      }
      ghost var zone' := ZoneTake(z, zone).1;
      assert zones == old(zones)[z := zone'];
    }

    method RefillSpare()
      modifies this
      ensures AsSlab() == Refill(old(AsSlab()))
    {
      var n := ZonePages(zoneSize);
      var page := PageAlloc(n);
      if page == None {
        AllocUnchanged(old(free), n);
        return;
      }
      MarkZone(page.value);
      held := held[page.value := n];
      spare := [page.value] + spare;
    }

    method OpenSpare(zi: nat, size: nat) returns (p: nat)
      requires spare != [] && zi < |lists| && size > 0 && zoneSize >= BaseOffset(size)
      modifies this`zones, this`lists, this`spare
      ensures (p, AsSlab()) == OpenZone(old(AsSlab()), zi, size)
    {
      var z := spare[0];
      spare := spare[1..];
      var off := BaseOffset(size);
      var nmax := (zoneSize - off) / size;
      zones := zones[z := Zone(nmax - 1, nmax, off, 0, size, zi, [])];
      lists := lists[zi := [z] + lists[zi]];
      p := z * PAGE + off;
    }

    /** rt_malloc. */
    method Malloc(size: nat) returns (r: Option<nat>)
      requires Valid() && size < U32
      modifies this
      ensures Valid() && (r, AsSlab()) == SlabSpec.Malloc(old(AsSlab()), size)
    {
      ghost var o := MallocKeeps(AsSlab(), size);
      if size == 0 {
        return None;
      }
      if size >= ChunkLimit(zoneSize) {
        r := TakeLarge(size);
        return;
      }
      MallocReady(AsSlab(), size);
      var (zi, bytes) := ZoneIndex(size);
      if lists[zi] != [] {
        HeadChunk(AsSlab(), zi);
        var p := TakeFrom(zi, bytes);
        return Some(p);
      }
      if spare == [] {
        RefillLists(AsSlab());
        RefillSpare();
      }
      if spare == [] {
        return None;
      }
      var p := OpenSpare(zi, bytes);
      r := Some(p);
    }

    /** The last part of rt_free: a wholly free zone leaves its list; too many spare zones shrink. */
    method RetireZone(z: nat)
      requires z in zones && zones[z].zi < |lists| && z in lists[zones[z].zi] && IsZoneSize(zoneSize)
      modifies this
      ensures AsSlab() == var s2 := Retire(old(AsSlab()), z); if |s2.spare| > RELEASE_THRESH then Release(s2) else s2
    {
      var zi := zones[z].zi;
      var list := lists[zi];
      var k := 0;
      while list[k] != z
        invariant k < |list| && z !in list[..k] && z in list[k..]
        decreases |list| - k
      {
        assert list[..k + 1] == list[..k] + [list[k]];
        k := k + 1;
      }
      RemoveAt(list, z, k);
      lists := lists[zi := list[..k] + list[k + 1..]];
      zones := zones - {z};
      spare := [z] + spare;
      if |spare| > RELEASE_THRESH {
        spare := spare[1..];
        UnmarkZone(z);
        PageFree(z, ZonePages(zoneSize));
        held := held - {z};
      }
    }

    /** rt_free; the null pointer is ignored. */
    method FreePointer(ptr: Option<nat>, ghost o: Owner)
      requires Valid() && (ptr.Some? ==> Live(AsSlab(), o, ptr.value))
      modifies this
      ensures Valid() && (ptr == None ==> AsSlab() == old(AsSlab()))
      ensures ptr.Some? ==> Freeable(old(AsSlab()), ptr.value) && AsSlab() == FreeOf(old(AsSlab()), ptr.value)
    {
      if ptr == None {
        return;
      }
      var p := ptr.value;
      Recovers(AsSlab(), o, p);
      FreeKeeps(AsSlab(), o, p);
      var page := p / PAGE;
      if kup[page].Large? {
        LargeOwner(AsSlab(), o, p);
        FreeRun(page);
      } else {
        SmallOwner(AsSlab(), o, p);
        FreeSmall(page - kup[page].off, p);
      }
    }

    /** rt_realloc, given the contents of memory. */
    method Realloc(ptr: Option<nat>, size: nat, data: Bytes, ghost o: Owner) returns (r: Option<nat>, data': Bytes)
      requires Valid() && size < U32 && (ptr.Some? ==> Live(AsSlab(), o, ptr.value))
      modifies this
      ensures Valid() && (ptr.Some? ==> Freeable(old(AsSlab()), ptr.value))
      ensures (r, AsSlab(), data') == SlabRuns.Realloc(old(AsSlab()), data, ptr, size)
    {
      if ptr == None {
        r := Malloc(size);
        return r, data;
      }
      var p := ptr.value;
      Recovers(AsSlab(), o, p);
      if size == 0 {
        FreePointer(ptr, o);
        return None, data;
      }
      if kup[p / PAGE].Large? {
        r, data' := MoveBlock(p, kup[p / PAGE].n * PAGE, size, data, o);
      } else {
        var chunk, bytes := zones[p / PAGE - kup[p / PAGE].off].chunk, Rounded(size);
        RoundedUp(size);
        if chunk == bytes {
          return ptr, data;
        }
        r, data' := MoveBlock(p, chunk, bytes, data, o);
      }
    }

    method MoveBlock(p: nat, had: nat, size: nat, data: Bytes, ghost o: Owner) returns (r: Option<nat>, data': Bytes)
      requires Valid() && 0 < size < U32 && Live(AsSlab(), o, p)
      modifies this
      ensures Valid() && (r, AsSlab(), data') == Move(old(AsSlab()), data, p, had, size)
    {
      ghost var y := MallocKeeps(AsSlab(), size);
      r := Malloc(size);
      if r == None {
        return None, data;
      }
      data' := Copy(data, r.value, p, Least(size, had));
      FreePointer(Some(p), o);
    }

    method FreeRun(page: nat)
      requires page in kup && kup[page].Large? && kup[page].n > 0
      modifies this
      ensures AsSlab() == FreeLarge(old(AsSlab()), page * PAGE)
    {
      var n := kup[page].n;
      kup := kup[page := Large(0)];
      PageFree(page, n);
      held := held - {page};
      large := large - {page};
    }

    method FreeSmall(z: nat, p: nat)
      requires Sound(AsSlab()) && LiveChunk(zones, z, p)
      modifies this
      ensures old(zones[z].zi < |lists|) && AsSlab() == FreeChunk(old(AsSlab()), z, p)
    {
      GiveListed(AsSlab(), z, p);
      ghost var s1 := GiveChunk(AsSlab(), z, p);
      var zone := zones[z];
      zones := zones[z := zone.(freeChunks := [p] + zone.freeChunks)];
      zones := zones[z := zones[z].(nfree := zone.nfree + 1)];
      assert zones == old(zones)[z := zone.(nfree := zone.nfree + 1, freeChunks := [p] + zone.freeChunks)];
      if zone.nfree == 0 {
        lists := lists[zone.zi := [z] + lists[zone.zi]];
      }
      assert AsSlab() == s1;
      var list := lists[zone.zi];
      if zones[z].nfree == zone.nmax && (list[|list| - 1] != z || list[0] != z) {
        RetireZone(z);
      }
    }
  }

  lemma {:induction false} AllocUnchanged(free: seq<Run>, n: nat)
    requires SlabSpec.PageAlloc(free, n).0 == None
    ensures SlabSpec.PageAlloc(free, n).1 == free
  {
    if n > 0 && free != [] {
      AllocUnchanged(free[1..], n);
    }
  }

  /** Refilling does not concern the lists. */
  lemma RefillLists(s: Slab)
    ensures Refill(s).lists == s.lists && Refill(s).zoneSize == s.zoneSize
  {
  }

  lemma LargeOwner(s: Slab, o: Owner, p: nat)
    requires Sound(s) && Live(s, o, p) && Freeable(s, p) && s.kup[p / PAGE].Large?
    ensures o == ByPages && s.kup[p / PAGE].n > 0 && p / PAGE * PAGE / PAGE == p / PAGE
  {
    Recovers(s, o, p);
    InvMeans(s);
    assert s.held[p / PAGE] > 0;
  }

  lemma SmallOwner(s: Slab, o: Owner, p: nat)
    requires Sound(s) && Live(s, o, p) && Freeable(s, p) && !s.kup[p / PAGE].Large?
    ensures s.kup[p / PAGE].Small? && LiveChunk(s.zones, p / PAGE - s.kup[p / PAGE].off, p)
  {
    Recovers(s, o, p);
  }

  /** After its chunk has come back a zone is on the list of its class. */
  lemma GiveListed(s: Slab, z: nat, p: nat)
    requires Sound(s) && LiveChunk(s.zones, z, p)
    ensures IsZoneSize(s.zoneSize) && s.zones[z].zi < |s.lists| && z in GiveChunk(s, z, p).lists[s.zones[z].zi]
  {
    InvMeans(s);
    assert ZoneOk(z, s.zones[z], s.zoneSize);
    WholeZone(z, s.zones[z], s.zoneSize);
    assert ListOk(s.lists[s.zones[z].zi], s.zones[z].zi, s.zones);
  }
}
