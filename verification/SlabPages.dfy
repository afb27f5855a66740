/** Where the pages of the slab allocator's heap are: every page is on the free list or in exactly one of
    the runs that have been taken from it.
  */
module SlabPages {
  import opened Options
  import opened Pages
  import opened ZoneLayout
  import opened SlabSpec
  import opened SlabProofs
  import opened SlabKeeps
  import opened SlabRuns

  /** Page p has been taken from the page allocator. */
  ghost predicate Taken(held: map<nat, nat>, p: int) {
    exists a {:trigger held[a]} :: a in held && a <= p < a + held[a]
  }

  /** The pages of the runs that start below page n. */
  function Total(held: map<nat, nat>, n: nat): nat {
    if n == 0 then 0 else Total(held, n - 1) + (if n - 1 in held then held[n - 1] else 0)
  }

  /** The pages of the heap are exactly the free ones and the taken ones, and their numbers add up. */
  ghost predicate Accounts(free: seq<Run>, held: map<nat, nat>, npages: nat) {
    && (forall p: int :: 0 <= p < npages <==> Covers(free, p) || Taken(held, p))
    && Count(free) + Total(held, npages) == npages
  }

  lemma {:induction false} TotalAdds(held: map<nat, nat>, a: nat, k: nat, n: nat)
    requires a !in held
    ensures Total(held[a := k], n) == Total(held, n) + (if a < n then k else 0)
  {
    if n > 0 {
      TotalAdds(held, a, k, n - 1);
    }
  }

  lemma {:induction false} TotalDrops(held: map<nat, nat>, a: nat, n: nat)
    requires a in held
    ensures Total(held - {a}, n) == Total(held, n) - (if a < n then held[a] else 0)
  {
    if n > 0 {
      TotalDrops(held, a, n - 1);
    }
  }

  lemma TakenAdds(held: map<nat, nat>, a: nat, k: nat, p: int)
    requires a !in held
    ensures Taken(held[a := k], p) <==> Taken(held, p) || a <= p < a + k
  {
    var held' := held[a := k];
    if Taken(held, p) {
      var b :| b in held && b <= p < b + held[b];
      assert held'[b] == held[b];
    }
    if a <= p < a + k {
      assert held'[a] == k;
    }
  }

  lemma TakenDrops(held: map<nat, nat>, a: nat, p: int)
    requires a in held
    requires forall b {:trigger held[b]} :: b in held && b != a ==> b + held[b] <= a || a + held[a] <= b
    ensures Taken(held - {a}, p) <==> Taken(held, p) && !(a <= p < a + held[a])
  {
    var held' := held - {a};
    if Taken(held, p) && !(a <= p < a + held[a]) {
      var b :| b in held && b <= p < b + held[b];
      assert held'[b] == held[b];
    }
    if Taken(held', p) {
      var b :| b in held' && b <= p < b + held'[b];
      assert held[b] == held'[b];
    }
  }

  lemma AccountsTake(free: seq<Run>, held: map<nat, nat>, npages: nat, k: nat, a: nat, free': seq<Run>)
    requires Held(free, held) && Accounts(free, held, npages) && k > 0 && Alloc(free, k) == (Some(a), free')
    ensures Accounts(free', held[a := k], npages)
  {
    HeldTake(free, held, k, a, free');
    AllocTakes(free, k, Some(a), free');
    TotalAdds(held, a, k, npages);
    assert Covers(free, a);
    forall p: int ensures 0 <= p < npages <==> Covers(free', p) || Taken(held[a := k], p) {
      TakenAdds(held, a, k, p);
      assert 0 <= p < npages <==> Covers(free, p) || Taken(held, p);
      assert Covers(free, p) <==> Covers(free', p) || a <= p < a + k;
    }
  }

  lemma AccountsGive(free: seq<Run>, held: map<nat, nat>, npages: nat, a: nat)
    requires Held(free, held) && Accounts(free, held, npages) && a in held
    ensures Accounts(Free(free, a, held[a]), held - {a}, npages)
  {
    var k := held[a];
    FreeGives(free, a, k, Free(free, a, k));
    TotalDrops(held, a, npages);
    assert k > 0 && Taken(held, a);
    forall p: int ensures 0 <= p < npages <==> Covers(Free(free, a, k), p) || Taken(held - {a}, p) {
      TakenDrops(held, a, p);
    }
  }

  lemma HeldIn(s: Slab)
    requires Sound(s)
    ensures Held(s.free, s.held)
    ensures forall z :: z in s.spare ==> z in s.held && s.held[z] == ZonePages(s.zoneSize)
  {
    InvMeans(s);
  }

  lemma LargeAccounts(s: Slab, size: nat, npages: nat)
    requires Sound(s) && Accounts(s.free, s.held, npages)
    ensures Accounts(MallocLarge(s, size).1.free, MallocLarge(s, size).1.held, npages)
  {
    var n := PagesFor(size);
    var (r, free) := PageAlloc(s.free, n);
    if r.Some? {
      HeldIn(s);
      AccountsTake(s.free, s.held, npages, n, r.value, free);
    }
  }

  lemma RefillAccounts(s: Slab, npages: nat)
    requires Sound(s) && Accounts(s.free, s.held, npages)
    ensures Accounts(Refill(s).free, Refill(s).held, npages)
  {
    var n := ZonePages(s.zoneSize);
    var (r, free) := PageAlloc(s.free, n);
    if r.Some? {
      HeldIn(s);
      AccountsTake(s.free, s.held, npages, n, r.value, free);
    }
  }

  lemma MallocAccounts(s: Slab, size: nat, npages: nat)
    requires Inv(s) && Accounts(s.free, s.held, npages)
    ensures Accounts(Malloc(s, size).1.free, Malloc(s, size).1.held, npages)
  {
    if size >= ChunkLimit(s.zoneSize) {
      LargeAccounts(s, size, npages);
    } else {
      RefillAccounts(s, npages);
    }
  }

  lemma FreeAccounts(s: Slab, o: Owner, p: nat, npages: nat)
    requires Inv(s) && Live(s, o, p) && Accounts(s.free, s.held, npages)
    ensures Freeable(s, p)
    ensures Accounts(FreeOf(s, p).free, FreeOf(s, p).held, npages)
  {
    Recovers(s, o, p);
    match o
    case ByZone(z) => ChunkAccounts(s, z, p, npages);
    case ByPages =>
      HeldIn(s);
      AccountsGive(s.free, s.held, npages, p / PAGE);
  }

  lemma ChunkAccounts(s: Slab, z: nat, p: nat, npages: nat)
    requires Inv(s) && LiveChunk(s.zones, z, p) && Accounts(s.free, s.held, npages)
    ensures s.zones[z].zi < |s.lists|
    ensures Accounts(FreeChunk(s, z, p).free, FreeChunk(s, z, p).held, npages)
  {
    GiveKeeps(s, z, p);
    var s1 := GiveChunk(s, z, p);
    if Retires(s1, z) {
      RetireKeeps(s1, z);
      var s2 := Retire(s1, z);
      if |s2.spare| > RELEASE_THRESH {
        HeldIn(s2);
        assert s2.spare[0] in s2.spare;
        AccountsGive(s2.free, s2.held, npages, s2.spare[0]);
      }
    }
  }

  lemma InitAccounts(npages: nat)
    requires npages > 0
    ensures Accounts(Init(npages).free, Init(npages).held, npages)
  {
    var n := (npages * 4 + PAGE - 1) / PAGE;
    var all := [Run(0, npages)];
    assert Free([], 0, npages) == all && all[1..] == [];
    assert Canonical(all) && Held(all, map[]);
    TotalNone(npages);
    forall p: int ensures 0 <= p < npages <==> Covers(all, p) || Taken(map[], p) {
      assert Covers(all, p) <==> In(all[0], p) || Covers(all[1..], p);
    }
    assert Count(all) == all[0].n + Count(all[1..]);
    assert Accounts(all, map[], npages);
    var (r, free) := PageAlloc(all, n);
    if r.Some? {
      AccountsTake(all, map[], npages, n, r.value, free);
    }
  }

  lemma {:induction false} TotalNone(n: nat)
    ensures Total(map[], n) == 0
  {
    if n > 0 {
      TotalNone(n - 1);
    }
  }

  lemma StepAccounts(s: Slab, op: Op, s': Slab, npages: nat)
    requires Inv(s) && IsStep(s, op, s') && Accounts(s.free, s.held, npages)
    ensures Accounts(s'.free, s'.held, npages)
  {
    match op
    case OpMalloc(size) => MallocAccounts(s, size, npages);
    case OpFree(p) =>
      var o :| Live(s, o, p);
      FreeAccounts(s, o, p, npages);
    case OpRealloc(p, size) => ReallocAccounts(s, p, size, npages);
  }

  lemma ReallocAccounts(s: Slab, p: Option<nat>, size: nat, npages: nat)
    requires Inv(s) && size < U32 && Usable(s, p) && Accounts(s.free, s.held, npages)
    ensures var (r, s', data') := Realloc(s, map[], p, size); Accounts(s'.free, s'.held, npages)
  {
    if p == None {
      MallocAccounts(s, size, npages);
    } else {
      var o :| Live(s, o, p.value);
      if size == 0 {
        FreeAccounts(s, o, p.value, npages);
      } else {
        UsedAccounts(s, o, p.value, size, npages);
      }
    }
  }

  lemma UsedAccounts(s: Slab, o: Owner, p: nat, size: nat, npages: nat)
    requires Inv(s) && 0 < size < U32 && Live(s, o, p) && Freeable(s, p) && Accounts(s.free, s.held, npages)
    ensures var (r, s', data') := Realloc(s, map[], Some(p), size); Accounts(s'.free, s'.held, npages)
  {
    RoundedUp(size);
    match s.kup[p / PAGE]
    case Large(n) => MoveAccounts(s, o, p, n * PAGE, size, npages);
    case Small(off) => MoveAccounts(s, o, p, s.zones[p / PAGE - off].chunk, Rounded(size), npages);
    case Unused =>
  }

  lemma MoveAccounts(s: Slab, o: Owner, p: nat, had: nat, size: nat, npages: nat)
    requires Inv(s) && Live(s, o, p) && size < U32 && Accounts(s.free, s.held, npages)
    ensures Accounts(Move(s, map[], p, had, size).1.free, Move(s, map[], p, had, size).1.held, npages)
  {
    MallocAccounts(s, size, npages);
    var q := MallocKeeps(s, size);
    if Malloc(s, size).0.Some? {
      FreeAccounts(Malloc(s, size).1, o, p, npages);
    }
  }

  /** In every run the pages of the heap are exactly those on the free list and those of the taken runs,
      no page is both, no two runs share one, and the counts add up to the size of the heap. */
  lemma {:induction false} RunAccounts(run: seq<Slab>, ops: seq<Op>, npages: nat, i: nat)
    requires npages > 0 && IsRun(run, ops) && run[0] == Init(npages) && i < |run|
    ensures Inv(run[i]) && Held(run[i].free, run[i].held)
    ensures Accounts(run[i].free, run[i].held, npages)
    ensures forall p :: Covers(run[i].free, p) ==> !Taken(run[i].held, p)
  {
    RunKeeps(run, ops, npages, i);
    HeldIn(run[i]);
    if i == 0 {
      InitAccounts(npages);
    } else {
      RunAccounts(run, ops, npages, i - 1);
      assert IsStep(run[i - 1], ops[i - 1], run[i]);
      StepAccounts(run[i - 1], ops[i - 1], run[i], npages);
    }
  }
}
