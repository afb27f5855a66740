/** The page allocator under the slab allocator (src/slab.c:212-334).

    Addresses are counted in pages from the start of the heap.  The free list is a sequence of runs of
    pages in the order of the links.
  */
module Pages {
  import opened Options

  datatype Run = Run(start: nat, n: nat)

  // ---------- The two operations ----------

  /** The search loop of rt_page_alloc: the first run that is large enough, cut or removed. */
  function Alloc(free: seq<Run>, k: nat): (Option<nat>, seq<Run>) {
    if free == [] then (None, [])
    else
      var b := free[0];
      if b.n > k then (Some(b.start), [Run(b.start + k, b.n - k)] + free[1..])
      else if b.n == k then (Some(b.start), free[1..])
      else
        var (r, rest) := Alloc(free[1..], k);
        (r, [b] + rest)
  }

  /** The insertion loop of rt_page_free, with its merges. */
  function Free(free: seq<Run>, a: nat, k: nat): seq<Run> {
    if free == [] then [Run(a, k)]
    else
      var b := free[0];
      if b.start + b.n == a then
        if |free| > 1 && a + k == free[1].start then [Run(b.start, b.n + k + free[1].n)] + free[2..]
        else [Run(b.start, b.n + k)] + free[1..]
      else if b.start == a + k then [Run(a, b.n + k)] + free[1..]
      else if b.start > a + k then [Run(a, k)] + free
      else [b] + Free(free[1..], a, k)
  }

  // ---------- What the list stands for ----------

  predicate In(b: Run, p: int) {
    b.start <= p < b.start + b.n
  }

  predicate Covers(free: seq<Run>, p: int) {
    free != [] && (In(free[0], p) || Covers(free[1..], p))
  }

  function Count(free: seq<Run>): nat {
    if free == [] then 0 else free[0].n + Count(free[1..])
  }

  /** Sorted by address, disjoint, and no two runs touch. */
  predicate Canonical(free: seq<Run>) {
    free != [] ==>
      && free[0].n > 0
      && (|free| > 1 ==> free[0].start + free[0].n < free[1].start)
      && Canonical(free[1..])
  }

  lemma {:induction false} CoversFrom(free: seq<Run>, p: int)
    requires Canonical(free) && Covers(free, p)
    ensures p >= free[0].start
    ensures !In(free[0], p) ==> p > free[0].start + free[0].n
  {
    if !In(free[0], p) {
      CoversFrom(free[1..], p);
    }
  }

  /** The list is determined by the set of free pages. */
  lemma {:induction false} CanonicalForm(f: seq<Run>, g: seq<Run>)
    requires Canonical(f) && Canonical(g) && forall p :: Covers(f, p) <==> Covers(g, p)
    ensures f == g
    decreases |f|
  {
    if f == [] || g == [] {
      assert f != [] ==> Covers(f, f[0].start);
      assert g != [] ==> Covers(g, g[0].start);
    } else {
      SameHead(f, g);
      SameHead(g, f);
      forall p ensures Covers(f[1..], p) <==> Covers(g[1..], p) {
        TailCovers(f, p);
        TailCovers(g, p);
      }
      CanonicalForm(f[1..], g[1..]);
      assert f == [f[0]] + f[1..] && g == [g[0]] + g[1..];
    }
  }

  lemma TailCovers(free: seq<Run>, p: int)
    requires Canonical(free) && free != []
    ensures Covers(free[1..], p) <==> Covers(free, p) && !In(free[0], p)
  {
    if Covers(free[1..], p) {
      CoversFrom(free[1..], p);
    }
  }

  lemma SameHead(f: seq<Run>, g: seq<Run>)
    requires Canonical(f) && Canonical(g) && f != [] && g != []
    requires forall p :: Covers(f, p) <==> Covers(g, p)
    ensures f[0].start >= g[0].start
    ensures f[0].start == g[0].start ==> f[0].n >= g[0].n
  {
    assert Covers(f, f[0].start);
    CoversFrom(g, f[0].start);
    if f[0].start == g[0].start && f[0].n < g[0].n {
      var p := f[0].start + f[0].n;
      assert Covers(g, p);
      CoversFrom(f, p);
    }
  }

  // ---------- Allocation ----------

  /** Allocation takes k free pages out of the first run that has them; it fails exactly when no
      run has k pages. */
  lemma {:induction false} AllocTakes(free: seq<Run>, k: nat, r: Option<nat>, free': seq<Run>)
    requires Canonical(free) && k > 0 && Alloc(free, k) == (r, free')
    ensures Canonical(free')
    ensures r == None ==> free' == free && forall b :: b in free ==> b.n < k
    ensures r.Some? ==> exists b :: b in free && b.start == r.value && b.n >= k
    ensures r.Some? ==> forall b :: b in free && b.start < r.value ==> b.n < k
    ensures r.Some? ==> Count(free') == Count(free) - k
    ensures r.Some? ==> forall p :: Covers(free, p) <==> Covers(free', p) || r.value <= p < r.value + k
    ensures r.Some? ==> forall p :: r.value <= p < r.value + k ==> !Covers(free', p)
    ensures free' != [] ==> free != [] && free'[0].start >= free[0].start
  {
    if free != [] {
      var b := free[0];
      if b.n > k {
        AllocCuts(free, k, free');
      } else if b.n == k {
        forall p ensures Covers(free[1..], p) <==> Covers(free, p) && !In(b, p) {
          TailCovers(free, p);
        }
        TailLater(free);
      } else {
        var rest := Alloc(free[1..], k).1;
        AllocTakes(free[1..], k, r, rest);
        assert free'[1..] == rest;
        assert forall x :: x in free <==> x == b || x in free[1..];
        if r.Some? {
          forall p | r.value <= p < r.value + k ensures !Covers(free', p) {
            assert Covers(free[1..], p);
            TailCovers(free, p);
          }
        }
      }
    }
  }

  lemma {:induction false} TailLater(free: seq<Run>)
    requires Canonical(free) && free != []
    ensures forall b :: b in free[1..] ==> b.start > free[0].start
  {
    if |free| > 1 {
      TailLater(free[1..]);
      assert free[1..][0] == free[1];
      assert forall b :: b in free[1..] <==> b == free[1] || b in free[1..][1..];
    }
  }

  lemma AllocCuts(free: seq<Run>, k: nat, free': seq<Run>)
    requires Canonical(free) && free != [] && 0 < k < free[0].n
    requires free' == [Run(free[0].start + k, free[0].n - k)] + free[1..]
    ensures Canonical(free') && Count(free') == Count(free) - k
    ensures forall p :: Covers(free, p) <==> Covers(free', p) || free[0].start <= p < free[0].start + k
    ensures forall p :: free[0].start <= p < free[0].start + k ==> !Covers(free', p)
    ensures forall b :: b in free && b.start < free[0].start ==> b.n < k
  {
    assert free'[1..] == free[1..];
    assert |free| > 1 ==> free'[1] == free[1];
    forall p ensures Covers(free[1..], p) <==> Covers(free, p) && !In(free[0], p) {
      TailCovers(free, p);
    }
    TailLater(free);
    assert forall x :: x in free <==> x == free[0] || x in free[1..];
  }

  // ---------- Freeing ----------

  ghost predicate Apart(free: seq<Run>, a: nat, k: nat) {
    forall p :: a <= p < a + k ==> !Covers(free, p)
  }

  lemma ApartTail(free: seq<Run>, a: nat, k: nat)
    requires Canonical(free) && free != [] && k > 0 && Apart(free, a, k)
    ensures Apart(free[1..], a, k)
    ensures a + k <= free[0].start || free[0].start + free[0].n <= a
  {
    forall p | a <= p < a + k ensures !Covers(free[1..], p) {
      assert !Covers(free, p);
    }
    var p := if free[0].start < a then a else free[0].start;
    assert In(free[0], p) ==> Covers(free, p);
  }

  /** Freeing puts exactly these pages back and keeps the list sorted, disjoint and coalesced. */
  lemma {:induction false} FreeGives(free: seq<Run>, a: nat, k: nat, free': seq<Run>)
    requires Canonical(free) && k > 0 && Apart(free, a, k) && free' == Free(free, a, k)
    ensures Canonical(free') && Count(free') == Count(free) + k
    ensures forall p :: Covers(free', p) <==> Covers(free, p) || a <= p < a + k
    ensures free' != [] && (free'[0].start == a || (free != [] && free'[0].start == free[0].start))
  {
    if free == [] {
      assert free'[1..] == [];
    } else {
      var b := free[0];
      ApartTail(free, a, k);
      if b.start + b.n == a {
        FreeBehind(free, a, k, free');
      } else if b.start >= a + k {
        FreeBefore(free, a, k, free');
      } else {
        FreeGives(free[1..], a, k, Free(free[1..], a, k));
        assert free'[1..] == Free(free[1..], a, k);
      }
    }
  }

  lemma FreeBefore(free: seq<Run>, a: nat, k: nat, free': seq<Run>)
    requires Canonical(free) && k > 0 && free != [] && a + k <= free[0].start && free' == Free(free, a, k)
    ensures Canonical(free') && Count(free') == Count(free) + k && free'[0].start == a
    ensures forall p :: Covers(free', p) <==> Covers(free, p) || a <= p < a + k
  {
    if free[0].start == a + k {
      assert free'[1..] == free[1..];
      assert |free| > 1 ==> free'[1] == free[1];
    } else {
      assert free'[1..] == free;
      assert free'[1] == free[0];
    }
  }

  lemma FreeBehind(free: seq<Run>, a: nat, k: nat, free': seq<Run>)
    requires Canonical(free) && k > 0 && free != [] && free[0].start + free[0].n == a && Apart(free, a, k)
    requires free' == Free(free, a, k)
    ensures Canonical(free') && Count(free') == Count(free) + k && free'[0].start == free[0].start
    ensures forall p :: Covers(free', p) <==> Covers(free, p) || a <= p < a + k
  {
    if |free| > 1 {
      ApartTail(free, a, k);
      ApartTail(free[1..], a, k);
      assert free[1..][1..] == free[2..];
      assert |free| > 2 ==> free[1..][1] == free[2];
      if a + k == free[1].start {
        assert free'[1..] == free[2..];
        forall p ensures Covers(free, p) <==> In(free[0], p) || In(free[1], p) || Covers(free[2..], p) {
          assert Covers(free[1..], p) <==> In(free[1], p) || Covers(free[2..], p);
        }
      } else {
        assert free'[1..] == free[1..] && free'[1] == free[1];
      }
    } else {
      assert free'[1..] == free[1..] == [];
    }
  }

  /** Freeing what was just allocated restores the very same list. */
  lemma AllocThenFree(free: seq<Run>, k: nat, r: Option<nat>, free': seq<Run>)
    requires Canonical(free) && k > 0 && Alloc(free, k) == (r, free') && r.Some?
    ensures Free(free', r.value, k) == free
  {
    AllocTakes(free, k, r, free');
    FreeGives(free', r.value, k, Free(free', r.value, k));
    CanonicalForm(Free(free', r.value, k), free);
  }
}
