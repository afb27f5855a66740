/** An evaluation is determined by what it reads, so invalidating the transitive readers of a changed
    symbol is enough.
  */
module KconfigProofs {
  import opened KconfigExpr
  import opened KconfigSpec

  /** The symbols that are read have the same value under both assignments of user values. */
  ghost predicate Steady(c: Config, user: User, user': User, seen: set<Sym>, k: nat) {
    forall x {:trigger x in seen} :: x in seen && x in c.defs && Rank(c, x) < k ==>
        Value(c, user, x) == Value(c, user', x)
  }

  lemma {:induction false} SameEval(c: Config, user: User, user': User, e: Expr, k: nat)
    requires Steady(c, user, user', Reads(c, user, e, k), k)
    ensures Eval(c, user', e, k) == Eval(c, user, e, k) && Reads(c, user', e, k) == Reads(c, user, e, k)
  {
    match e
    case Item(s) =>
      assert s in Reads(c, user, e, k);
    case And(l, r) =>
      SameEval(c, user, user', l, k);
      if Eval(c, user, l, k) != 0 {
        SameEval(c, user, user', r, k);
      }
    case Or(l, r) =>
      SameEval(c, user, user', l, k);
      if Eval(c, user, l, k) != 2 {
        SameEval(c, user, user', r, k);
      }
    case Not(x) =>
      SameEval(c, user, user', x, k);
    case Rel(_, a, b) =>
      assert a in Reads(c, user, e, k) && b in Reads(c, user, e, k);
  }

  lemma {:induction false} SamePrompts(c: Config, user: User, user': User, prompts: seq<Expr>, k: nat)
    requires Steady(c, user, user', PromptReads(c, user, prompts, k), k)
    ensures PromptMax(c, user', prompts, k) == PromptMax(c, user, prompts, k)
    ensures PromptReads(c, user', prompts, k) == PromptReads(c, user, prompts, k)
  {
    if prompts != [] {
      SamePrompts(c, user, user', prompts[..|prompts| - 1], k);
      SameEval(c, user, user', prompts[|prompts| - 1], k);
    }
  }

  lemma SameType(c: Config, user: User, user': User, d: Def, k: nat)
    requires Steady(c, user, user', TypeReads(c, d), k)
    ensures IsTristate(c, user', d, k) == IsTristate(c, user, d, k)
  {
    assert d.tristate ==> c.modules in TypeReads(c, d);
  }

  lemma SameVis(c: Config, user: User, user': User, s: Sym)
    requires s in c.defs && Steady(c, user, user', VisReads(c, user, s), Rank(c, s))
    ensures Vis(c, user', s) == Vis(c, user, s) && VisReads(c, user', s) == VisReads(c, user, s)
  {
    var d, k := c.defs[s], Rank(c, s);
    SamePrompts(c, user, user', d.prompts, k);
    if PromptMax(c, user, d.prompts, k) == 1 {
      SameType(c, user, user', d, k);
    }
  }

  lemma {:induction false} SameDefault(c: Config, user: User, user': User, defaults: seq<(Expr, Expr)>, k: nat)
    requires Steady(c, user, user', DefaultReads(c, user, defaults, k), k)
    ensures Default(c, user', defaults, k) == Default(c, user, defaults, k)
    ensures DefaultReads(c, user', defaults, k) == DefaultReads(c, user, defaults, k)
  {
    if defaults != [] {
      SameEval(c, user, user', defaults[0].1, k);
      if Eval(c, user, defaults[0].1, k) != 0 {
        SameEval(c, user, user', defaults[0].0, k);
      } else {
        SameDefault(c, user, user', defaults[1..], k);
      }
    }
  }

  lemma SameUnset(c: Config, user: User, user': User, d: Def, k: nat)
    requires Steady(c, user, user', UnsetReads(c, user, d, k), k)
    ensures Unset(c, user', d, k) == Unset(c, user, d, k) && UnsetReads(c, user', d, k) == UnsetReads(c, user, d, k)
  {
    SameDefault(c, user, user', d.defaults, k);
    SameEval(c, user, user', d.weak, k);
    if Eval(c, user, d.weak, k) != 0 {
      SameEval(c, user, user', d.direct, k);
    }
  }

  ghost predicate SameAt(user: User, user': User, s: Sym) {
    (s in user <==> s in user') && (s in user ==> user[s] == user'[s])
  }

  /** The user value itself is the same, or the symbol has no prompt, so that it does not count. */
  ghost predicate SameUser(c: Config, user: User, user': User, s: Sym) {
    s in c.defs && (c.defs[s].prompts == [] || SameAt(user, user', s))
  }

  lemma SameBase(c: Config, user: User, user': User, s: Sym)
    requires SameUser(c, user, user', s) && Vis(c, user', s) == Vis(c, user, s)
    requires Steady(c, user, user', BaseReads(c, user, s), Rank(c, s))
    ensures Base(c, user', s) == Base(c, user, s) && BaseReads(c, user', s) == BaseReads(c, user, s)
  {
    var d, k := c.defs[s], Rank(c, s);
    if Vis(c, user, s) == 0 || s !in user {
      SameUnset(c, user, user', d, k);
    }
    SameEval(c, user, user', d.rev, k);
  }

  lemma SameTri(c: Config, user: User, user': User, s: Sym)
    requires SameUser(c, user, user', s) && Vis(c, user', s) == Vis(c, user, s)
    requires Steady(c, user, user', TriReads(c, user, s), Rank(c, s))
    ensures Value(c, user', s) == Value(c, user, s) && TriReads(c, user', s) == TriReads(c, user, s)
  {
    var d, k := c.defs[s], Rank(c, s);
    SameBase(c, user, user', s);
    if Base(c, user, s) == 1 {
      SameType(c, user, user', d, k);
      if IsTristate(c, user, d, k) {
        SameEval(c, user, user', d.weak, k);
      }
    }
  }

  // ---------- What values promise ----------

  /** Selects win over user values, defaults and implies. */
  lemma SelectWins(c: Config, user: User, s: Sym)
    requires s in c.defs
    ensures Value(c, user, s) >= Eval(c, user, c.defs[s].rev, Rank(c, s))
  {
  }

  /** A symbol that is not, or by MODULES no longer, tristate is never m, and neither is its visibility. */
  lemma NeverModule(c: Config, user: User, s: Sym)
    requires s in c.defs && !IsTristate(c, user, c.defs[s], Rank(c, s))
    ensures Value(c, user, s) != 1 && Vis(c, user, s) != 1
  {
  }

  /** The visibility is the best prompt condition, with m promoted for symbols that are not tristate. */
  lemma {:induction false} BestPrompt(c: Config, user: User, prompts: seq<Expr>, k: nat)
    ensures forall i :: 0 <= i < |prompts| ==> Eval(c, user, prompts[i], k) <= PromptMax(c, user, prompts, k)
    ensures PromptMax(c, user, prompts, k) > 0 ==>
              exists i :: 0 <= i < |prompts| && Eval(c, user, prompts[i], k) == PromptMax(c, user, prompts, k)
  {
    if prompts != [] {
      var front, last := prompts[..|prompts| - 1], prompts[|prompts| - 1];
      BestPrompt(c, user, front, k);
      forall i | 0 <= i < |prompts| ensures Eval(c, user, prompts[i], k) <= PromptMax(c, user, prompts, k) {
        assert i < |prompts| - 1 ==> prompts[i] == front[i];
      }
      if PromptMax(c, user, prompts, k) > 0 {
        if Eval(c, user, last, k) < PromptMax(c, user, front, k) {
          var i :| 0 <= i < |front| && Eval(c, user, front[i], k) == PromptMax(c, user, front, k);
          assert prompts[i] == front[i];
        } else {
          assert prompts[|prompts| - 1] == last;
        }
      }
    }
  }

  // ---------- Kept results ----------

  /** The results vis and tri form a set that reads only itself, and no user value of theirs changes. */
  ghost predicate Closed(c: Config, user: User, user': User, vis: set<Sym>, tri: set<Sym>) {
    && tri <= vis <= c.defs.Keys
    && (forall s {:trigger VisReads(c, user, s)} :: s in vis ==>
          SameUser(c, user, user', s) && forall x :: x in VisReads(c, user, s) && x in c.defs ==> x in tri)
    && (forall s {:trigger TriReads(c, user, s)} :: s in tri ==>
        forall x :: x in TriReads(c, user, s) && x in c.defs ==> x in tri)
  }

  /** Such results are the same under both assignments. */
  lemma {:induction false} ClosedKeeps(c: Config, user: User, user': User, vis: set<Sym>, tri: set<Sym>, s: Sym)
    requires Closed(c, user, user', vis, tri) && s in vis
    ensures Vis(c, user', s) == Vis(c, user, s) && VisReads(c, user', s) == VisReads(c, user, s)
    ensures s in tri ==> Value(c, user', s) == Value(c, user, s) && TriReads(c, user', s) == TriReads(c, user, s)
    decreases Rank(c, s)
  {
    forall x | x in VisReads(c, user, s) && x in c.defs && Rank(c, x) < Rank(c, s)
      ensures Value(c, user', x) == Value(c, user, x)
    {
      ClosedKeeps(c, user, user', vis, tri, x);
    }
    SameVis(c, user, user', s);
    if s in tri {
      forall x | x in TriReads(c, user, s) && x in c.defs && Rank(c, x) < Rank(c, s)
        ensures Value(c, user', x) == Value(c, user, x)
      {
        ClosedKeeps(c, user, user', vis, tri, x);
      }
      SameTri(c, user, user', s);
    }
  }

  // ---------- Reads are dependencies ----------

  lemma {:induction false} ReadsItems(c: Config, user: User, e: Expr, k: nat)
    ensures Reads(c, user, e, k) <= Items(e)
  {
    match e
    case Item(s) =>
    case And(l, r) => ReadsItems(c, user, l, k); ReadsItems(c, user, r, k);
    case Or(l, r) => ReadsItems(c, user, l, k); ReadsItems(c, user, r, k);
    case Not(x) => ReadsItems(c, user, x, k);
    case Rel(_, a, b) =>
  }

  lemma {:induction false} PromptItems(c: Config, user: User, prompts: seq<Expr>, k: nat)
    ensures PromptReads(c, user, prompts, k) <= ListItems(prompts)
  {
    if prompts != [] {
      PromptItems(c, user, prompts[..|prompts| - 1], k);
      ReadsItems(c, user, prompts[|prompts| - 1], k);
    }
  }

  lemma {:induction false} DefaultsItems(c: Config, user: User, defaults: seq<(Expr, Expr)>, k: nat)
    ensures DefaultReads(c, user, defaults, k) <= DefaultItems(defaults)
  {
    if defaults != [] {
      ReadsItems(c, user, defaults[0].0, k);
      ReadsItems(c, user, defaults[0].1, k);
      DefaultsItems(c, user, defaults[1..], k);
    }
  }

  /** Everything read is an item of the definition, except MODULES, read for the type. */
  lemma VisItems(c: Config, user: User, s: Sym)
    requires s in c.defs
    ensures VisReads(c, user, s) <= DefItems(c.defs[s]) + TypeReads(c, c.defs[s])
  {
    PromptItems(c, user, c.defs[s].prompts, Rank(c, s));
  }

  lemma TriItems(c: Config, user: User, s: Sym)
    requires s in c.defs
    ensures TriReads(c, user, s) <= DefItems(c.defs[s]) + TypeReads(c, c.defs[s])
  {
    var d, k := c.defs[s], Rank(c, s);
    DefaultsItems(c, user, d.defaults, k);
    ReadsItems(c, user, d.rev, k);
    ReadsItems(c, user, d.weak, k);
    ReadsItems(c, user, d.direct, k);
  }

  // ---------- Invalidation ----------

  /** _dependents: the symbols that mention x. */
  ghost predicate Dependents(c: Config, deps: map<Sym, set<Sym>>) {
    forall s, x {:trigger Mentions(c, s, x)} :: x in c.defs && Mentions(c, s, x) ==> x in deps && s in deps[x]
  }

  predicate Mentions(c: Config, s: Sym, x: Sym) {
    s in c.defs && x in DefItems(c.defs[s])
  }

  function Drop(m: Cache, gone: set<Sym>): Cache {
    Cache(m.vis - gone, m.tri - gone, m.str - gone)
  }

  /** The invalidated symbols: when x is among them, no symbol that mentions x has cached values left;
      and nothing is left when MODULES is among them. */
  ghost predicate Swept(c: Config, deps: map<Sym, set<Sym>>, gone: set<Sym>, m': Cache) {
    && (forall x, s {:trigger x in gone, s in m'.vis} :: x in gone && x in deps && s in deps[x] ==> s !in m'.vis)
    && (c.modules in gone ==> m'.vis == map[])
  }

  /** Sweeping the readers of the changed symbol leaves only values that are still right: stopping at
      symbols without a cached visibility loses nothing. */
  lemma SweepKeeps(c: Config, deps: map<Sym, set<Sym>>, user: User, user': User, m: Cache, gone: set<Sym>)
    requires Valid(c, user, m) && Dependents(c, deps) && Swept(c, deps, gone, Drop(m, gone))
    requires forall s :: s in c.defs && s !in gone ==> SameUser(c, user, user', s)
    ensures Valid(c, user', Drop(m, gone))
  {
    ValidMeans(c, user, m);
    var m' := Drop(m, gone);
    SweepCloses(c, deps, user, user', m, gone);
    forall s | s in m'.vis ensures SameResults(c, user, user', s, s in m'.tri) {
      ClosedKeeps(c, user, user', m'.vis.Keys, m'.tri.Keys, s);
    }
    ResultsKeep(c, user, user', m');
  }

  ghost predicate SameResults(c: Config, user: User, user': User, s: Sym, tri: bool) {
    && s in c.defs && Vis(c, user', s) == Vis(c, user, s) && VisReads(c, user', s) == VisReads(c, user, s)
    && (tri ==> Value(c, user', s) == Value(c, user, s) && TriReads(c, user', s) == TriReads(c, user, s))
  }

  /** A closed cache is right under both assignments if it is under one. */
  lemma ResultsKeep(c: Config, user: User, user': User, m: Cache)
    requires Right(c, user, m) && Closed(c, user, user', m.vis.Keys, m.tri.Keys)
    requires forall s :: s in m.vis ==> SameResults(c, user, user', s, s in m.tri)
    ensures Valid(c, user', m)
  {
    assert Right(c, user', m);
    forall s | s in m.vis
      ensures Known(c, m, VisReads(c, user', s))
      ensures s in m.tri ==> Known(c, m, TriReads(c, user', s))
    {
      assert SameResults(c, user, user', s, s in m.tri);
    }
    assert CacheIs(c, user', m);
    ValidMeans(c, user', m);
  }

  lemma SweepCloses(c: Config, deps: map<Sym, set<Sym>>, user: User, user': User, m: Cache, gone: set<Sym>)
    requires CacheIs(c, user, m) && Dependents(c, deps) && Swept(c, deps, gone, Drop(m, gone))
    requires forall s :: s in c.defs && s !in gone ==> SameUser(c, user, user', s)
    ensures Closed(c, user, user', Drop(m, gone).vis.Keys, Drop(m, gone).tri.Keys)
  {
    var m' := Drop(m, gone);
    forall s, x | s in m'.vis && x in VisReads(c, user, s) && x in c.defs ensures x in m'.tri {
      VisItems(c, user, s);
      assert Known(c, m, VisReads(c, user, s));
      ReaderKept(c, deps, m, gone, s, x);
    }
    forall s, x | s in m'.tri && x in TriReads(c, user, s) && x in c.defs ensures x in m'.tri {
      TriItems(c, user, s);
      assert Known(c, m, TriReads(c, user, s));
      ReaderKept(c, deps, m, gone, s, x);
    }
  }

  /** What a remaining symbol reads remains. */
  lemma ReaderKept(c: Config, deps: map<Sym, set<Sym>>, m: Cache, gone: set<Sym>, s: Sym, x: Sym)
    requires Dependents(c, deps) && Swept(c, deps, gone, Drop(m, gone))
    requires s in Drop(m, gone).vis && s in c.defs && x in c.defs && x in DefItems(c.defs[s]) + TypeReads(c, c.defs[s])
    ensures x !in gone
  {
    if x in DefItems(c.defs[s]) {
      assert Mentions(c, s, x);
    } else {
      assert x == c.modules;
    }
  }

  /** User values have no effect on symbols without a prompt, so nothing need be invalidated for them. */
  lemma PromptlessKeeps(c: Config, user: User, user': User, m: Cache, s: Sym)
    requires Valid(c, user, m) && s in c.defs && c.defs[s].prompts == []
    requires forall x :: x != s ==> SameAt(user, user', x)
    ensures Valid(c, user', m)
  {
    ValidMeans(c, user, m);
    var all := c.defs.Keys;
    forall x | x in c.defs ensures SameUser(c, user, user', x) {
      assert x != s ==> SameAt(user, user', x);
    }
    assert Closed(c, user, user', all, all);
    forall x | x in m.vis ensures SameResults(c, user, user', x, x in m.tri) {
      ClosedKeeps(c, user, user', all, all, x);
    }
    ResultsKeep(c, user, user', m);
  }
}
