/** The value caches of Symbol, filled by reads and emptied by assignments
    (tools/kconfiglib.py:2827-2910, 3585-3682, 3713-3805, 4001-4047, 5244-5260).
  */
module KconfigCache {
  import opened KconfigExpr
  import opened KconfigSpec
  import opened KconfigProofs

  /** Nothing cached is lost. */
  ghost predicate Grown(m: Cache, m': Cache) {
    m.vis.Keys <= m'.vis.Keys && m.tri.Keys <= m'.tri.Keys
  }

  lemma KnownGrows(c: Config, m: Cache, m': Cache, seen: set<Sym>)
    requires Known(c, m, seen) && Grown(m, m')
    ensures Known(c, m', seen)
  {
  }

  lemma CompleteGrows(c: Config, user: User, m: Cache, m': Cache)
    requires Complete(c, user, m) && Grown(m, m')
    requires forall s :: s in m'.vis && s in c.defs ==> s in m.vis || Known(c, m, VisReads(c, user, s))
    requires forall s :: s in m'.tri && s in c.defs ==> s in m.tri || Known(c, m, TriReads(c, user, s))
    ensures Complete(c, user, m')
  {
    forall s | s in m'.vis && s in c.defs ensures Known(c, m', VisReads(c, user, s)) {
      KnownGrows(c, m, m', VisReads(c, user, s));
    }
    forall s | s in m'.tri && s in c.defs ensures Known(c, m', TriReads(c, user, s)) {
      KnownGrows(c, m, m', TriReads(c, user, s));
    }
  }

  lemma AddVis(c: Config, user: User, m: Cache, s: Sym)
    requires Valid(c, user, m) && s in c.defs && Known(c, m, VisReads(c, user, s))
    ensures Valid(c, user, m.(vis := m.vis[s := Vis(c, user, s)]))
  {
    ValidMeans(c, user, m);
    var m' := m.(vis := m.vis[s := Vis(c, user, s)]);
    assert Right(c, user, m');
    CompleteGrows(c, user, m, m');
    ValidMeans(c, user, m');
  }

  lemma AddTri(c: Config, user: User, m: Cache, s: Sym)
    requires Valid(c, user, m) && s in c.defs && s in m.vis && Known(c, m, TriReads(c, user, s))
    ensures Valid(c, user, m.(tri := m.tri[s := Value(c, user, s)]))
  {
    ValidMeans(c, user, m);
    var m' := m.(tri := m.tri[s := Value(c, user, s)]);
    assert Right(c, user, m');
    CompleteGrows(c, user, m, m');
    ValidMeans(c, user, m');
  }

  lemma AddStr(c: Config, user: User, m: Cache, s: Sym)
    requires Valid(c, user, m) && s in c.defs && s in m.tri
    ensures Valid(c, user, m.(str := m.str[s := Value(c, user, s)]))
  {
    ValidMeans(c, user, m);
    var m' := m.(str := m.str[s := Value(c, user, s)]);
    assert Right(c, user, m');
    CompleteGrows(c, user, m, m');
    ValidMeans(c, user, m');
  }

  lemma CachedVis(c: Config, user: User, m: Cache, s: Sym)
    requires Valid(c, user, m)
    ensures s in m.vis ==> s in c.defs && m.vis[s] == Vis(c, user, s)
    ensures s in m.tri ==> s in c.defs && m.tri[s] == Value(c, user, s)
    ensures s in m.str ==> s in c.defs && s in m.tri && m.str[s] == Value(c, user, s)
  {
    ValidMeans(c, user, m);
  }

  /** All symbols of the expression have a lower rank. */
  ghost predicate Below(c: Config, e: Expr, k: nat) {
    forall x :: x in Items(e) && x in c.defs ==> Rank(c, x) < k
  }

  lemma {:induction false} ListBelow(c: Config, es: seq<Expr>, k: nat, i: nat)
    requires (forall x :: x in ListItems(es) && x in c.defs ==> Rank(c, x) < k) && i < |es|
    ensures Below(c, es[i], k)
  {
    if i < |es| - 1 {
      ListBelow(c, es[..|es| - 1], k, i);
    }
  }

  lemma {:induction false} DefaultsBelow(c: Config, defaults: seq<(Expr, Expr)>, k: nat, i: nat)
    requires (forall x :: x in DefaultItems(defaults) && x in c.defs ==> Rank(c, x) < k) && i < |defaults|
    ensures Below(c, defaults[i].0, k) && Below(c, defaults[i].1, k)
  {
    if i > 0 {
      DefaultsBelow(c, defaults[1..], k, i - 1);
    }
  }

  lemma DefBelow(c: Config, s: Sym)
    requires Acyclic(c) && s in c.defs
    ensures var d, k := c.defs[s], Rank(c, s);
            && Below(c, d.rev, k) && Below(c, d.weak, k) && Below(c, d.direct, k)
            && (forall i :: 0 <= i < |d.prompts| ==> Below(c, d.prompts[i], k))
            && (forall i :: 0 <= i < |d.defaults| ==> Below(c, d.defaults[i].0, k) && Below(c, d.defaults[i].1, k))
            && (d.tristate && c.modules in c.defs ==> Rank(c, c.modules) < k)
  {
    var d, k := c.defs[s], Rank(c, s);
    assert DefAcyclic(c, s, d);
    forall i | 0 <= i < |d.prompts| ensures Below(c, d.prompts[i], k) {
      ListBelow(c, d.prompts, k, i);
    }
    forall i | 0 <= i < |d.defaults| ensures Below(c, d.defaults[i].0, k) && Below(c, d.defaults[i].1, k) {
      DefaultsBelow(c, d.defaults, k, i);
    }
  }

  // ---------- Dependents ----------

  function Get(deps: map<Sym, set<Sym>>, x: Sym): set<Sym> {
    if x in deps then deps[x] else {}
  }

  function Enter(deps: map<Sym, set<Sym>>, s: Sym, x: Sym, constants: set<Sym>): map<Sym, set<Sym>> {
    if x in constants then deps else deps[x := Get(deps, x) + {s}]
  }

  /** _make_depend_on. */
  function MakeDependOn(deps: map<Sym, set<Sym>>, s: Sym, e: Expr, constants: set<Sym>): map<Sym, set<Sym>>
    decreases e
  {
    match e
    case Item(x) => Enter(deps, s, x, constants)
    case And(l, r) => MakeDependOn(MakeDependOn(deps, s, l, constants), s, r, constants)
    case Or(l, r) => MakeDependOn(MakeDependOn(deps, s, l, constants), s, r, constants)
    case Not(x) => MakeDependOn(deps, s, x, constants)
    case Rel(_, a, b) => Enter(Enter(deps, s, a, constants), s, b, constants)
  }

  /** s has been entered as a dependent of exactly these symbols, constants excepted. */
  ghost predicate Entered(deps: map<Sym, set<Sym>>, s: Sym, items: set<Sym>, constants: set<Sym>,
                          deps': map<Sym, set<Sym>>) {
    forall y, t {:trigger t in Get(deps', y)} ::
      t in Get(deps', y) <==> t in Get(deps, y) || (t == s && y in items && y !in constants)
  }

  lemma {:induction false} DependsOn(deps: map<Sym, set<Sym>>, s: Sym, e: Expr, constants: set<Sym>)
    ensures Entered(deps, s, Items(e), constants, MakeDependOn(deps, s, e, constants))
    decreases e
  {
    match e
    case Item(x) =>
    case And(l, r) =>
      DependsOn(deps, s, l, constants);
      DependsOn(MakeDependOn(deps, s, l, constants), s, r, constants);
    case Or(l, r) =>
      DependsOn(deps, s, l, constants);
      DependsOn(MakeDependOn(deps, s, l, constants), s, r, constants);
    case Not(x) =>
      DependsOn(deps, s, x, constants);
    case Rel(_, a, b) =>
  }

  lemma EnteredMore(deps: map<Sym, set<Sym>>, s: Sym, items: set<Sym>, e: Expr, constants: set<Sym>,
                    deps': map<Sym, set<Sym>>)
    requires Entered(deps, s, items, constants, deps')
    ensures Entered(deps, s, items + Items(e), constants, MakeDependOn(deps', s, e, constants))
  {
    DependsOn(deps', s, e, constants);
  }

  lemma {:induction false} DefaultItemsSnoc(defaults: seq<(Expr, Expr)>, i: nat)
    requires i < |defaults|
    ensures DefaultItems(defaults[..i + 1]) == DefaultItems(defaults[..i]) + Items(defaults[i].0) + Items(defaults[i].1)
  {
    if i > 0 {
      DefaultItemsSnoc(defaults[1..], i - 1);
      assert defaults[..i + 1][1..] == defaults[1..][..i] && defaults[..i][1..] == defaults[1..][..i - 1];
    }
  }

  /** The part of _build_dep for one symbol. */
  method DefDepends(deps: map<Sym, set<Sym>>, s: Sym, d: Def, constants: set<Sym>) returns (deps': map<Sym, set<Sym>>)
    ensures Entered(deps, s, DefItems(d), constants, deps')
  {
    deps' := deps;
    var i := 0;
    while i < |d.prompts|
      invariant i <= |d.prompts| && Entered(deps, s, ListItems(d.prompts[..i]), constants, deps')
    {
      assert d.prompts[..i + 1][..i] == d.prompts[..i];
      EnteredMore(deps, s, ListItems(d.prompts[..i]), d.prompts[i], constants, deps');
      deps' := MakeDependOn(deps', s, d.prompts[i], constants);
      i := i + 1;
    }
    assert d.prompts[..i] == d.prompts;
    ghost var prompts := ListItems(d.prompts);
    i := 0;
    while i < |d.defaults|
      invariant i <= |d.defaults| && Entered(deps, s, prompts + DefaultItems(d.defaults[..i]), constants, deps')
    {
      DefaultItemsSnoc(d.defaults, i);
      ghost var items := prompts + DefaultItems(d.defaults[..i]);
      EnteredMore(deps, s, items, d.defaults[i].0, constants, deps');
      deps' := MakeDependOn(deps', s, d.defaults[i].0, constants);
      EnteredMore(deps, s, items + Items(d.defaults[i].0), d.defaults[i].1, constants, deps');
      deps' := MakeDependOn(deps', s, d.defaults[i].1, constants);
      assert items + Items(d.defaults[i].0) + Items(d.defaults[i].1) == prompts + DefaultItems(d.defaults[..i + 1]);
      i := i + 1;
    }
    assert d.defaults[..i] == d.defaults;
    ghost var items := prompts + DefaultItems(d.defaults);
    EnteredMore(deps, s, items, d.rev, constants, deps');
    deps' := MakeDependOn(deps', s, d.rev, constants);
    EnteredMore(deps, s, items + Items(d.rev), d.weak, constants, deps');
    deps' := MakeDependOn(deps', s, d.weak, constants);
    EnteredMore(deps, s, items + Items(d.rev) + Items(d.weak), d.direct, constants, deps');
    deps' := MakeDependOn(deps', s, d.direct, constants);
  }

  ghost predicate Built(c: Config, deps: map<Sym, set<Sym>>) {
    forall x, s {:trigger s in Get(deps, x)} ::
      s in Get(deps, x) <==> Mentions(c, s, x) && x !in c.constants
  }

  /** _build_dep: the dependents of x are the symbols whose definition mentions x. */
  method BuildDep(c: Config) returns (deps: map<Sym, set<Sym>>)
    ensures Built(c, deps)
  {
    deps := map[];
    var todo := c.defs.Keys;
    while todo != {}
      invariant todo <= c.defs.Keys
      invariant forall x, s {:trigger s in Get(deps, x)} ::
                  s in Get(deps, x) <==> s in c.defs && s !in todo && x in DefItems(c.defs[s]) && x !in c.constants
      decreases |todo|
    {
      var s :| s in todo;
      deps := DefDepends(deps, s, c.defs[s], c.constants);
      todo := todo - {s};
    }
  }

  lemma BuiltDependents(c: Config, deps: map<Sym, set<Sym>>)
    requires Acyclic(c) && Built(c, deps)
    ensures Dependents(c, deps)
  {
    forall s, x | x in c.defs && Mentions(c, s, x) ensures x in deps && s in deps[x] {
      OneDependent(c, deps, s, x);
    }
  }

  lemma OneDependent(c: Config, deps: map<Sym, set<Sym>>, s: Sym, x: Sym)
    requires Acyclic(c) && Built(c, deps) && x in c.defs && Mentions(c, s, x)
    ensures x in deps && s in deps[x]
  {
    NotConstant(c, x);
    assert s in Get(deps, x);
    Entry(deps, s, x);
  }

  lemma NotConstant(c: Config, x: Sym)
    requires Acyclic(c) && x in c.defs
    ensures x !in c.constants
  {
    assert DefAcyclic(c, x, c.defs[x]);
  }

  lemma Entry(deps: map<Sym, set<Sym>>, s: Sym, x: Sym)
    ensures s in Get(deps, x) ==> x in deps && s in deps[x]
  {
  }

  // ---------- Invalidation ----------

  lemma DropTwice(m: Cache, a: set<Sym>, b: set<Sym>)
    ensures Drop(Drop(m, a), b) == Drop(m, a + b)
  {
  }

  lemma SweptBoth(c: Config, deps: map<Sym, set<Sym>>, a: set<Sym>, b: set<Sym>, m: Cache, m': Cache)
    requires Swept(c, deps, a, m) && Swept(c, deps, b, m') && m'.vis.Keys <= m.vis.Keys
    ensures Swept(c, deps, a + b, m')
  {
  }

  /** The caches while the dependents of s are being invalidated. */
  ghost predicate Sweeping(c: Config, deps: map<Sym, set<Sym>>, m0: Cache, s: Sym, inner: set<Sym>, m: Cache) {
    m == Drop(m0, {s} + inner) && Swept(c, deps, inner, m) && m.vis.Keys <= c.defs.Keys
  }

  lemma SweepMore(c: Config, deps: map<Sym, set<Sym>>, m0: Cache, s: Sym, inner: set<Sym>, m: Cache, more: set<Sym>)
    requires Sweeping(c, deps, m0, s, inner, m) && Swept(c, deps, more, Drop(m, more))
    ensures Sweeping(c, deps, m0, s, inner + more, Drop(m, more))
  {
    DropTwice(m0, {s} + inner, more);
    assert {s} + inner + more == {s} + (inner + more);
    SweptBoth(c, deps, inner, more, m, Drop(m, more));
  }

  class Kconfig {
    const cfg: Config
    const deps: map<Sym, set<Sym>>
    var user: User
    var vis: map<Sym, Tri>
    var tri: map<Sym, Tri>
    var str: map<Sym, Tri>

    ghost function Caches(): Cache
      reads this
    {
      Cache(vis, tri, str)
    }

    /** Whatever is cached is what an evaluation from scratch would give. */
    ghost predicate Ok()
      reads this
    {
      Acyclic(cfg) && Dependents(cfg, deps) && Valid(cfg, user, Caches())
    }

    constructor (cfg: Config)
      requires Acyclic(cfg)
      ensures Ok() && user == map[] && this.cfg == cfg
    {
      this.cfg := cfg;
      var built := BuildDep(cfg);
      BuiltDependents(cfg, built);
      deps := built;
      user, vis, tri, str := map[], map[], map[], map[];
      new;
      assert CacheIs(cfg, user, Caches());
      ValidMeans(cfg, user, Caches());
    }

    /** Symbol.tri_value. */
    method TriValue(s: Sym) returns (v: Tri)
      requires Ok()
      modifies this`vis, this`tri, this`str
      ensures Ok() && Grown(old(Caches()), Caches())
      ensures s in cfg.defs ==> v == Value(cfg, user, s) && s in tri
      ensures s !in cfg.defs ==> v == Look(cfg, user, s, 0)
      decreases Rank(cfg, s), 6
    {
      CachedVis(cfg, user, Caches(), s);
      if s in tri {
        return tri[s];
      }
      if s !in cfg.defs {
        return if s in cfg.fixed then cfg.fixed[s] else 0;
      }
      v := Compute(s);
      AddTri(cfg, user, Caches(), s);
      tri := tri[s := v];
    }

    /** The body of tri_value behind the cache. */
    method Compute(s: Sym) returns (v: Tri)
      requires Ok() && s in cfg.defs
      modifies this`vis, this`tri, this`str
      ensures Ok() && Grown(old(Caches()), Caches()) && v == Value(cfg, user, s)
      ensures s in vis && Known(cfg, Caches(), TriReads(cfg, user, s))
      decreases Rank(cfg, s), 5
    {
      var d := cfg.defs[s];
      ghost var k := Rank(cfg, s);
      DefBelow(cfg, s);
      v := ComputeBase(s);
      if v == 1 {
        ghost var m := Caches();
        var tristate := IsTri(d, k);
        ghost var m1 := Caches();
        KnownGrows(cfg, m, m1, BaseReads(cfg, user, s));
        if !tristate {
          v := 2;
        } else {
          var weak := EvalExpr(d.weak, k);
          KnownGrows(cfg, m1, Caches(), BaseReads(cfg, user, s));
          KnownGrows(cfg, m1, Caches(), TypeReads(cfg, d));
          if weak == 2 {
            v := 2;
          }
        }
      }
    }

    method ComputeBase(s: Sym) returns (v: Tri)
      requires Ok() && s in cfg.defs
      modifies this`vis, this`tri, this`str
      ensures Ok() && Grown(old(Caches()), Caches()) && v == Base(cfg, user, s)
      ensures s in vis && Known(cfg, Caches(), BaseReads(cfg, user, s))
      decreases Rank(cfg, s), 4
    {
      var d := cfg.defs[s];
      ghost var k := Rank(cfg, s);
      DefBelow(cfg, s);
      var vis := Visibility(s);
      if vis != 0 && s in user {
        v := Min(user[s], vis);
      } else {
        v := ComputeUnset(d, k);
      }
      ghost var m := Caches();
      var rev := EvalExpr(d.rev, k);
      if !(vis != 0 && s in user) {
        KnownGrows(cfg, m, Caches(), UnsetReads(cfg, user, d, k));
      }
      if rev != 0 {
        v := Max(rev, v);
      }
    }

    method ComputeUnset(d: Def, ghost k: nat) returns (v: Tri)
      requires Ok() && Below(cfg, d.weak, k) && Below(cfg, d.direct, k)
      requires forall i :: 0 <= i < |d.defaults| ==> Below(cfg, d.defaults[i].0, k) && Below(cfg, d.defaults[i].1, k)
      modifies this`vis, this`tri, this`str
      ensures Ok() && Grown(old(Caches()), Caches()) && v == Unset(cfg, user, d, k)
      ensures Known(cfg, Caches(), UnsetReads(cfg, user, d, k))
      decreases k, 3
    {
      v := ComputeDefault(d.defaults, k);
      ghost var m := Caches();
      var weak := EvalExpr(d.weak, k);
      KnownGrows(cfg, m, Caches(), DefaultReads(cfg, user, d.defaults, k));
      if weak != 0 {
        ghost var m1 := Caches();
        var direct := EvalExpr(d.direct, k);
        KnownGrows(cfg, m1, Caches(), DefaultReads(cfg, user, d.defaults, k));
        KnownGrows(cfg, m1, Caches(), Reads(cfg, user, d.weak, k));
        if direct != 0 {
          v := Max(weak, v);
        }
      }
    }

    /** The loop over the defaults. */
    method ComputeDefault(defaults: seq<(Expr, Expr)>, ghost k: nat) returns (v: Tri)
      requires Ok()
      requires forall i :: 0 <= i < |defaults| ==> Below(cfg, defaults[i].0, k) && Below(cfg, defaults[i].1, k)
      modifies this`vis, this`tri, this`str
      ensures Ok() && Grown(old(Caches()), Caches()) && v == Default(cfg, user, defaults, k)
      ensures Known(cfg, Caches(), DefaultReads(cfg, user, defaults, k))
      decreases k, 2
    {
      ghost var seen := {};
      var i := 0;
      assert defaults[0..] == defaults;
      while i < |defaults|
        invariant i <= |defaults| && Ok() && Grown(old(Caches()), Caches())
        invariant Default(cfg, user, defaults, k) == Default(cfg, user, defaults[i..], k)
        invariant DefaultReads(cfg, user, defaults, k) == seen + DefaultReads(cfg, user, defaults[i..], k)
        invariant Known(cfg, Caches(), seen)
      {
        assert defaults[i..][1..] == defaults[i + 1..];
        ghost var m := Caches();
        var cond := EvalExpr(defaults[i].1, k);
        KnownGrows(cfg, m, Caches(), seen);
        seen := seen + Reads(cfg, user, defaults[i].1, k);
        if cond != 0 {
          ghost var m1 := Caches();
          var val := EvalExpr(defaults[i].0, k);
          KnownGrows(cfg, m1, Caches(), seen);
          return Min(val, cond);
        }
        i := i + 1;
      }
      v := 0;
    }

    /** Symbol.type is TRISTATE. */
    method IsTri(d: Def, ghost k: nat) returns (b: bool)
      requires Ok() && (d.tristate && cfg.modules in cfg.defs ==> Rank(cfg, cfg.modules) < k)
      modifies this`vis, this`tri, this`str
      ensures Ok() && Grown(old(Caches()), Caches()) && b == IsTristate(cfg, user, d, k)
      ensures Known(cfg, Caches(), TypeReads(cfg, d))
      decreases k, 1
    {
      if !d.tristate {
        return false;
      }
      var modules := TriSafe(cfg.modules, k);
      b := modules != 0;
    }

    /** tri_value of a symbol of lower rank. */
    method TriSafe(s: Sym, ghost k: nat) returns (v: Tri)
      requires Ok() && (s in cfg.defs ==> Rank(cfg, s) < k)
      modifies this`vis, this`tri, this`str
      ensures Ok() && Grown(old(Caches()), Caches()) && v == Look(cfg, user, s, k) && Known(cfg, Caches(), {s})
      decreases k, 0, 0
    {
      if s in cfg.defs {
        v := TriValue(s);
      } else {
        v := if s in cfg.fixed then cfg.fixed[s] else 0;
      }
    }

    /** Symbol.str_value. */
    method StrValue(s: Sym, ghost k: nat) returns (v: Tri)
      requires Ok() && (s in cfg.defs ==> Rank(cfg, s) < k)
      modifies this`vis, this`tri, this`str
      ensures Ok() && Grown(old(Caches()), Caches()) && v == Look(cfg, user, s, k) && Known(cfg, Caches(), {s})
      decreases k, 0, 1
    {
      CachedVis(cfg, user, Caches(), s);
      if s in str {
        return str[s];
      }
      v := TriSafe(s, k);
      if s in cfg.defs {
        AddStr(cfg, user, Caches(), s);
        str := str[s := v];
      }
    }

    /** Symbol.visibility. */
    method Visibility(s: Sym) returns (v: Tri)
      requires Ok() && s in cfg.defs
      modifies this`vis, this`tri, this`str
      ensures Ok() && Grown(old(Caches()), Caches()) && v == Vis(cfg, user, s) && s in vis
      decreases Rank(cfg, s), 3
    {
      CachedVis(cfg, user, Caches(), s);
      if s in vis {
        return vis[s];
      }
      var d := cfg.defs[s];
      ghost var k := Rank(cfg, s);
      DefBelow(cfg, s);
      v := PromptVis(d.prompts, k);
      if v == 1 {
        ghost var m := Caches();
        var tristate := IsTri(d, k);
        KnownGrows(cfg, m, Caches(), PromptReads(cfg, user, d.prompts, k));
        if !tristate {
          v := 2;
        }
      }
      AddVis(cfg, user, Caches(), s);
      vis := vis[s := v];
    }

    /** Symbol.assignable, computed anew. */
    method Assignables(s: Sym) returns (values: seq<Tri>)
      requires Ok() && s in cfg.defs
      modifies this`vis, this`tri, this`str
      ensures Ok() && Grown(old(Caches()), Caches()) && values == Assignable(cfg, user, s)
      decreases Rank(cfg, s), 7
    {
      var d := cfg.defs[s];
      ghost var k := Rank(cfg, s);
      DefBelow(cfg, s);
      var v := Visibility(s);
      if v == 0 {
        return [];
      }
      var rev := EvalExpr(d.rev, k);
      if rev == 2 {
        return [2];
      }
      if v == 2 {
        var plain := IsTri(d, k);
        if plain {
          var weak := EvalExpr(d.weak, k);
          plain := weak != 2;
        }
        return if rev == 0 then (if plain then [0, 1, 2] else [0, 2]) else if plain then [1, 2] else [2];
      }
      if rev != 0 {
        return [1];
      }
      var weak := EvalExpr(d.weak, k);
      return if weak != 2 then [0, 1] else [0, 2];
    }

    /** The loop over the prompts in _visibility. */
    method PromptVis(prompts: seq<Expr>, ghost k: nat) returns (v: Tri)
      requires Ok() && forall i :: 0 <= i < |prompts| ==> Below(cfg, prompts[i], k)
      modifies this`vis, this`tri, this`str
      ensures Ok() && Grown(old(Caches()), Caches()) && v == PromptMax(cfg, user, prompts, k)
      ensures Known(cfg, Caches(), PromptReads(cfg, user, prompts, k))
      decreases k, 2
    {
      v := 0;
      var i := 0;
      while i < |prompts|
        invariant i <= |prompts| && Ok() && Grown(old(Caches()), Caches())
        invariant v == PromptMax(cfg, user, prompts[..i], k) &&
                  Known(cfg, Caches(), PromptReads(cfg, user, prompts[..i], k))
      {
        assert prompts[..i + 1][..i] == prompts[..i];
        ghost var m := Caches();
        var cond := EvalExpr(prompts[i], k);
        KnownGrows(cfg, m, Caches(), PromptReads(cfg, user, prompts[..i], k));
        v := Max(v, cond);
        i := i + 1;
      }
      assert prompts[..i] == prompts;
    }

    /** expr_value. */
    method EvalExpr(e: Expr, ghost k: nat) returns (v: Tri)
      requires Ok() && Below(cfg, e, k)
      modifies this`vis, this`tri, this`str
      ensures Ok() && Grown(old(Caches()), Caches()) && v == Eval(cfg, user, e, k)
      ensures Known(cfg, Caches(), Reads(cfg, user, e, k))
      decreases k, 1, e
    {
      match e
      case Item(s) =>
        v := TriSafe(s, k);
      case And(l, r) =>
        v := EvalExpr(l, k);
        if v != 0 {
          ghost var m := Caches();
          var w := EvalExpr(r, k);
          KnownGrows(cfg, m, Caches(), Reads(cfg, user, l, k));
          v := Min(v, w);
        }
      case Or(l, r) =>
        v := EvalExpr(l, k);
        if v != 2 {
          ghost var m := Caches();
          var w := EvalExpr(r, k);
          KnownGrows(cfg, m, Caches(), Reads(cfg, user, l, k));
          v := Max(v, w);
        }
      case Not(x) =>
        v := EvalExpr(x, k);
        v := 2 - v;
      case Rel(op, a, b) =>
        var va := StrValue(a, k);
        ghost var m := Caches();
        var vb := StrValue(b, k);
        KnownGrows(cfg, m, Caches(), {a});
        v := Holds(op, cfg.compare(a, va, b, vb));
    }

    // ---------- Assignments ----------

    /** Symbol._invalidate. */
    method Invalidate(s: Sym)
      modifies this`vis, this`tri, this`str
      ensures Caches() == Drop(old(Caches()), {s})
    {
      vis, tri, str := vis - {s}, tri - {s}, str - {s};
    }

    /** Kconfig._invalidate_all. */
    method InvalidateAll() returns (ghost gone: set<Sym>)
      requires vis.Keys <= cfg.defs.Keys && cfg.modules in cfg.defs
      modifies this`vis, this`tri, this`str
      ensures Caches() == Drop(old(Caches()), gone) && gone == cfg.defs.Keys && vis == map[]
    {
      gone := {};
      var todo := cfg.defs.Keys;
      assert Drop(Caches(), {}) == Caches();
      while todo != {}
        invariant gone + todo == cfg.defs.Keys && Caches() == Drop(old(Caches()), gone)
        decreases |todo|
      {
        var s :| s in todo;
        DropTwice(old(Caches()), gone, {s});
        Invalidate(s);
        gone, todo := gone + {s}, todo - {s};
      }
    }

    /** Symbol._rec_invalidate: stops at dependents without a cached visibility. */
    method RecInvalidate(s: Sym) returns (ghost gone: set<Sym>)
      requires vis.Keys <= cfg.defs.Keys && s in cfg.defs
      modifies this`vis, this`tri, this`str
      ensures Caches() == Drop(old(Caches()), gone) && s in gone && Swept(cfg, deps, gone, Caches())
      decreases |vis|, if s in vis then 0 else 1
    {
      if s == cfg.modules {
        gone := InvalidateAll();
        return;
      }
      ghost var m0 := Caches();
      Invalidate(s);
      ghost var inner: set<Sym> := {};
      var todo := if s in deps then deps[s] else {};
      while todo != {}
        invariant Sweeping(cfg, deps, m0, s, inner, Caches())
        invariant forall d :: d in (if s in deps then deps[s] else {}) ==> d in todo || d !in vis
        decreases |todo|
      {
        var item :| item in todo;
        if item in vis {
          FewerKeys(m0.vis, {s} + inner);
          ghost var m := Caches();
          var more := RecInvalidate(item);
          SweepMore(cfg, deps, m0, s, inner, m, more);
          inner := inner + more;
        }
        todo := todo - {item};
      }
      gone := {s} + inner;
      SweptWith(cfg, deps, s, inner, Caches());
    }

    /** Symbol.set_value; a value that is invalid for the type is refused. */
    method SetValue(s: Sym, value: Tri) returns (ok: bool)
      requires Ok() && s in cfg.defs
      modifies this
      ensures Ok()
      ensures ok == (cfg.defs[s].tristate || value != 1 || (s in old(user) && old(user)[s] == 1))
      ensures user == if ok then old(user)[s := value] else old(user)
    {
      if s in user && user[s] == value {
        assert user[s := value] == user;
        return true;
      }
      if !cfg.defs[s].tristate && value == 1 {
        return false;
      }
      ghost var before := user;
      user := user[s := value];
      InvalidateIfPrompt(s, before);
      ok := true;
    }

    /** Symbol.unset_value. */
    method UnsetValue(s: Sym)
      requires Ok() && s in cfg.defs
      modifies this
      ensures Ok() && user == old(user) - {s}
    {
      if s in user {
        ghost var before := user;
        user := user - {s};
        InvalidateIfPrompt(s, before);
      } else {
        assert user - {s} == user;
      }
    }

    /** Symbol._rec_invalidate_if_has_prompt: the caches were right before the user value changed, and
        they are right again afterwards. */
    method InvalidateIfPrompt(s: Sym, ghost before: User)
      requires Acyclic(cfg) && Dependents(cfg, deps) && Valid(cfg, before, Caches()) && s in cfg.defs
      requires forall x :: x != s ==> SameAt(before, user, x)
      modifies this`vis, this`tri, this`str
      ensures Ok()
    {
      if cfg.defs[s].prompts != [] {
        ghost var m := Caches();
        CachedDefs(cfg, before, m);
        var gone := RecInvalidate(s);
        SweepKeeps(cfg, deps, before, user, m, gone);
      } else {
        PromptlessKeeps(cfg, before, user, Caches(), s);
      }
    }
  }

  lemma CachedDefs(c: Config, user: User, m: Cache)
    requires Valid(c, user, m)
    ensures m.vis.Keys <= c.defs.Keys
  {
    ValidMeans(c, user, m);
  }

  lemma FewerKeys(m: map<Sym, Tri>, gone: set<Sym>)
    ensures |m - gone| <= |m|
    ensures (exists x :: x in m && x in gone) ==> |m - gone| < |m|
  {
    var keys := (m - gone).Keys;
    assert keys == m.Keys - gone;
    assert m.Keys == keys + (m.Keys * gone);
  }

  lemma SweptWith(c: Config, deps: map<Sym, set<Sym>>, s: Sym, inner: set<Sym>, m: Cache)
    requires Swept(c, deps, inner, m) && s != c.modules && (s in deps ==> forall d :: d in deps[s] ==> d !in m.vis)
    ensures Swept(c, deps, {s} + inner, m)
  {
  }
}
