/** Symbol values and visibilities evaluated from scratch, for non-choice bool and tristate symbols
    (tools/kconfiglib.py:3585-3682, 3948-3993, 5168-5196).
  */
module KconfigSpec {
  import opened KconfigExpr

  /** What the Kconfig files say about a defined symbol: prompts are the conditions of its prompts. */
  datatype Def = Def(tristate: bool, prompts: seq<Expr>, defaults: seq<(Expr, Expr)>, rev: Expr, weak: Expr,
                     direct: Expr)

  /** Symbols without a definition are constant or undefined and keep their value.  compare orders the
      strings or numbers two symbols stand for when they have the given tristate values. */
  datatype Config = Config(defs: map<Sym, Def>, fixed: map<Sym, Tri>, rank: map<Sym, nat>, modules: Sym,
                           constants: set<Sym>, compare: (Sym, Tri, Sym, Tri) -> int)

  type User = map<Sym, Tri>

  function Rank(c: Config, s: Sym): nat {
    if s in c.rank then c.rank[s] else 0
  }

  function DefItems(d: Def): set<Sym> {
    ListItems(d.prompts) + DefaultItems(d.defaults) + Items(d.rev) + Items(d.weak) + Items(d.direct)
  }

  function ListItems(es: seq<Expr>): set<Sym> {
    if es == [] then {} else ListItems(es[..|es| - 1]) + Items(es[|es| - 1])
  }

  function DefaultItems(defaults: seq<(Expr, Expr)>): set<Sym> {
    if defaults == [] then {} else Items(defaults[0].0) + Items(defaults[0].1) + DefaultItems(defaults[1..])
  }

  /** Symbols depend on symbols of lower rank only; the type of a tristate symbol depends on MODULES. */
  ghost predicate Acyclic(c: Config) {
    forall s {:trigger c.defs[s]} :: s in c.defs ==> DefAcyclic(c, s, c.defs[s])
  }

  ghost predicate DefAcyclic(c: Config, s: Sym, d: Def) {
    && s !in c.constants
    && (forall x :: x in DefItems(d) && x in c.defs ==> Rank(c, x) < Rank(c, s))
    && (d.tristate && c.modules in c.defs ==> Rank(c, c.modules) < Rank(c, s))
  }

  // ---------- Values ----------

  /** A symbol's value, seen from a symbol of rank k. */
  function Look(c: Config, user: User, x: Sym, k: nat): Tri
    decreases k, 0
  {
    if x !in c.defs then (if x in c.fixed then c.fixed[x] else 0)
    else if Rank(c, x) < k then Value(c, user, x)
    else 0
  }

  /** expr_value. */
  function Eval(c: Config, user: User, e: Expr, k: nat): Tri
    decreases k, 1, e
  {
    match e
    case Item(s) => Look(c, user, s, k)
    case And(l, r) => Min(Eval(c, user, l, k), Eval(c, user, r, k))
    case Or(l, r) => Max(Eval(c, user, l, k), Eval(c, user, r, k))
    case Not(x) => 2 - Eval(c, user, x, k)
    case Rel(op, a, b) => Holds(op, c.compare(a, Look(c, user, a, k), b, Look(c, user, b, k)))
  }

  function PromptMax(c: Config, user: User, prompts: seq<Expr>, k: nat): Tri
    decreases k, 2, |prompts|
  {
    if prompts == [] then 0
    else Max(PromptMax(c, user, prompts[..|prompts| - 1], k), Eval(c, user, prompts[|prompts| - 1], k))
  }

  /** Symbol.type is TRISTATE. */
  function IsTristate(c: Config, user: User, d: Def, k: nat): bool
    decreases k, 2, 0
  {
    d.tristate && Look(c, user, c.modules, k) != 0
  }

  /** Symbol.visibility. */
  function Vis(c: Config, user: User, s: Sym): Tri
    requires s in c.defs
    decreases Rank(c, s), 3
  {
    var d, k := c.defs[s], Rank(c, s);
    var vis := PromptMax(c, user, d.prompts, k);
    if vis == 1 && !IsTristate(c, user, d, k) then 2 else vis
  }

  /** The first default whose condition is not n. */
  function Default(c: Config, user: User, defaults: seq<(Expr, Expr)>, k: nat): Tri
    decreases k, 2, |defaults|
  {
    if defaults == [] then 0
    else
      var cond := Eval(c, user, defaults[0].1, k);
      if cond != 0 then Min(Eval(c, user, defaults[0].0, k), cond) else Default(c, user, defaults[1..], k)
  }

  /** Defaults and implies, when no user value applies. */
  function Unset(c: Config, user: User, d: Def, k: nat): Tri
    decreases k, 3
  {
    var val, weak := Default(c, user, d.defaults, k), Eval(c, user, d.weak, k);
    if weak != 0 && Eval(c, user, d.direct, k) != 0 then Max(weak, val) else val
  }

  /** The value before m is promoted to y. */
  function Base(c: Config, user: User, s: Sym): Tri
    requires s in c.defs
    decreases Rank(c, s), 4
  {
    var d, k, vis := c.defs[s], Rank(c, s), Vis(c, user, s);
    var val := if vis != 0 && s in user then Min(user[s], vis) else Unset(c, user, d, k);
    var rev := Eval(c, user, d.rev, k);
    if rev != 0 then Max(rev, val) else val
  }

  /** Symbol.tri_value. */
  function Value(c: Config, user: User, s: Sym): Tri
    requires s in c.defs
    decreases Rank(c, s), 5
  {
    var d, k, val := c.defs[s], Rank(c, s), Base(c, user, s);
    if val == 1 && (!IsTristate(c, user, d, k) || Eval(c, user, d.weak, k) == 2) then 2 else val
  }

  /** Symbol._assignable. */
  function Assignable(c: Config, user: User, s: Sym): seq<Tri>
    requires s in c.defs
  {
    var d, k, vis := c.defs[s], Rank(c, s), Vis(c, user, s);
    if vis == 0 then []
    else
      var rev, weak, tristate := Eval(c, user, d.rev, k), Eval(c, user, d.weak, k), IsTristate(c, user, d, k);
      if vis == 2 then
        if rev == 0 then (if !tristate || weak == 2 then [0, 2] else [0, 1, 2])
        else if rev == 2 then [2]
        else if !tristate || weak == 2 then [2] else [1, 2]
      else if rev == 0 then (if weak != 2 then [0, 1] else [0, 2])
      else if rev == 2 then [2]
      else [1]
  }

  // ---------- What an evaluation reads ----------

  /** The symbols expr_value looks at, with its short cuts. */
  function Reads(c: Config, user: User, e: Expr, k: nat): set<Sym> {
    match e
    case Item(s) => {s}
    case And(l, r) => Reads(c, user, l, k) + (if Eval(c, user, l, k) == 0 then {} else Reads(c, user, r, k))
    case Or(l, r) => Reads(c, user, l, k) + (if Eval(c, user, l, k) == 2 then {} else Reads(c, user, r, k))
    case Not(x) => Reads(c, user, x, k)
    case Rel(_, a, b) => {a, b}
  }

  function PromptReads(c: Config, user: User, prompts: seq<Expr>, k: nat): set<Sym> {
    if prompts == [] then {}
    else PromptReads(c, user, prompts[..|prompts| - 1], k) + Reads(c, user, prompts[|prompts| - 1], k)
  }

  function TypeReads(c: Config, d: Def): set<Sym> {
    if d.tristate then {c.modules} else {}
  }

  function VisReads(c: Config, user: User, s: Sym): set<Sym>
    requires s in c.defs
  {
    var d, k := c.defs[s], Rank(c, s);
    PromptReads(c, user, d.prompts, k) + (if PromptMax(c, user, d.prompts, k) == 1 then TypeReads(c, d) else {})
  }

  function DefaultReads(c: Config, user: User, defaults: seq<(Expr, Expr)>, k: nat): set<Sym> {
    if defaults == [] then {}
    else Reads(c, user, defaults[0].1, k) +
         (if Eval(c, user, defaults[0].1, k) != 0 then Reads(c, user, defaults[0].0, k)
          else DefaultReads(c, user, defaults[1..], k))
  }

  function UnsetReads(c: Config, user: User, d: Def, k: nat): set<Sym> {
    DefaultReads(c, user, d.defaults, k) + Reads(c, user, d.weak, k) +
    (if Eval(c, user, d.weak, k) != 0 then Reads(c, user, d.direct, k) else {})
  }

  function BaseReads(c: Config, user: User, s: Sym): set<Sym>
    requires s in c.defs
  {
    var d, k := c.defs[s], Rank(c, s);
    (if Vis(c, user, s) != 0 && s in user then {} else UnsetReads(c, user, d, k)) + Reads(c, user, d.rev, k)
  }

  /** What Symbol.tri_value reads besides the symbol's own visibility. */
  function TriReads(c: Config, user: User, s: Sym): set<Sym>
    requires s in c.defs
  {
    var d, k := c.defs[s], Rank(c, s);
    BaseReads(c, user, s) +
    (if Base(c, user, s) != 1 then {}
     else TypeReads(c, d) + (if IsTristate(c, user, d, k) then Reads(c, user, d.weak, k) else {}))
  }

  // ---------- The caches ----------

  datatype Cache = Cache(vis: map<Sym, Tri>, tri: map<Sym, Tri>, str: map<Sym, Tri>)

  /** Every cached value is the value from scratch, and a symbol with a cached value has a cached
      visibility. */
  ghost predicate Right(c: Config, user: User, m: Cache) {
    && (forall s {:trigger s in m.vis} :: s in m.vis ==> s in c.defs && m.vis[s] == Vis(c, user, s))
    && (forall s {:trigger s in m.tri} :: s in m.tri ==> s in m.vis && m.tri[s] == Value(c, user, s))
    && (forall s {:trigger s in m.str} :: s in m.str ==> s in m.tri && m.str[s] == Value(c, user, s))
  }

  /** Every defined symbol that was read for a cached result has a cached value itself. */
  ghost predicate Complete(c: Config, user: User, m: Cache) {
    && (forall s {:trigger VisReads(c, user, s)} :: s in m.vis && s in c.defs ==> Known(c, m, VisReads(c, user, s)))
    && (forall s {:trigger TriReads(c, user, s)} :: s in m.tri && s in c.defs ==> Known(c, m, TriReads(c, user, s)))
  }

  ghost predicate CacheIs(c: Config, user: User, m: Cache) {
    Right(c, user, m) && Complete(c, user, m)
  }

  ghost predicate Known(c: Config, m: Cache, seen: set<Sym>) {
    forall x :: x in seen && x in c.defs ==> x in m.tri
  }

  /** CacheIs, which proofs unfold only where they ask for it. */
  ghost predicate Valid(c: Config, user: User, m: Cache) {
    forall u {:trigger Unfolded(m, u)} :: Unfolded(m, u) ==> CacheIs(c, user, m)
  }

  predicate Unfolded(m: Cache, u: bool) {
    true
  }

  lemma ValidMeans(c: Config, user: User, m: Cache)
    ensures Valid(c, user, m) <==> CacheIs(c, user, m)
  {
    assert Unfolded(m, true);
  }
}
