/** Which user values a symbol can be given: Symbol.assignable against the value the symbol has after the
    assignment.
  */
module KconfigAssign {
  import opened KconfigExpr
  import opened KconfigSpec
  import opened KconfigProofs

  /** Only the user value of s differs. */
  ghost predicate DifferAt(user: User, user': User, s: Sym) {
    forall x {:trigger SameAt(user, user', x)} :: x != s ==> SameAt(user, user', x)
  }

  /** Symbols of lower rank do not see the user value of s. */
  lemma {:induction false} LowerSame(c: Config, user: User, user': User, s: Sym, x: Sym)
    requires DifferAt(user, user', s) && x in c.defs && Rank(c, x) < Rank(c, s)
    ensures Value(c, user', x) == Value(c, user, x)
    decreases Rank(c, x)
  {
    forall y | y in c.defs && Rank(c, y) < Rank(c, x) ensures Value(c, user, y) == Value(c, user', y) {
      LowerSame(c, user, user', s, y);
    }
    SameVis(c, user, user', x);
    assert SameAt(user, user', x);
    SameTri(c, user, user', x);
  }

  /** Neither do the visibility, the type and the reverse dependencies of s itself. */
  lemma OwnSame(c: Config, user: User, user': User, s: Sym)
    requires DifferAt(user, user', s) && s in c.defs
    ensures var d, k := c.defs[s], Rank(c, s);
            && Vis(c, user', s) == Vis(c, user, s) && IsTristate(c, user', d, k) == IsTristate(c, user, d, k)
            && Eval(c, user', d.rev, k) == Eval(c, user, d.rev, k)
            && Eval(c, user', d.weak, k) == Eval(c, user, d.weak, k)
  {
    var d, k := c.defs[s], Rank(c, s);
    forall y | y in c.defs && Rank(c, y) < k ensures Value(c, user, y) == Value(c, user', y) {
      LowerSame(c, user, user', s, y);
    }
    SameVis(c, user, user', s);
    SameType(c, user, user', d, k);
    SameEval(c, user, user', d.rev, k);
    SameEval(c, user, user', d.weak, k);
  }

  /** The value of s after v has been assigned to it. */
  function Assigned(c: Config, user: User, s: Sym, v: Tri): Tri
    requires s in c.defs
  {
    Value(c, user[s := v], s)
  }

  /** An assignment of v takes effect: the symbol is visible and has the value v then. */
  predicate Respected(c: Config, user: User, s: Sym, v: Tri)
    requires s in c.defs
  {
    Vis(c, user, s) != 0 && Assigned(c, user, s, v) == v
  }

  /** Selected to m where only m is visible, and implied to y. */
  predicate Contested(c: Config, user: User, s: Sym)
    requires s in c.defs
  {
    var d, k := c.defs[s], Rank(c, s);
    Vis(c, user, s) == 1 && Eval(c, user, d.rev, k) == 1 && Eval(c, user, d.weak, k) == 2
  }

  /** The value after an assignment, from what the assignment does not change. */
  lemma AssignedValue(c: Config, user: User, s: Sym, v: Tri)
    requires s in c.defs && Vis(c, user, s) != 0
    ensures var d, k := c.defs[s], Rank(c, s);
            var val := Max(Eval(c, user, d.rev, k), Min(v, Vis(c, user, s)));
            Assigned(c, user, s, v) ==
              if val == 1 && (!IsTristate(c, user, d, k) || Eval(c, user, d.weak, k) == 2) then 2 else val
    ensures Vis(c, user, s) == 1 ==> IsTristate(c, user, c.defs[s], Rank(c, s))
  {
    OwnSame(c, user, user[s := v], s);
    if !IsTristate(c, user, c.defs[s], Rank(c, s)) {
      NeverModule(c, user, s);
    }
    var user' := user[s := v];
    assert Base(c, user', s) == Max(Eval(c, user, c.defs[s].rev, Rank(c, s)), Min(v, Vis(c, user, s)));
    assert Assigned(c, user, s, v) == Value(c, user', s);
  }

  lemma RespectedIs(c: Config, user: User, s: Sym, v: Tri)
    requires s in c.defs && !Contested(c, user, s)
    ensures v in Assignable(c, user, s) <==> Respected(c, user, s, v)
  {
    if Vis(c, user, s) != 0 {
      AssignedValue(c, user, s, v);
    }
  }

  /** In a contested symbol every assignment ends in y, and assignable says m. */
  lemma ContestedIs(c: Config, user: User, s: Sym, v: Tri)
    requires s in c.defs && Contested(c, user, s)
    ensures Assignable(c, user, s) == [1] && Assigned(c, user, s, v) == 2
  {
    AssignedValue(c, user, s, v);
  }

  /** assignable lists exactly the values that an assignment would give the symbol, unless the symbol is
      selected to m, visible as m and implied to y. */
  lemma AssignableIs(c: Config, user: User, s: Sym)
    requires s in c.defs
    ensures (forall v: Tri :: v in Assignable(c, user, s) <==> Respected(c, user, s, v)) <==> !Contested(c, user, s)
  {
    if Contested(c, user, s) {
      ContestedIs(c, user, s, 2);
      assert Respected(c, user, s, 2);
    } else {
      forall v: Tri ensures v in Assignable(c, user, s) <==> Respected(c, user, s, v) {
        RespectedIs(c, user, s, v);
      }
    }
  }

  /** A visible symbol has one assignable value exactly when it is locked: all assignments give it one value. */
  lemma LockedIs(c: Config, user: User, s: Sym)
    requires s in c.defs && Vis(c, user, s) != 0
    ensures |Assignable(c, user, s)| == 1 <==>
              forall v: Tri, w: Tri :: Assigned(c, user, s, v) == Assigned(c, user, s, w)
  {
    if |Assignable(c, user, s)| == 1 {
      forall v: Tri, w: Tri ensures Assigned(c, user, s, v) == Assigned(c, user, s, w) {
        LockedTo(c, user, s, v);
        LockedTo(c, user, s, w);
      }
    } else {
      AssignedValue(c, user, s, 0);
      AssignedValue(c, user, s, 2);
      assert Assigned(c, user, s, 0) != Assigned(c, user, s, 2);
    }
  }

  /** The value a locked symbol has after every assignment. */
  lemma LockedTo(c: Config, user: User, s: Sym, v: Tri)
    requires s in c.defs && Vis(c, user, s) != 0 && |Assignable(c, user, s)| == 1
    ensures Assigned(c, user, s, v) == if Contested(c, user, s) then 2 else Assignable(c, user, s)[0]
  {
    if Eval(c, user, c.defs[s].rev, Rank(c, s)) == 2 {
      OwnSame(c, user, user[s := v], s);
      SelectWins(c, user[s := v], s);
    } else {
      AssignedValue(c, user, s, v);
    }
  }

  /** A tristate with the prompt condition m that is selected with m and implied with y: 0 is the symbol,
      1 is m, 2 is y and MODULES. */
  lemma ContestedCase()
    ensures var d := Def(true, [Item(1)], [], Item(1), Item(2), Item(2));
            var c := Config(map[0 := d], map[1 := 1, 2 := 2], map[0 := 1], 2, {1, 2}, (a, x, b, y) => 0);
            && Acyclic(c) && Contested(c, map[], 0)
            && Assignable(c, map[], 0) == [1] && Value(c, map[0 := 1], 0) == 2
  {
    var d := Def(true, [Item(1)], [], Item(1), Item(2), Item(2));
    var c := Config(map[0 := d], map[1 := 1, 2 := 2], map[0 := 1], 2, {1, 2}, (a, x, b, y) => 0);
    assert d.prompts[..0] == [];
    assert PromptMax(c, map[], d.prompts, 1) == Max(PromptMax(c, map[], [], 1), Eval(c, map[], Item(1), 1));
    assert Look(c, map[], 1, 1) == 1 && Look(c, map[], 2, 1) == 2;
    assert Eval(c, map[], d.rev, 1) == 1 && Eval(c, map[], d.weak, 1) == 2;
    assert Contested(c, map[], 0);
    ContestedIs(c, map[], 0, 1);
  }
}
