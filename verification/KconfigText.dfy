/** Printing and parsing expressions, and building conjunctions and disjunctions
    (tools/kconfiglib.py:2240-2266, 2737-2821, 5057-5100, 5262-5267).
  */
module KconfigText {
  import opened Options
  import opened KconfigExpr
  import KconfigSpec

  /** The end of the line is the end of the sequence. */
  datatype Token = Name(s: Sym) | AndSign | OrSign | NotSign | OpenParen | CloseParen | Relation(op: Op)

  /** The symbols the parser and the builders treat specially: n, m, y and MODULES. */
  datatype Special = Special(n: Sym, m: Sym, y: Sym, modules: Sym)

  // ---------- Values ----------

  /** An assignment of values to all symbols, and the order of the strings and numbers they stand for. */
  datatype Assignment = Assignment(value: Sym -> Tri, compare: (Sym, Tri, Sym, Tri) -> int)

  function ValueOf(e: Expr, a: Assignment): Tri {
    match e
    case Item(s) => a.value(s)
    case And(l, r) => Min(ValueOf(l, a), ValueOf(r, a))
    case Or(l, r) => Max(ValueOf(l, a), ValueOf(r, a))
    case Not(x) => 2 - ValueOf(x, a)
    case Rel(op, x, y) => Holds(op, a.compare(x, a.value(x), y, a.value(y)))
  }

  /** The evaluator's values are values under the assignment that looks symbols up. */
  lemma {:induction false} EvalIsValue(c: KconfigSpec.Config, user: KconfigSpec.User, e: Expr, k: nat, a: Assignment)
    requires a.compare == c.compare && forall x :: a.value(x) == KconfigSpec.Look(c, user, x, k)
    ensures KconfigSpec.Eval(c, user, e, k) == ValueOf(e, a)
  {
    match e
    case Item(s) =>
    case And(l, r) => EvalIsValue(c, user, l, k, a); EvalIsValue(c, user, r, k, a);
    case Or(l, r) => EvalIsValue(c, user, l, k, a); EvalIsValue(c, user, r, k, a);
    case Not(x) => EvalIsValue(c, user, x, k, a);
    case Rel(_, x, y) =>
  }

  // ---------- _make_and and _make_or ----------

  function MakeAnd(e1: Expr, e2: Expr, sp: Special): Expr {
    if e1 == Item(sp.y) then e2
    else if e2 == Item(sp.y) then e1
    else if e1 == Item(sp.n) || e2 == Item(sp.n) then Item(sp.n)
    else And(e1, e2)
  }

  function MakeOr(e1: Expr, e2: Expr, sp: Special): Expr {
    if e1 == Item(sp.n) then e2
    else if e2 == Item(sp.n) then e1
    else if e1 == Item(sp.y) || e2 == Item(sp.y) then Item(sp.y)
    else Or(e1, e2)
  }

  /** Simplification preserves the value whenever n and y have their values. */
  lemma MakeAndKeepsValue(e1: Expr, e2: Expr, sp: Special, a: Assignment)
    requires a.value(sp.n) == 0 && a.value(sp.y) == 2
    ensures ValueOf(MakeAnd(e1, e2, sp), a) == Min(ValueOf(e1, a), ValueOf(e2, a))
  {
    if e1 != Item(sp.y) && e2 != Item(sp.y) && (e1 == Item(sp.n) || e2 == Item(sp.n)) {
      assert ValueOf(Item(sp.n), a) == 0;
    } else {
      assert ValueOf(Item(sp.y), a) == 2;
    }
  }

  lemma MakeOrKeepsValue(e1: Expr, e2: Expr, sp: Special, a: Assignment)
    requires a.value(sp.n) == 0 && a.value(sp.y) == 2
    ensures ValueOf(MakeOr(e1, e2, sp), a) == Max(ValueOf(e1, a), ValueOf(e2, a))
  {
    if e1 != Item(sp.n) && e2 != Item(sp.n) && (e1 == Item(sp.y) || e2 == Item(sp.y)) {
      assert ValueOf(Item(sp.y), a) == 2;
    } else {
      assert ValueOf(Item(sp.n), a) == 0;
    }
  }

  // ---------- Printing ----------

  function Parens(ts: seq<Token>): seq<Token> {
    [OpenParen] + ts + [CloseParen]
  }

  /** expr_str. */
  function Str(e: Expr): seq<Token>
    decreases e, 0
  {
    match e
    case Item(s) => [Name(s)]
    case And(l, r) => UnderAnd(l) + [AndSign] + UnderAnd(r)
    case Or(l, r) => UnderOr(l) + [OrSign] + UnderOr(r)
    case Not(x) => if x.Item? then [NotSign, Name(x.s)] else [NotSign] + Parens(Str(x))
    case Rel(op, x, y) => [Name(x), Relation(op), Name(y)]
  }

  /** _parenthesize with OR and with AND. */
  function UnderAnd(e: Expr): seq<Token>
    decreases e, 1
  {
    if e.Or? then Parens(Str(e)) else Str(e)
  }

  function UnderOr(e: Expr): seq<Token>
    decreases e, 1
  {
    if e.And? then Parens(Str(e)) else Str(e)
  }

  // ---------- Parsing ----------

  /** transform says that m is to be rewritten to m && MODULES. */
  datatype Mode = Mode(transform: bool, sp: Special)

  type Parsed = Option<(Expr, seq<Token>)>

  function Symbol(s: Sym, mode: Mode): Expr {
    if mode.transform && s == mode.sp.m then And(Item(mode.sp.m), Item(mode.sp.modules)) else Item(s)
  }

  /** expr: and_expr ['||' expr] */
  function ParseExpr(ts: seq<Token>, mode: Mode): (p: Parsed)
    ensures p.Some? ==> |p.value.1| < |ts|
    decreases |ts|, 2
  {
    match ParseAnd(ts, mode)
    case None => None
    case Some((e, rest)) =>
      if rest != [] && rest[0] == OrSign then
        match ParseExpr(rest[1..], mode)
        case None => None
        case Some((f, more)) => Some((Or(e, f), more))
      else Some((e, rest))
  }

  /** and_expr: factor ['&&' and_expr] */
  function ParseAnd(ts: seq<Token>, mode: Mode): (p: Parsed)
    ensures p.Some? ==> |p.value.1| < |ts|
    decreases |ts|, 1
  {
    match ParseFactor(ts, mode)
    case None => None
    case Some((e, rest)) =>
      if rest != [] && rest[0] == AndSign then
        match ParseAnd(rest[1..], mode)
        case None => None
        case Some((f, more)) => Some((And(e, f), more))
      else Some((e, rest))
  }

  /** factor: <symbol> [<relation> <symbol>] | '!' factor | '(' expr ')' */
  function ParseFactor(ts: seq<Token>, mode: Mode): (p: Parsed)
    ensures p.Some? ==> |p.value.1| < |ts|
    decreases |ts|, 0
  {
    if ts == [] then None
    else match ts[0]
      case Name(s) =>
        if |ts| > 1 && ts[1].Relation? then
          if |ts| > 2 && ts[2].Name? then Some((Rel(ts[1].op, s, ts[2].s), ts[3..])) else None
        else Some((Symbol(s, mode), ts[1..]))
      case NotSign =>
        (match ParseFactor(ts[1..], mode)
         case None => None
         case Some((e, rest)) => Some((Not(e), rest)))
      case OpenParen =>
        (match ParseExpr(ts[1..], mode)
         case None => None
         case Some((e, rest)) => if rest != [] && rest[0] == CloseParen then Some((e, rest[1..])) else None)
      case AndSign => None
      case OrSign => None
      case CloseParen => None
      case Relation(_) => None
  }

  /** The rewriting of m that the parser does outside relations. */
  function Rewritten(e: Expr, mode: Mode): Expr {
    match e
    case Item(s) => Symbol(s, mode)
    case And(l, r) => And(Rewritten(l, mode), Rewritten(r, mode))
    case Or(l, r) => Or(Rewritten(l, mode), Rewritten(r, mode))
    case Not(x) => Not(Rewritten(x, mode))
    case Rel(_, _, _) => e
  }

  // ---------- The round trip ----------

  /** The tokens do not continue an expression. */
  predicate Ends(rest: seq<Token>) {
    rest == [] || (rest[0] != AndSign && rest[0] != OrSign && !rest[0].Relation?)
  }

  /** The result is an expression with this value, and rest is left. */
  predicate Gives(p: Parsed, v: Tri, a: Assignment, rest: seq<Token>) {
    p.Some? && ValueOf(p.value.0, a) == v && p.value.1 == rest
  }

  function Val(e: Expr, mode: Mode, a: Assignment): Tri {
    ValueOf(Rewritten(e, mode), a)
  }

  /** Printed expression, followed by tokens that do not continue it. */
  lemma {:induction false} ParsesStr(e: Expr, mode: Mode, a: Assignment, rest: seq<Token>)
    requires Ends(rest)
    ensures Gives(ParseExpr(Str(e) + rest, mode), Val(e, mode, a), a, rest)
    decreases e, 4
  {
    if e.Or? {
      LastOr(e.right, mode, a, rest);
      BeforeOr(e.left, mode, a, UnderOr(e.right) + rest, Val(e.right, mode, a), rest);
      assert Str(e) + rest == UnderOr(e.left) + ([OrSign] + (UnderOr(e.right) + rest));
    } else {
      ParsesAnd(e, mode, a, rest);
    }
  }

  /** An expression that is not a disjunction, read by the parser of conjunctions. */
  lemma {:induction false} ParsesAnd(e: Expr, mode: Mode, a: Assignment, rest: seq<Token>)
    requires !e.Or? && (rest == [] || (rest[0] != AndSign && !rest[0].Relation?))
    ensures Gives(ParseAnd(Str(e) + rest, mode), Val(e, mode, a), a, rest)
    decreases e, 3
  {
    if e.And? {
      if e.right.Or? {
        ParsesParens(e.right, mode, a, rest);
      } else {
        ParsesAnd(e.right, mode, a, rest);
      }
      BeforeAnd(e.left, mode, a, UnderAnd(e.right) + rest, Val(e.right, mode, a), rest);
      assert Str(e) + rest == UnderAnd(e.left) + ([AndSign] + (UnderAnd(e.right) + rest));
    } else {
      ParsesAtom(e, mode, a, rest);
    }
  }

  /** A symbol, negation or relation. */
  lemma {:induction false} ParsesAtom(e: Expr, mode: Mode, a: Assignment, rest: seq<Token>)
    requires !e.Or? && !e.And? && (rest == [] || !rest[0].Relation?)
    ensures Gives(ParseFactor(Str(e) + rest, mode), Val(e, mode, a), a, rest)
    decreases e, 2
  {
    match e
    case Item(s) =>
      assert (Str(e) + rest)[1..] == rest;
    case Rel(op, x, y) =>
      assert (Str(e) + rest)[3..] == rest;
    case Not(x) =>
      if x.Item? {
        assert (Str(e) + rest)[1..] == Str(x) + rest;
        ParsesAtom(x, mode, a, rest);
      } else {
        assert (Str(e) + rest)[1..] == Parens(Str(x)) + rest;
        ParsesParens(x, mode, a, rest);
      }
  }

  /** A parenthesised expression is one factor, whatever follows. */
  lemma {:induction false} ParsesParens(e: Expr, mode: Mode, a: Assignment, rest: seq<Token>)
    ensures Gives(ParseFactor(Parens(Str(e)) + rest, mode), Val(e, mode, a), a, rest)
    decreases e, 5
  {
    var ts := Parens(Str(e)) + rest;
    assert ts[1..] == Str(e) + ([CloseParen] + rest);
    ParsesStr(e, mode, a, [CloseParen] + rest);
    assert ([CloseParen] + rest)[1..] == rest;
  }

  /** The last operand of a disjunction. */
  lemma {:induction false} LastOr(e: Expr, mode: Mode, a: Assignment, rest: seq<Token>)
    requires Ends(rest)
    ensures Gives(ParseExpr(UnderOr(e) + rest, mode), Val(e, mode, a), a, rest)
    decreases e, 6
  {
    if e.And? {
      ParsesParens(e, mode, a, rest);
    } else {
      ParsesStr(e, mode, a, rest);
    }
  }

  /** An operand in front of ||: printing a disjunction as operand re-associates it. */
  lemma {:induction false} BeforeOr(e: Expr, mode: Mode, a: Assignment, tail: seq<Token>, v: Tri, rest: seq<Token>)
    requires Gives(ParseExpr(tail, mode), v, a, rest)
    ensures Gives(ParseExpr(UnderOr(e) + ([OrSign] + tail), mode), Max(Val(e, mode, a), v), a, rest)
    decreases e, 7
  {
    var after := [OrSign] + tail;
    assert after[1..] == tail;
    if e.Or? {
      var tail' := UnderOr(e.right) + after;
      BeforeOr(e.right, mode, a, tail, v, rest);
      BeforeOr(e.left, mode, a, tail', Max(Val(e.right, mode, a), v), rest);
      assert UnderOr(e) + after == UnderOr(e.left) + ([OrSign] + tail');
    } else if e.And? {
      ParsesParens(e, mode, a, after);
    } else {
      ParsesAnd(e, mode, a, after);
    }
  }

  lemma {:induction false} BeforeAnd(e: Expr, mode: Mode, a: Assignment, tail: seq<Token>, v: Tri, rest: seq<Token>)
    requires Gives(ParseAnd(tail, mode), v, a, rest)
    ensures Gives(ParseAnd(UnderAnd(e) + ([AndSign] + tail), mode), Min(Val(e, mode, a), v), a, rest)
    decreases e, 7
  {
    var after := [AndSign] + tail;
    assert after[1..] == tail;
    if e.And? {
      var tail' := UnderAnd(e.right) + after;
      BeforeAnd(e.right, mode, a, tail, v, rest);
      BeforeAnd(e.left, mode, a, tail', Min(Val(e.right, mode, a), v), rest);
      assert UnderAnd(e) + after == UnderAnd(e.left) + ([AndSign] + tail');
    } else if e.Or? {
      ParsesParens(e, mode, a, after);
    } else {
      ParsesAtom(e, mode, a, after);
    }
  }

  lemma {:induction false} NotRewritten(e: Expr, mode: Mode)
    requires !mode.transform
    ensures Rewritten(e, mode) == e
  {
    match e
    case Item(s) =>
    case And(l, r) => NotRewritten(l, mode); NotRewritten(r, mode);
    case Or(l, r) => NotRewritten(l, mode); NotRewritten(r, mode);
    case Not(x) => NotRewritten(x, mode);
    case Rel(_, _, _) =>
  }

  /** Printing an expression and parsing the tokens back, without the m rewrite, consumes all tokens and
      gives an expression with the same value under every assignment. */
  lemma RoundTrip(e: Expr, mode: Mode, a: Assignment)
    requires !mode.transform
    ensures var p := ParseExpr(Str(e), mode);
            p.Some? && p.value.1 == [] && ValueOf(p.value.0, a) == ValueOf(e, a)
  {
    ParsesStr(e, mode, a, []);
    assert Str(e) + [] == Str(e);
    NotRewritten(e, mode);
  }

  /** With the rewrite the result has the value of the rewritten expression. */
  lemma RoundTripRewrites(e: Expr, mode: Mode, a: Assignment)
    ensures var p := ParseExpr(Str(e), mode);
            p.Some? && p.value.1 == [] && ValueOf(p.value.0, a) == ValueOf(Rewritten(e, mode), a)
  {
    ParsesStr(e, mode, a, []);
    assert Str(e) + [] == Str(e);
  }

  /** The tree itself need not come back. */
  lemma Reassociates(x: Sym, y: Sym, z: Sym, mode: Mode)
    requires !mode.transform
    ensures ParseExpr(Str(Or(Or(Item(x), Item(y)), Item(z))), mode) == Some((Or(Item(x), Or(Item(y), Item(z))), []))
  {
    var last := [Name(z)];
    assert last[1..] == [];
    assert ParseFactor(last, mode) == Some((Item(z), []));
    assert ParseExpr(last, mode) == Some((Item(z), []));
    OneMore(y, Item(z), last, mode);
    OneMore(x, Or(Item(y), Item(z)), [Name(y), OrSign] + last, mode);
    StrPair(Item(x), Item(y));
    StrPair(Or(Item(x), Item(y)), Item(z));
    StrItem(x);
    StrItem(y);
    StrItem(z);
    assert [Name(x)] + [OrSign] + [Name(y)] + [OrSign] + last == [Name(x), OrSign] + ([Name(y), OrSign] + last);
  }

  lemma StrItem(s: Sym)
    ensures Str(Item(s)) == [Name(s)]
  {
  }

  lemma StrPair(l: Expr, r: Expr)
    requires !l.And? && !r.And?
    ensures Str(Or(l, r)) == Str(l) + [OrSign] + Str(r)
  {
  }

  lemma OneMore(x: Sym, e: Expr, tail: seq<Token>, mode: Mode)
    requires !mode.transform && ParseExpr(tail, mode) == Some((e, []))
    ensures ParseExpr([Name(x), OrSign] + tail, mode) == Some((Or(Item(x), e), []))
  {
    var ts := [Name(x), OrSign] + tail;
    assert ts[1..] == [OrSign] + tail && ([OrSign] + tail)[1..] == tail;
    assert ParseFactor(ts, mode) == Some((Item(x), ts[1..]));
    assert ParseAnd(ts, mode) == Some((Item(x), ts[1..]));
  }

  // ---------- The parser with its token index ----------

  class Parser {
    const tokens: seq<Token>
    const mode: Mode
    var i: nat

    ghost function Rest(): seq<Token>
      requires i <= |tokens|
      reads this
    {
      tokens[i..]
    }

    constructor (tokens: seq<Token>, mode: Mode)
      ensures this.tokens == tokens && this.mode == mode && i == 0
    {
      this.tokens, this.mode, i := tokens, mode, 0;
    }

    /** _check_token. */
    method CheckToken(t: Token) returns (found: bool)
      requires i <= |tokens|
      modifies this`i
      ensures i <= |tokens| && found == (old(Rest()) != [] && old(Rest())[0] == t)
      ensures i == if found then old(i) + 1 else old(i)
    {
      found := i < |tokens| && tokens[i] == t;
      if found {
        i := i + 1;
      }
    }

    /** _parse_expr; None is the parse error. */
    method Expr() returns (r: Option<Expr>)
      requires i <= |tokens|
      modifies this`i
      ensures i <= |tokens| && (r == None <==> ParseExpr(old(Rest()), mode) == None)
      ensures r.Some? ==> i > old(i) && ParseExpr(old(Rest()), mode) == Some((r.value, Rest()))
      decreases |tokens| - i, 2
    {
      r := AndExpr();
      if r == None {
        return;
      }
      var e := r.value;
      var found := CheckToken(OrSign);
      if found {
        r := Expr();
        if r.Some? {
          r := Some(Or(e, r.value));
        }
      }
    }

    /** _parse_and_expr. */
    method AndExpr() returns (r: Option<Expr>)
      requires i <= |tokens|
      modifies this`i
      ensures i <= |tokens| && (r == None <==> ParseAnd(old(Rest()), mode) == None)
      ensures r.Some? ==> i > old(i) && ParseAnd(old(Rest()), mode) == Some((r.value, Rest()))
      decreases |tokens| - i, 1
    {
      r := Factor();
      if r == None {
        return;
      }
      var e := r.value;
      var found := CheckToken(AndSign);
      if found {
        r := AndExpr();
        if r.Some? {
          r := Some(And(e, r.value));
        }
      }
    }

    /** _parse_factor. */
    method Factor() returns (r: Option<Expr>)
      requires i <= |tokens|
      modifies this`i
      ensures i <= |tokens| && (r == None <==> ParseFactor(old(Rest()), mode) == None)
      ensures r.Some? ==> i > old(i) && ParseFactor(old(Rest()), mode) == Some((r.value, Rest()))
      decreases |tokens| - i, 0
    {
      if i == |tokens| {
        return None;
      }
      var token := tokens[i];
      i := i + 1;
      match token
      case Name(s) =>
        if i == |tokens| || !tokens[i].Relation? {
          return Some(Symbol(s, mode));
        }
        var op := tokens[i].op;
        i := i + 1;
        if i < |tokens| && tokens[i].Name? {
          i := i + 1;
          return Some(Rel(op, s, tokens[i - 1].s));
        }
        r := None;
      case NotSign =>
        r := Factor();
        if r.Some? {
          r := Some(Not(r.value));
        }
      case OpenParen =>
        r := Expr();
        if r.Some? {
          var closed := CheckToken(CloseParen);
          if !closed {
            r := None;
          }
        }
      case AndSign => r := None;
      case OrSign => r := None;
      case CloseParen => r := None;
      case Relation(_) => r := None;
    }
  }
}
