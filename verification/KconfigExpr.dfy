/** Kconfig expressions and their tristate values (tools/kconfiglib.py:4986-5046). */
module KconfigExpr {

  type Sym = nat

  /** n, m and y are 0, 1 and 2. */
  type Tri = x: int | 0 <= x <= 2

  datatype Op = Equal | Unequal | Less | LessEqual | Greater | GreaterEqual

  datatype Expr =
    | Item(s: Sym)
    | And(left: Expr, right: Expr)
    | Or(left: Expr, right: Expr)
    | Not(e: Expr)
    | Rel(op: Op, a: Sym, b: Sym)

  function Min(a: Tri, b: Tri): Tri {
    if a < b then a else b
  }

  function Max(a: Tri, b: Tri): Tri {
    if a > b then a else b
  }

  /** The relations test the sign of a comparison of the operands' strings or numbers. */
  function Holds(op: Op, comp: int): Tri {
    match op
    case Equal => if comp == 0 then 2 else 0
    case Unequal => if comp != 0 then 2 else 0
    case Less => if comp < 0 then 2 else 0
    case LessEqual => if comp <= 0 then 2 else 0
    case Greater => if comp > 0 then 2 else 0
    case GreaterEqual => if comp >= 0 then 2 else 0
  }

  /** Every symbol in the expression. */
  function Items(e: Expr): set<Sym> {
    match e
    case Item(s) => {s}
    case And(l, r) => Items(l) + Items(r)
    case Or(l, r) => Items(l) + Items(r)
    case Not(x) => Items(x)
    case Rel(_, a, b) => {a, b}
  }
}
