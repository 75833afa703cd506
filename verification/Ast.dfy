/** Query syntax trees (packetql/query/ast.py). */
module Ast {
  import opened Wrappers
  import opened Text

  /** A literal. A decimal literal keeps its digits; `NumberOf` is its value. */
  datatype Value = IntV(i: int) | FloatV(whole: string, frac: string) | StrV(s: string)

  datatype Func = Count | Sum | Avg | Min | Max

  datatype Op = Eq | Ne | Lt | Gt | Le | Ge | AndOp | OrOp | Like

  /** `COUNT(*)` has no argument. */
  datatype Agg = Agg(func: Func, arg: Option<string>)

  datatype Expr =
    | ColumnRef(name: string)
    | Literal(value: Value)
    | Aggregate(agg: Agg)
    | BinaryOp(op: Op, left: Expr, right: Expr)
    | Not(operand: Expr)

  datatype Item = Column(name: string) | AggItem(agg: Agg)

  datatype OrderBy = OrderBy(column: string, descending: bool)

  datatype Select = Select(
    columns: seq<Item>,
    table: string,
    where: Option<Expr>,
    distinct: bool,
    groupBy: seq<string>,
    having: Option<Expr>,
    orderBy: Option<OrderBy>,
    limit: Option<nat>)
  {
    predicate Star() {
      columns == [Column("*")]
    }
  }

  datatype Statement = Query(select: Select) | Explain(select: Select)

  function FuncName(f: Func): string {
    match f
    case Count => "COUNT"
    case Sum => "SUM"
    case Avg => "AVG"
    case Min => "MIN"
    case Max => "MAX"
  }

  /** The output label of an aggregate, such as `SUM(size)`. */
  function AggLabel(a: Agg): string {
    FuncName(a.func) + "(" + (if a.arg == None then "*" else a.arg.value) + ")"
  }

  predicate IsComparison(op: Op) {
    op in {Eq, Ne, Lt, Gt, Le, Ge}
  }

  predicate IsNumber(v: Value) {
    v.IntV? || (v.FloatV? && AllDigits(v.whole) && AllDigits(v.frac))
  }

  function PowTen(n: nat): (r: real)
    ensures r >= 1.0
  {
    if n == 0 then 1.0 else 10.0 * PowTen(n - 1)
  }

  function NumberOf(v: Value): real
    requires IsNumber(v)
  {
    match v
    case IntV(i) => i as real
    case FloatV(w, f) => (DigitsValue(w) as real) + (DigitsValue(f) as real) / PowTen(|f|)
  }
}
