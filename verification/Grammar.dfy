/** What the parser accepts (packetql/query/parser.py): each production as a function of the remaining tokens. */
module Grammar {
  import opened Wrappers
  import opened Text
  import opened Ast
  import opened Lexer

  const IP_COLUMNS: set<string> := {"src_ip", "dst_ip"}

  type Parsed<T> = Result<(T, seq<Token>), ParseError>

  /** Token lists that end with their only EOF. */
  predicate Terminated(ts: seq<Token>) {
    ts != [] && ts[|ts| - 1] == Eof && forall k :: 0 <= k < |ts| - 1 ==> ts[k] != Eof
  }

  /** The rest after a token that is not EOF: the cursor never runs past the end. */
  function Rest(ts: seq<Token>): (r: seq<Token>)
    requires Terminated(ts) && ts[0] != Eof
    ensures Terminated(r) && |r| == |ts| - 1
  {
    ts[1..]
  }

  predicate IsKw(ts: seq<Token>, kw: Kw)
    requires Terminated(ts)
  {
    ts[0] == Keyword(kw)
  }

  function ExpectKw(ts: seq<Token>, kw: Kw): (r: Result<seq<Token>, ParseError>)
    requires Terminated(ts)
    ensures r.Ok? ==> Terminated(r.value) && |r.value| < |ts|
  {
    if IsKw(ts, kw) then Ok(Rest(ts)) else Err(Syntax)
  }

  function ExpectName(ts: seq<Token>): (r: Parsed<string>)
    requires Terminated(ts)
    ensures r.Ok? ==> Terminated(r.value.1) && |r.value.1| < |ts|
  {
    if ts[0].Identifier? then Ok((ts[0].name, Rest(ts))) else Err(Syntax)
  }

  function ExpectToken(ts: seq<Token>, t: Token): (r: Result<seq<Token>, ParseError>)
    requires Terminated(ts) && t != Eof
    ensures r.Ok? ==> Terminated(r.value) && |r.value| < |ts|
  {
    if ts[0] == t then Ok(Rest(ts)) else Err(Syntax)
  }

  // ---- Aggregates and literals -------------------------------------------

  predicate StartsAggregate(ts: seq<Token>)
    requires Terminated(ts)
  {
    ts[0].Keyword? && ts[0].kw.KFunc?
  }

  /** `*` only for COUNT, otherwise a column */
  function ParseArg(ts: seq<Token>, f: Func): (r: Parsed<Option<string>>)
    requires Terminated(ts)
    ensures r.Ok? ==> Terminated(r.value.1) && |r.value.1| < |ts|
  {
    if f == Count && ts[0] == Star then Ok((None, Rest(ts)))
    else
      var (arg, rest) :- ExpectName(ts);
      Ok((Some(arg), rest))
  }

  /** `_try_aggregate` on a function name */
  function ParseAggregate(ts: seq<Token>): (r: Parsed<Agg>)
    requires Terminated(ts) && StartsAggregate(ts)
    ensures r.Ok? ==> Terminated(r.value.1) && |r.value.1| < |ts|
  {
    var a :- ExpectToken(Rest(ts), LParen);
    var (arg, b) :- ParseArg(a, ts[0].kw.func);
    var c :- ExpectToken(b, RParen);
    Ok((Agg(ts[0].kw.func, arg), c))
  }

  predicate IsIpColumn(e: Expr) {
    e.ColumnRef? && e.name in IP_COLUMNS
  }

  predicate IsText(e: Expr) {
    e.Literal? && e.value.StrV?
  }

  function Address(e: Expr): Result<Expr, ParseError>
    requires IsText(e)
  {
    match IpToInt(e.value.s)
    case Ok(n) => Ok(Literal(IntV(n)))
    case Err(_) => Err(BadAddress)
  }

  /** `_ip_fix`: an address written next to an address column becomes its number. */
  function IpFix(l: Expr, r: Expr): Result<(Expr, Expr), ParseError> {
    if IsIpColumn(l) && IsText(r) then
      var a :- Address(r);
      Ok((l, a))
    else if IsIpColumn(r) && IsText(l) then
      var a :- Address(l);
      Ok((a, r))
    else Ok((l, r))
  }

  // ---- Expressions -------------------------------------------------------

  function ParseOr(ts: seq<Token>): (r: Parsed<Expr>)
    requires Terminated(ts)
    ensures r.Ok? ==> Terminated(r.value.1) && |r.value.1| < |ts|
    decreases |ts|, 5
  {
    var (node, rest) :- ParseAnd(ts);
    OrTail(node, rest)
  }

  function OrTail(node: Expr, ts: seq<Token>): (r: Parsed<Expr>)
    requires Terminated(ts)
    ensures r.Ok? ==> Terminated(r.value.1) && |r.value.1| <= |ts|
    decreases |ts|, 6
  {
    if IsKw(ts, KOr) then
      var (right, rest) :- ParseAnd(Rest(ts));
      OrTail(BinaryOp(OrOp, node, right), rest)
    else Ok((node, ts))
  }

  function ParseAnd(ts: seq<Token>): (r: Parsed<Expr>)
    requires Terminated(ts)
    ensures r.Ok? ==> Terminated(r.value.1) && |r.value.1| < |ts|
    decreases |ts|, 4
  {
    var (node, rest) :- ParseNot(ts);
    AndTail(node, rest)
  }

  function AndTail(node: Expr, ts: seq<Token>): (r: Parsed<Expr>)
    requires Terminated(ts)
    ensures r.Ok? ==> Terminated(r.value.1) && |r.value.1| <= |ts|
    decreases |ts|, 6
  {
    if IsKw(ts, KAnd) then
      var (right, rest) :- ParseNot(Rest(ts));
      AndTail(BinaryOp(AndOp, node, right), rest)
    else Ok((node, ts))
  }

  function ParseNot(ts: seq<Token>): (r: Parsed<Expr>)
    requires Terminated(ts)
    ensures r.Ok? ==> Terminated(r.value.1) && |r.value.1| < |ts|
    decreases |ts|, 3
  {
    if IsKw(ts, KNot) then
      var (operand, rest) :- ParseNot(Rest(ts));
      Ok((Not(operand), rest))
    else ParseComparison(ts)
  }

  function ParseComparison(ts: seq<Token>): (r: Parsed<Expr>)
    requires Terminated(ts)
    ensures r.Ok? ==> Terminated(r.value.1) && |r.value.1| < |ts|
    decreases |ts|, 2
  {
    var (left, rest) :- ParsePrimary(ts);
    if rest[0].Operator? then
      var (right, after) :- ParsePrimary(Rest(rest));
      var (l, r) :- IpFix(left, right);
      Ok((BinaryOp(rest[0].op, l, r), after))
    else if IsKw(rest, KLike) then
      var (right, after) :- ParsePrimary(Rest(rest));
      Ok((BinaryOp(Like, left, right), after))
    else Ok((left, rest))
  }

  function ParsePrimary(ts: seq<Token>): (r: Parsed<Expr>)
    requires Terminated(ts)
    ensures r.Ok? ==> Terminated(r.value.1) && |r.value.1| < |ts|
    decreases |ts|, 1
  {
    if StartsAggregate(ts) then
      var (a, rest) :- ParseAggregate(ts);
      Ok((Aggregate(a), rest))
    else
      match ts[0]
      case LParen =>
        var (node, rest) :- ParseOr(Rest(ts));
        var after :- ExpectToken(rest, RParen);
        Ok((node, after))
      case Integer(i) => Ok((Literal(IntV(i)), Rest(ts)))
      case Decimal(w, f) => Ok((Literal(FloatV(w, f)), Rest(ts)))
      case Str(s) => Ok((Literal(StrV(s)), Rest(ts)))
      case Identifier(name) => Ok((ColumnRef(name), Rest(ts)))
      case _ => Err(Syntax)
  }

  // ---- Statements --------------------------------------------------------

  function ParseItem(ts: seq<Token>): (r: Parsed<Item>)
    requires Terminated(ts)
    ensures r.Ok? ==> Terminated(r.value.1) && |r.value.1| < |ts|
  {
    if StartsAggregate(ts) then
      var (a, rest) :- ParseAggregate(ts);
      Ok((AggItem(a), rest))
    else
      var (name, rest) :- ExpectName(ts);
      Ok((Column(name), rest))
  }

  function ItemsTail(items: seq<Item>, ts: seq<Token>): (r: Parsed<seq<Item>>)
    requires Terminated(ts)
    ensures r.Ok? ==> Terminated(r.value.1) && |r.value.1| <= |ts|
    decreases |ts|
  {
    if ts[0] == Comma then
      var (item, rest) :- ParseItem(Rest(ts));
      ItemsTail(items + [item], rest)
    else Ok((items, ts))
  }

  /** `_select_list` */
  function ParseItems(ts: seq<Token>): (r: Parsed<seq<Item>>)
    requires Terminated(ts)
    ensures r.Ok? ==> Terminated(r.value.1) && |r.value.1| < |ts|
  {
    if ts[0] == Star then Ok(([Column("*")], Rest(ts)))
    else
      var (item, rest) :- ParseItem(ts);
      ItemsTail([item], rest)
  }

  function NamesTail(names: seq<string>, ts: seq<Token>): (r: Parsed<seq<string>>)
    requires Terminated(ts)
    ensures r.Ok? ==> Terminated(r.value.1) && |r.value.1| <= |ts|
    decreases |ts|
  {
    if ts[0] == Comma then
      var (name, rest) :- ExpectName(Rest(ts));
      NamesTail(names + [name], rest)
    else Ok((names, ts))
  }

  function ParseNames(ts: seq<Token>): (r: Parsed<seq<string>>)
    requires Terminated(ts)
    ensures r.Ok? ==> Terminated(r.value.1) && |r.value.1| < |ts|
  {
    var (name, rest) :- ExpectName(ts);
    NamesTail([name], rest)
  }

  function ParseWhere(ts: seq<Token>, kw: Kw): (r: Parsed<Option<Expr>>)
    requires Terminated(ts)
    ensures r.Ok? ==> Terminated(r.value.1)
  {
    if IsKw(ts, kw) then
      var (e, rest) :- ParseOr(Rest(ts));
      Ok((Some(e), rest))
    else Ok((None, ts))
  }

  /** GROUP BY with its HAVING. */
  function ParseGroup(ts: seq<Token>): (r: Parsed<(seq<string>, Option<Expr>)>)
    requires Terminated(ts)
    ensures r.Ok? ==> Terminated(r.value.1)
  {
    if IsKw(ts, KGroup) then
      var a :- ExpectKw(Rest(ts), KBy);
      var (names, c) :- ParseNames(a);
      var (having, d) :- ParseWhere(c, KHaving);
      Ok(((names, having), d))
    else Ok((([], None), ts))
  }

  function ParseOrderColumn(ts: seq<Token>): (r: Parsed<string>)
    requires Terminated(ts)
    ensures r.Ok? ==> Terminated(r.value.1)
  {
    if StartsAggregate(ts) then
      var (a, rest) :- ParseAggregate(ts);
      Ok((AggLabel(a), rest))
    else ExpectName(ts)
  }

  function ParseDirection(ts: seq<Token>): (r: (bool, seq<Token>))
    requires Terminated(ts)
    ensures Terminated(r.1)
  {
    if IsKw(ts, KAsc) then (false, Rest(ts)) else if IsKw(ts, KDesc) then (true, Rest(ts)) else (false, ts)
  }

  function ParseOrder(ts: seq<Token>): (r: Parsed<Option<OrderBy>>)
    requires Terminated(ts)
    ensures r.Ok? ==> Terminated(r.value.1)
  {
    if IsKw(ts, KOrder) then
      var a :- ExpectKw(Rest(ts), KBy);
      var (column, b) :- ParseOrderColumn(a);
      var (descending, c) := ParseDirection(b);
      Ok((Some(OrderBy(column, descending)), c))
    else Ok((None, ts))
  }

  function ParseLimit(ts: seq<Token>): (r: Parsed<Option<nat>>)
    requires Terminated(ts)
    ensures r.Ok? ==> Terminated(r.value.1)
  {
    if IsKw(ts, KLimit) then
      var a := Rest(ts);
      if a[0].Integer? then Ok((Some(a[0].i), Rest(a))) else Err(Syntax)
    else Ok((None, ts))
  }

  /** `_select`, up to and including EOF */
  function ParseSelect(ts: seq<Token>): Result<Select, ParseError>
    requires Terminated(ts)
  {
    var a :- ExpectKw(ts, KSelect);
    var distinct := IsKw(a, KDistinct);
    var (columns, b) :- ParseItems(if distinct then Rest(a) else a);
    var c :- ExpectKw(b, KFrom);
    var (table, d) :- ExpectName(c);
    ParseClauses(columns, table, distinct, d)
  }

  function ParseClauses(columns: seq<Item>, table: string, distinct: bool, ts: seq<Token>): Result<Select, ParseError>
    requires Terminated(ts)
  {
    var (where, a) :- ParseWhere(ts, KWhere);
    var ((groupBy, having), b) :- ParseGroup(a);
    var (orderBy, c) :- ParseOrder(b);
    var (limit, d) :- ParseLimit(c);
    if d[0] == Eof then Ok(Select(columns, table, where, distinct, groupBy, having, orderBy, limit)) else Err(Syntax)
  }

  /** `parse` on tokens */
  function ParseStatement(ts: seq<Token>): Result<Statement, ParseError>
    requires Terminated(ts)
  {
    if IsKw(ts, KExplain) then
      var s :- ParseSelect(Rest(ts));
      Ok(Explain(s))
    else
      var s :- ParseSelect(ts);
      Ok(Query(s))
  }

  lemma {:induction false} LexTerminates(s: string)
    requires Lex(s).Ok?
    ensures Terminated(Lex(s).value)
    decreases |s|
  {
    if s != "" {
      match Next(s)
      case Bad =>
      case Skip(rest) => LexTerminates(rest);
      case Got(t, rest) => LexTerminates(rest);
    }
  }

  /** `parse` */
  function ParseText(sql: string): Result<Statement, ParseError> {
    var ts :- Lex(sql);
    LexTerminates(sql);
    ParseStatement(ts)
  }
}
