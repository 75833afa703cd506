/** A printer with the fewest parentheses, and the proof that parsing undoes it. */
module Printer {
  import opened Wrappers
  import opened Text
  import opened Ast
  import opened Lexer
  import opened Grammar

  // ---- The parser's image ------------------------------------------------

  predicate ValidName(n: string) {
    n != "" && (IsAlpha(n[0]) || n[0] == '_') && AllWordChars(n) && KeywordOf(Upper(n)) == None
  }

  predicate ValidAgg(a: Agg) {
    if a.arg == None then a.func == Count else ValidName(a.arg.value)
  }

  predicate ValidValue(v: Value) {
    match v
    case IntV(i) => i >= 0
    case FloatV(w, f) => w != "" && AllDigits(w) && AllDigits(f)
    case StrV(_) => true
  }

  /** Expressions that some query text denotes. */
  predicate Printable(e: Expr) {
    match e
    case ColumnRef(n) => ValidName(n)
    case Literal(v) => ValidValue(v)
    case Aggregate(a) => ValidAgg(a)
    case BinaryOp(op, l, r) => Printable(l) && Printable(r) && (IsComparison(op) ==> IpFix(l, r) == Ok((l, r)))
    case Not(x) => Printable(x)
  }

  // ---- Printing tokens ---------------------------------------------------

  /** A token before a terminated list. */
  function Then(t: Token, k: seq<Token>): (r: seq<Token>)
    requires Terminated(k) && t != Eof
    ensures Terminated(r) && r[0] == t && Rest(r) == k
  {
    [t] + k
  }

  function AggTo(a: Agg, k: seq<Token>): (r: seq<Token>)
    requires Terminated(k)
    ensures Terminated(r)
  {
    var arg := if a.arg == None then Star else Identifier(a.arg.value);
    Then(Keyword(KFunc(a.func)), Then(LParen, Then(arg, Then(RParen, k))))
  }

  function ValueToken(v: Value): (t: Token)
    requires ValidValue(v)
    ensures t != Eof
  {
    match v
    case IntV(i) => Integer(i)
    case FloatV(w, f) => Decimal(w, f)
    case StrV(s) => Str(s)
  }

  /** How tightly the outermost operator binds. */
  function Level(e: Expr): nat {
    match e
    case BinaryOp(OrOp, _, _) => 0
    case BinaryOp(AndOp, _, _) => 1
    case Not(_) => 2
    case BinaryOp(_, _, _) => 3
    case _ => 4
  }

  function OpToken(op: Op): (t: Token)
    ensures t != Eof
  {
    if op == OrOp then Keyword(KOr) else if op == AndOp then Keyword(KAnd)
    else if op == Like then Keyword(KLike) else Operator(op)
  }

  /** The tokens of an expression whose place demands at least this level, followed by `k`. */
  function PrintAt(e: Expr, level: nat, k: seq<Token>): (r: seq<Token>)
    requires Printable(e) && Terminated(k)
    ensures Terminated(r)
    decreases e, 1
  {
    if Level(e) < level then Then(LParen, PrintCore(e, Then(RParen, k))) else PrintCore(e, k)
  }

  function PrintCore(e: Expr, k: seq<Token>): (r: seq<Token>)
    requires Printable(e) && Terminated(k)
    ensures Terminated(r)
    decreases e, 0
  {
    match e
    case ColumnRef(n) => Then(Identifier(n), k)
    case Literal(v) => Then(ValueToken(v), k)
    case Aggregate(a) => AggTo(a, k)
    case Not(x) => Then(Keyword(KNot), PrintAt(x, 2, k))
    case BinaryOp(op, l, r) =>
      var level := Level(e);
      if op == OrOp || op == AndOp then PrintAt(l, level, Then(OpToken(op), PrintAt(r, level + 1, k)))
      else PrintAt(l, 4, Then(OpToken(op), PrintAt(r, 4, k)))
  }

  // ---- Parsing expressions back ------------------------------------------

  lemma AggregateBack(a: Agg, k: seq<Token>)
    requires ValidAgg(a) && Terminated(k)
    ensures StartsAggregate(AggTo(a, k)) && ParseAggregate(AggTo(a, k)) == Ok((a, k))
  {
  }

  /** What may not follow an expression that ends here. */
  predicate Ends(k: seq<Token>)
    requires Terminated(k)
  {
    !k[0].Operator? && !IsKw(k, KLike)
  }

  lemma LeafBack(e: Expr, k: seq<Token>)
    requires Printable(e) && Terminated(k) && Level(e) == 4
    ensures ParsePrimary(PrintCore(e, k)) == Ok((e, k))
  {
    if e.Aggregate? { AggregateBack(e.agg, k); }
  }

  lemma PrimaryStart(e: Expr, k: seq<Token>)
    requires Printable(e) && Terminated(k)
    ensures !IsKw(PrintAt(e, 4, k), KNot)
  {
  }

  /** No expression of comparison level or tighter starts with NOT. */
  lemma {:induction false} NoLeadingNot(e: Expr, k: seq<Token>)
    requires Printable(e) && Terminated(k) && Level(e) >= 3
    ensures !IsKw(PrintCore(e, k), KNot)
  {
    if Level(e) == 4 {
      PrimaryStart(e, k);
    } else {
      var k1 := Then(OpToken(e.op), PrintAt(e.right, 4, k));
      assert PrintCore(e, k) == PrintAt(e.left, 4, k1);
      PrimaryStart(e.left, k1);
    }
  }

  lemma OrStep(l: Expr, after: seq<Token>, r: Expr, k: seq<Token>)
    requires Terminated(after) && Terminated(k) && !IsKw(k, KAnd)
    requires ParseAnd(after) == AndTail(r, k)
    ensures OrTail(l, Then(Keyword(KOr), after)) == OrTail(BinaryOp(OrOp, l, r), k)
  {
  }

  lemma {:induction false} OrBack(e: Expr, k: seq<Token>)
    requires Printable(e) && Terminated(k) && Ends(k) && !IsKw(k, KAnd)
    ensures ParseOr(PrintCore(e, k)) == OrTail(e, k)
    decreases e, 5
  {
    if Level(e) == 0 {
      var after := PrintAt(e.right, 1, k);
      var k1 := Then(Keyword(KOr), after);
      assert PrintCore(e, k) == PrintCore(e.left, k1);
      hide PrintCore;
      hide PrintAt;
      hide ParseAnd;
      OrBack(e.left, k1);
      AndAtBack(e.right, k);
      OrStep(e.left, after, e.right, k);
    } else {
      AndBack(e, k);
      hide PrintCore;
      hide ParseAnd;
    }
  }

  lemma AndStep(l: Expr, after: seq<Token>, r: Expr, k: seq<Token>)
    requires Terminated(after) && Terminated(k) && ParseNot(after) == Ok((r, k))
    ensures AndTail(l, Then(Keyword(KAnd), after)) == AndTail(BinaryOp(AndOp, l, r), k)
  {
  }

  lemma {:induction false} AndBack(e: Expr, k: seq<Token>)
    requires Printable(e) && Terminated(k) && Ends(k) && Level(e) >= 1
    ensures ParseAnd(PrintCore(e, k)) == AndTail(e, k)
    decreases e, 4
  {
    if Level(e) == 1 {
      var after := PrintAt(e.right, 2, k);
      var k1 := Then(Keyword(KAnd), after);
      assert PrintCore(e, k) == PrintAt(e.left, 1, k1);
      hide PrintCore;
      hide PrintAt;
      hide ParseNot;
      AndAtBack(e.left, k1);
      NotAtBack(e.right, k);
      AndStep(e.left, after, e.right, k);
    } else {
      NotBack(e, k);
      hide PrintCore;
    }
  }

  lemma {:induction false} NotBack(e: Expr, k: seq<Token>)
    requires Printable(e) && Terminated(k) && Ends(k) && Level(e) >= 2
    ensures ParseNot(PrintCore(e, k)) == Ok((e, k))
    decreases e, 3
  {
    if e.Not? {
      NotAtBack(e.operand, k);
    } else {
      NoLeadingNot(e, k);
      ComparisonBack(e, k);
    }
  }

  lemma ComparisonFrom(ts: seq<Token>, op: Op, l: Expr, r: Expr, after: seq<Token>, k: seq<Token>)
    requires Terminated(ts) && Terminated(after) && Terminated(k) && op != OrOp && op != AndOp
    requires ParsePrimary(ts) == Ok((l, Then(OpToken(op), after))) && ParsePrimary(after) == Ok((r, k))
    requires IsComparison(op) ==> IpFix(l, r) == Ok((l, r))
    ensures ParseComparison(ts) == Ok((BinaryOp(op, l, r), k))
  {
  }

  lemma {:induction false} ComparisonBack(e: Expr, k: seq<Token>)
    requires Printable(e) && Terminated(k) && Ends(k) && Level(e) >= 3
    ensures ParseComparison(PrintCore(e, k)) == Ok((e, k))
    decreases e, 2
  {
    if Level(e) == 3 {
      var after := PrintAt(e.right, 4, k);
      var k1 := Then(OpToken(e.op), after);
      assert PrintCore(e, k) == PrintAt(e.left, 4, k1);
      PrimaryBack(e.left, k1);
      PrimaryBack(e.right, k);
      hide PrintCore;
      hide PrintAt;
      ComparisonFrom(PrintCore(e, k), e.op, e.left, e.right, after, k);
    } else {
      LeafBack(e, k);
    }
  }

  /** An operand of a comparison: a leaf, or anything in parentheses. */
  lemma {:induction false} PrimaryBack(e: Expr, k: seq<Token>)
    requires Printable(e) && Terminated(k)
    ensures ParsePrimary(PrintAt(e, 4, k)) == Ok((e, k))
    decreases e, 6
  {
    if Level(e) == 4 {
      LeafBack(e, k);
    } else {
      OrBack(e, Then(RParen, k));
    }
  }

  lemma FromPrimary(ts: seq<Token>, e: Expr, k: seq<Token>)
    requires Terminated(ts) && Terminated(k) && !IsKw(ts, KNot) && Ends(k) && ParsePrimary(ts) == Ok((e, k))
    ensures ParseNot(ts) == Ok((e, k)) && ParseAnd(ts) == AndTail(e, k)
  {
    assert ParseComparison(ts) == Ok((e, k));
    assert ParseNot(ts) == Ok((e, k));
  }

  lemma {:induction false} AndAtBack(e: Expr, k: seq<Token>)
    requires Printable(e) && Terminated(k) && Ends(k)
    ensures ParseAnd(PrintAt(e, 1, k)) == AndTail(e, k)
    decreases e, 7
  {
    if Level(e) >= 1 {
      AndBack(e, k);
    } else {
      PrimaryBack(e, k);
      assert PrintAt(e, 1, k) == PrintAt(e, 4, k);
      FromPrimary(PrintAt(e, 1, k), e, k);
    }
  }

  lemma {:induction false} NotAtBack(e: Expr, k: seq<Token>)
    requires Printable(e) && Terminated(k) && Ends(k)
    ensures ParseNot(PrintAt(e, 2, k)) == Ok((e, k))
    decreases e, 7
  {
    if Level(e) >= 2 {
      NotBack(e, k);
    } else {
      PrimaryBack(e, k);
      assert PrintAt(e, 2, k) == PrintAt(e, 4, k);
      FromPrimary(PrintAt(e, 2, k), e, k);
    }
  }

  /** Any expression, printed with only the parentheses its operators need, parses back to itself. */
  lemma ExpressionBack(e: Expr, k: seq<Token>)
    requires Printable(e) && Terminated(k) && Ends(k) && !IsKw(k, KAnd) && !IsKw(k, KOr)
    ensures ParseOr(PrintAt(e, 0, k)) == Ok((e, k))
  {
    OrBack(e, k);
  }
}
