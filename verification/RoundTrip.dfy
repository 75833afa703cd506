/** Query text: what parses is printable, and printing then parsing gives it back. */
module RoundTrip {
  import opened Wrappers
  import opened Text
  import opened Ast
  import opened Lexer
  import opened Grammar
  import opened Printer
  import opened Statements

  /** Tokens the lexer can produce. */
  predicate ValidToken(t: Token) {
    match t
    case Identifier(n) => ValidName(n)
    case Decimal(w, f) => w != "" && AllDigits(w) && AllDigits(f)
    case Operator(op) => IsComparison(op)
    case _ => true
  }

  ghost predicate ValidTokens(ts: seq<Token>) {
    forall k :: 0 <= k < |ts| ==> ValidToken(ts[k])
  }

  lemma ValidRest(ts: seq<Token>)
    requires Terminated(ts) && ts[0] != Eof && ValidTokens(ts)
    ensures ValidTokens(Rest(ts)) && ValidToken(ts[0])
  {
  }

  // ---- Everything parsed is printable ------------------------------------

  lemma AggregateValid(ts: seq<Token>)
    requires Terminated(ts) && ValidTokens(ts) && StartsAggregate(ts) && ParseAggregate(ts).Ok?
    ensures ValidAgg(ParseAggregate(ts).value.0) && ValidTokens(ParseAggregate(ts).value.1)
  {
    ValidRest(ts);
    var a := Rest(ts);
    if a[0] == LParen {
      ValidRest(a);
      var b := Rest(a);
      if b[0] != Eof {
        ValidRest(b);
        var c := Rest(b);
        if c[0] != Eof { ValidRest(c); }
      }
    }
  }

  lemma IpFixValid(l: Expr, r: Expr)
    requires Printable(l) && Printable(r) && IpFix(l, r).Ok?
    ensures var (a, b) := IpFix(l, r).value; Printable(a) && Printable(b) && IpFix(a, b) == Ok((a, b))
  {
  }

  lemma {:induction false} OrValid(ts: seq<Token>)
    requires Terminated(ts) && ValidTokens(ts) && ParseOr(ts).Ok?
    ensures Printable(ParseOr(ts).value.0) && ValidTokens(ParseOr(ts).value.1)
    decreases |ts|, 5
  {
    AndValid(ts);
    var (node, rest) := ParseAnd(ts).value;
    OrTailValid(node, rest);
  }

  lemma {:induction false} OrTailValid(node: Expr, ts: seq<Token>)
    requires Terminated(ts) && ValidTokens(ts) && Printable(node) && OrTail(node, ts).Ok?
    ensures Printable(OrTail(node, ts).value.0) && ValidTokens(OrTail(node, ts).value.1)
    decreases |ts|, 6
  {
    if IsKw(ts, KOr) {
      ValidRest(ts);
      AndValid(Rest(ts));
      var (right, rest) := ParseAnd(Rest(ts)).value;
      OrTailValid(BinaryOp(OrOp, node, right), rest);
    }
  }

  lemma {:induction false} AndValid(ts: seq<Token>)
    requires Terminated(ts) && ValidTokens(ts) && ParseAnd(ts).Ok?
    ensures Printable(ParseAnd(ts).value.0) && ValidTokens(ParseAnd(ts).value.1)
    decreases |ts|, 4
  {
    NotValid(ts);
    var (node, rest) := ParseNot(ts).value;
    AndTailValid(node, rest);
  }

  lemma {:induction false} AndTailValid(node: Expr, ts: seq<Token>)
    requires Terminated(ts) && ValidTokens(ts) && Printable(node) && AndTail(node, ts).Ok?
    ensures Printable(AndTail(node, ts).value.0) && ValidTokens(AndTail(node, ts).value.1)
    decreases |ts|, 6
  {
    if IsKw(ts, KAnd) {
      ValidRest(ts);
      NotValid(Rest(ts));
      var (right, rest) := ParseNot(Rest(ts)).value;
      AndTailValid(BinaryOp(AndOp, node, right), rest);
    }
  }

  lemma {:induction false} NotValid(ts: seq<Token>)
    requires Terminated(ts) && ValidTokens(ts) && ParseNot(ts).Ok?
    ensures Printable(ParseNot(ts).value.0) && ValidTokens(ParseNot(ts).value.1)
    decreases |ts|, 3
  {
    if IsKw(ts, KNot) {
      ValidRest(ts);
      NotValid(Rest(ts));
    } else {
      ComparisonValid(ts);
    }
  }

  lemma {:induction false} ComparisonValid(ts: seq<Token>)
    requires Terminated(ts) && ValidTokens(ts) && ParseComparison(ts).Ok?
    ensures Printable(ParseComparison(ts).value.0) && ValidTokens(ParseComparison(ts).value.1)
    decreases |ts|, 2
  {
    PrimaryValid(ts);
    var (left, rest) := ParsePrimary(ts).value;
    if rest[0].Operator? || IsKw(rest, KLike) {
      ValidRest(rest);
      PrimaryValid(Rest(rest));
      var (right, after) := ParsePrimary(Rest(rest)).value;
      if rest[0].Operator? { IpFixValid(left, right); }
    }
  }

  lemma {:induction false} PrimaryValid(ts: seq<Token>)
    requires Terminated(ts) && ValidTokens(ts) && ParsePrimary(ts).Ok?
    ensures Printable(ParsePrimary(ts).value.0) && ValidTokens(ParsePrimary(ts).value.1)
    decreases |ts|, 1
  {
    if StartsAggregate(ts) {
      AggregateValid(ts);
    } else {
      ValidRest(ts);
      if ts[0] == LParen {
        OrValid(Rest(ts));
        ValidRest(ParseOr(Rest(ts)).value.1);
      }
    }
  }

  lemma ItemValid(ts: seq<Token>)
    requires Terminated(ts) && ValidTokens(ts) && ParseItem(ts).Ok?
    ensures ValidItem(ParseItem(ts).value.0) && ValidTokens(ParseItem(ts).value.1)
  {
    if StartsAggregate(ts) { AggregateValid(ts); } else { ValidRest(ts); }
  }

  ghost predicate ValidItems(items: seq<Item>) {
    forall i :: 0 <= i < |items| ==> ValidItem(items[i])
  }

  lemma {:induction false} ItemsTailValid(items: seq<Item>, ts: seq<Token>)
    requires Terminated(ts) && ValidTokens(ts) && ValidItems(items) && items != [] && ItemsTail(items, ts).Ok?
    ensures var (all, rest) := ItemsTail(items, ts).value; all != [] && ValidItems(all) && ValidTokens(rest)
    decreases |ts|
  {
    if ts[0] == Comma {
      ValidRest(ts);
      ItemValid(Rest(ts));
      var (item, rest) := ParseItem(Rest(ts)).value;
      ItemsTailValid(items + [item], rest);
    }
  }

  lemma ItemsValid(ts: seq<Token>)
    requires Terminated(ts) && ValidTokens(ts) && ParseItems(ts).Ok?
    ensures var (items, rest) := ParseItems(ts).value;
      ValidTokens(rest) && (items == [Column("*")] || (items != [] && ValidItems(items)))
  {
    if ts[0] == Star {
      ValidRest(ts);
    } else {
      ItemValid(ts);
      var (item, rest) := ParseItem(ts).value;
      ItemsTailValid([item], rest);
    }
  }

  ghost predicate ValidNames(names: seq<string>) {
    forall i :: 0 <= i < |names| ==> ValidName(names[i])
  }

  lemma {:induction false} NamesTailValid(names: seq<string>, ts: seq<Token>)
    requires Terminated(ts) && ValidTokens(ts) && ValidNames(names) && names != [] && NamesTail(names, ts).Ok?
    ensures var (all, rest) := NamesTail(names, ts).value; all != [] && ValidNames(all) && ValidTokens(rest)
    decreases |ts|
  {
    hide ValidName;
    if ts[0] == Comma {
      ValidRest(ts);
      ValidRest(Rest(ts));
      var (name, rest) := ExpectName(Rest(ts)).value;
      NamesTailValid(names + [name], rest);
    }
  }

  lemma WhereValid(ts: seq<Token>, kw: Kw)
    requires Terminated(ts) && ValidTokens(ts) && ParseWhere(ts, kw).Ok?
    ensures PrintableOption(ParseWhere(ts, kw).value.0) && ValidTokens(ParseWhere(ts, kw).value.1)
  {
    if IsKw(ts, kw) {
      ValidRest(ts);
      OrValid(Rest(ts));
    }
  }

  lemma GroupValid(ts: seq<Token>)
    requires Terminated(ts) && ValidTokens(ts) && ParseGroup(ts).Ok?
    ensures var ((groupBy, having), rest) := ParseGroup(ts).value;
      ValidNames(groupBy) && PrintableOption(having) && (having.Some? ==> groupBy != []) && ValidTokens(rest)
  {
    if IsKw(ts, KGroup) {
      ValidRest(ts);
      ValidRest(Rest(ts));
      var a := Rest(Rest(ts));
      ValidRest(a);
      var (name, b) := ExpectName(a).value;
      NamesTailValid([name], b);
      var (names, c) := NamesTail([name], b).value;
      WhereValid(c, KHaving);
    }
  }

  lemma OrderValid(ts: seq<Token>)
    requires Terminated(ts) && ValidTokens(ts) && ParseOrder(ts).Ok?
    ensures var (o, rest) := ParseOrder(ts).value;
      (o.Some? ==> ValidOrderColumn(o.value.column)) && ValidTokens(rest)
  {
    if IsKw(ts, KOrder) {
      ValidRest(ts);
      ValidRest(Rest(ts));
      var a := Rest(Rest(ts));
      if StartsAggregate(a) {
        AggregateValid(a);
        assert ValidOrderColumn(AggLabel(ParseAggregate(a).value.0));
      } else {
        ValidRest(a);
      }
      var b := ParseOrderColumn(a).value.1;
      if IsKw(b, KAsc) || IsKw(b, KDesc) { ValidRest(b); }
    }
  }

  lemma SelectValid(ts: seq<Token>)
    requires Terminated(ts) && ValidTokens(ts) && ParseSelect(ts).Ok?
    ensures PrintableSelect(ParseSelect(ts).value)
  {
    ValidRest(ts);
    var a := Rest(ts);
    var distinct := IsKw(a, KDistinct);
    if distinct { ValidRest(a); }
    var b := if distinct then Rest(a) else a;
    ItemsValid(b);
    var (columns, c) := ParseItems(b).value;
    ValidRest(c);
    ValidRest(Rest(c));
    var (table, d) := ExpectName(Rest(c)).value;
    ClausesValid(columns, table, distinct, d);
  }

  lemma ClausesValid(columns: seq<Item>, table: string, distinct: bool, ts: seq<Token>)
    requires Terminated(ts) && ValidTokens(ts) && ParseClauses(columns, table, distinct, ts).Ok?
    requires ValidName(table) && (columns == [Column("*")] || (columns != [] && ValidItems(columns)))
    ensures PrintableSelect(ParseClauses(columns, table, distinct, ts).value)
  {
    WhereValid(ts, KWhere);
    var (where, a) := ParseWhere(ts, KWhere).value;
    GroupValid(a);
    var ((groupBy, having), b) := ParseGroup(a).value;
    OrderValid(b);
  }

  /** Every statement that parses is printable. */
  lemma StatementValid(ts: seq<Token>)
    requires Terminated(ts) && ValidTokens(ts) && ParseStatement(ts).Ok?
    ensures PrintableSelect(ParseStatement(ts).value.select)
  {
    if IsKw(ts, KExplain) {
      ValidRest(ts);
      SelectValid(Rest(ts));
    } else {
      SelectValid(ts);
    }
  }
}
