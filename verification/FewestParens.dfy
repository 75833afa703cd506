/** The printer writes no parentheses in vain: no token list of a statement has fewer of them than the printed one. */
module FewestParens {
  import opened Wrappers
  import opened Text
  import opened Ast
  import opened Lexer
  import opened Grammar
  import opened Printer
  import opened Statements
  import opened RoundTrip
  import opened Rendering

  /** How many parentheses a token list opens. */
  function Parens(ts: seq<Token>): nat {
    if ts == [] then 0 else (if ts[0] == LParen then 1 else 0) + Parens(ts[1..])
  }

  lemma RestParens(ts: seq<Token>)
    requires Terminated(ts) && ts[0] != Eof
    ensures Parens(ts) == (if ts[0] == LParen then 1 else 0) + Parens(Rest(ts))
  {
  }

  lemma ThenParens(t: Token, k: seq<Token>)
    requires Terminated(k) && t != Eof
    ensures Parens(Then(t, k)) == (if t == LParen then 1 else 0) + Parens(k)
  {
    assert ([t] + k)[1..] == k;
  }

  // ---- Expressions: what is printed --------------------------------------

  /** The parentheses printed for an expression whose place demands this level, those of its aggregates included. */
  function Pairs(e: Expr, level: nat): nat
    decreases e, 1
  {
    (if Level(e) < level then 1 else 0) + Inner(e)
  }

  function Inner(e: Expr): nat
    decreases e, 0
  {
    match e
    case Aggregate(_) => 1
    case Not(x) => Pairs(x, 2)
    case BinaryOp(op, l, r) =>
      if op == OrOp then Pairs(l, 0) + Pairs(r, 1)
      else if op == AndOp then Pairs(l, 1) + Pairs(r, 2)
      else Pairs(l, 4) + Pairs(r, 4)
    case _ => 0
  }

  lemma AggParens(a: Agg, k: seq<Token>)
    requires Terminated(k)
    ensures Parens(AggTo(a, k)) == 1 + Parens(k)
  {
    var arg := if a.arg == None then Star else Identifier(a.arg.value);
    hide Parens, Then;
    ThenParens(RParen, k);
    ThenParens(arg, Then(RParen, k));
    ThenParens(LParen, Then(arg, Then(RParen, k)));
    ThenParens(Keyword(KFunc(a.func)), Then(LParen, Then(arg, Then(RParen, k))));
  }

  lemma {:induction false} PrintedAt(e: Expr, level: nat, k: seq<Token>)
    requires Printable(e) && Terminated(k)
    ensures Parens(PrintAt(e, level, k)) == Pairs(e, level) + Parens(k)
    decreases e, 1
  {
    hide Parens, Then, PrintCore, Inner;
    if Level(e) < level {
      var k1 := Then(RParen, k);
      ThenParens(RParen, k);
      PrintedCore(e, k1);
      ThenParens(LParen, PrintCore(e, k1));
    } else {
      PrintedCore(e, k);
    }
  }

  lemma {:induction false} PrintedCore(e: Expr, k: seq<Token>)
    requires Printable(e) && Terminated(k)
    ensures Parens(PrintCore(e, k)) == Inner(e) + Parens(k)
    decreases e, 0
  {
    hide Parens, Then, PrintAt, Pairs;
    match e
    case ColumnRef(n) => ThenParens(Identifier(n), k);
    case Literal(v) => ThenParens(ValueToken(v), k);
    case Aggregate(a) => AggParens(a, k);
    case Not(x) =>
      PrintedAt(x, 2, k);
      ThenParens(Keyword(KNot), PrintAt(x, 2, k));
    case BinaryOp(op, l, r) =>
      var outer := if op == OrOp then 0 else if op == AndOp then 1 else 4;
      var inner := if op == OrOp then 1 else if op == AndOp then 2 else 4;
      PrintedAt(r, inner, k);
      ThenParens(OpToken(op), PrintAt(r, inner, k));
      PrintedAt(l, outer, Then(OpToken(op), PrintAt(r, inner, k)));
  }

  // ---- Expressions: what parsing takes -----------------------------------

  lemma AggregateTakes(ts: seq<Token>)
    requires Terminated(ts) && StartsAggregate(ts) && ParseAggregate(ts).Ok?
    ensures 1 + Parens(ParseAggregate(ts).value.1) <= Parens(ts)
  {
    hide Parens;
    RestParens(ts);
    var a := Rest(ts);
    RestParens(a);
    RestParens(Rest(a));
    RestParens(Rest(Rest(a)));
  }

  lemma {:induction false} OrTakes(ts: seq<Token>)
    requires Terminated(ts) && ValidTokens(ts) && ParseOr(ts).Ok?
    ensures var (e, rest) := ParseOr(ts).value; Pairs(e, 0) + Parens(rest) <= Parens(ts)
    decreases |ts|, 5
  {
    hide Parens, ParseAnd;
    AndTakes(ts);
    AndValid(ts);
    var (node, rest) := ParseAnd(ts).value;
    OrTailTakes(node, rest);
  }

  lemma {:induction false} OrTailTakes(node: Expr, ts: seq<Token>)
    requires Terminated(ts) && ValidTokens(ts) && OrTail(node, ts).Ok?
    ensures var (e, rest) := OrTail(node, ts).value; Pairs(e, 0) + Parens(rest) <= Pairs(node, 0) + Parens(ts)
    decreases |ts|, 6
  {
    hide Parens, ParseAnd;
    if IsKw(ts, KOr) {
      RestParens(ts);
      ValidRest(ts);
      AndTakes(Rest(ts));
      AndValid(Rest(ts));
      var (right, rest) := ParseAnd(Rest(ts)).value;
      OrTailTakes(BinaryOp(OrOp, node, right), rest);
    }
  }

  lemma {:induction false} AndTakes(ts: seq<Token>)
    requires Terminated(ts) && ValidTokens(ts) && ParseAnd(ts).Ok?
    ensures var (e, rest) := ParseAnd(ts).value; Pairs(e, 1) + Parens(rest) <= Parens(ts)
    decreases |ts|, 4
  {
    hide Parens, ParseNot;
    NotTakes(ts);
    NotValid(ts);
    var (node, rest) := ParseNot(ts).value;
    AndTailTakes(node, rest);
  }

  lemma {:induction false} AndTailTakes(node: Expr, ts: seq<Token>)
    requires Terminated(ts) && ValidTokens(ts) && AndTail(node, ts).Ok?
    ensures var (e, rest) := AndTail(node, ts).value; Pairs(e, 1) + Parens(rest) <= Pairs(node, 1) + Parens(ts)
    decreases |ts|, 6
  {
    hide Parens, ParseNot;
    if IsKw(ts, KAnd) {
      RestParens(ts);
      ValidRest(ts);
      NotTakes(Rest(ts));
      NotValid(Rest(ts));
      var (right, rest) := ParseNot(Rest(ts)).value;
      AndTailTakes(BinaryOp(AndOp, node, right), rest);
    }
  }

  lemma {:induction false} NotTakes(ts: seq<Token>)
    requires Terminated(ts) && ValidTokens(ts) && ParseNot(ts).Ok?
    ensures var (e, rest) := ParseNot(ts).value; Pairs(e, 2) + Parens(rest) <= Parens(ts)
    decreases |ts|, 3
  {
    hide Parens, ParseComparison;
    if IsKw(ts, KNot) {
      RestParens(ts);
      ValidRest(ts);
      NotTakes(Rest(ts));
    } else {
      ComparisonTakes(ts);
    }
  }

  /** Turning an address text into its number leaves a leaf a leaf. */
  lemma FixedPairs(l: Expr, r: Expr)
    requires IpFix(l, r).Ok?
    ensures var (a, b) := IpFix(l, r).value; Pairs(a, 4) == Pairs(l, 4) && Pairs(b, 4) == Pairs(r, 4)
  {
  }

  lemma {:induction false} ComparisonTakes(ts: seq<Token>)
    requires Terminated(ts) && ValidTokens(ts) && ParseComparison(ts).Ok?
    ensures var (e, rest) := ParseComparison(ts).value; Pairs(e, 3) + Parens(rest) <= Parens(ts)
    decreases |ts|, 2
  {
    hide Parens, ParsePrimary, IpFix;
    PrimaryTakes(ts);
    PrimaryValid(ts);
    var (left, rest) := ParsePrimary(ts).value;
    if rest[0].Operator? || IsKw(rest, KLike) {
      RestParens(rest);
      ValidRest(rest);
      PrimaryTakes(Rest(rest));
      var (right, after) := ParsePrimary(Rest(rest)).value;
      if rest[0].Operator? { FixedPairs(left, right); }
    }
  }

  lemma {:induction false} PrimaryTakes(ts: seq<Token>)
    requires Terminated(ts) && ValidTokens(ts) && ParsePrimary(ts).Ok?
    ensures var (e, rest) := ParsePrimary(ts).value; Pairs(e, 4) + Parens(rest) <= Parens(ts)
    decreases |ts|, 1
  {
    hide Parens, ParseOr, ParseAggregate;
    if StartsAggregate(ts) {
      AggregateTakes(ts);
    } else {
      RestParens(ts);
      if ts[0] == LParen {
        ValidRest(ts);
        OrTakes(Rest(ts));
        RestParens(ParseOr(Rest(ts)).value.1);
      }
    }
  }

  /** An expression cannot be written with fewer parentheses than the printer writes. */
  lemma ExpressionFewest(ts: seq<Token>)
    requires Terminated(ts) && ValidTokens(ts) && ParseOr(ts).Ok?
    ensures var (e, k) := ParseOr(ts).value;
      Printable(e) && Terminated(k) && Parens(PrintAt(e, 0, k)) <= Parens(ts)
  {
    var (e, k) := ParseOr(ts).value;
    OrTakes(ts);
    OrValid(ts);
    PrintedAt(e, 0, k);
  }

  // ---- Statements: what is printed ---------------------------------------

  function ItemPairs(i: Item): nat {
    if i.AggItem? then 1 else 0
  }

  function ItemsPairs(items: seq<Item>): nat {
    if items == [] then 0 else ItemPairs(items[0]) + ItemsPairs(items[1..])
  }

  function OptionPairs(e: Option<Expr>): nat {
    if e == None then 0 else Pairs(e.value, 0)
  }

  /** A label that is no name is printed as the aggregate it labels. */
  function OrderPairs(o: Option<OrderBy>): nat {
    if o == None || ValidName(o.value.column) then 0 else 1
  }

  function SelectPairs(s: Select): nat {
    ItemsPairs(s.columns) + OptionPairs(s.where) + OptionPairs(s.having) + OrderPairs(s.orderBy)
  }

  lemma ItemPrinted(i: Item, k: seq<Token>)
    requires Terminated(k)
    ensures Parens(ItemTo(i, k)) == ItemPairs(i) + Parens(k)
  {
    if i.AggItem? { AggParens(i.agg, k); } else { ThenParens(Identifier(i.name), k); }
  }

  lemma {:induction false} ItemsPrinted(items: seq<Item>, k: seq<Token>)
    requires items != [] && Terminated(k)
    ensures Parens(ItemsTo(items, k)) == ItemsPairs(items) + Parens(k)
    decreases |items|
  {
    hide Parens, Then, ItemTo, ItemPairs;
    if |items| == 1 {
      assert ItemsPairs(items[1..]) == 0;
      ItemPrinted(items[0], k);
    } else {
      var k1 := ItemsTo(items[1..], k);
      ItemsPrinted(items[1..], k);
      ThenParens(Comma, k1);
      ItemPrinted(items[0], Then(Comma, k1));
    }
  }

  lemma {:induction false} NamesPrinted(names: seq<string>, k: seq<Token>)
    requires names != [] && Terminated(k)
    ensures Parens(NamesTo(names, k)) == Parens(k)
    decreases |names|
  {
    hide Parens, Then;
    if |names| == 1 {
      ThenParens(Identifier(names[0]), k);
    } else {
      var k1 := NamesTo(names[1..], k);
      NamesPrinted(names[1..], k);
      ThenParens(Comma, k1);
      ThenParens(Identifier(names[0]), Then(Comma, k1));
    }
  }

  lemma WherePrinted(e: Option<Expr>, kw: Kw, k: seq<Token>)
    requires PrintableOption(e) && Terminated(k)
    ensures Parens(WhereTo(e, kw, k)) == OptionPairs(e) + Parens(k)
  {
    hide Parens, Then, PrintAt, Pairs;
    if e.Some? {
      PrintedAt(e.value, 0, k);
      ThenParens(Keyword(kw), PrintAt(e.value, 0, k));
    }
  }

  lemma GroupPrinted(groupBy: seq<string>, having: Option<Expr>, k: seq<Token>)
    requires PrintableOption(having) && (having.Some? ==> groupBy != []) && Terminated(k)
    ensures Parens(GroupTo(groupBy, having, k)) == OptionPairs(having) + Parens(k)
  {
    hide Parens, Then, NamesTo, WhereTo, Pairs;
    if groupBy != [] {
      var k1 := WhereTo(having, KHaving, k);
      WherePrinted(having, KHaving, k);
      NamesPrinted(groupBy, k1);
      ThenParens(Keyword(KBy), NamesTo(groupBy, k1));
      ThenParens(Keyword(KGroup), Then(Keyword(KBy), NamesTo(groupBy, k1)));
    }
  }

  lemma OrderColumnPrinted(c: string, k: seq<Token>)
    requires ValidOrderColumn(c) && Terminated(k)
    ensures Parens(OrderColumnTo(c, k)) == (if ValidName(c) then 0 else 1) + Parens(k)
  {
    hide Parens, Then, AggTo;
    if ValidName(c) {
      ThenParens(Identifier(c), k);
    } else {
      var a :| ValidAgg(a) && c == AggLabel(a) && OrderColumnTo(c, k) == AggTo(a, k);
      AggParens(a, k);
    }
  }

  lemma OrderPrinted(o: Option<OrderBy>, k: seq<Token>)
    requires Terminated(k) && (o.Some? ==> ValidOrderColumn(o.value.column))
    ensures Parens(OrderTo(o, k)) == OrderPairs(o) + Parens(k)
  {
    hide Parens, Then, OrderColumnTo, ValidOrderColumn, ValidName;
    if o.Some? {
      var after := if o.value.descending then Then(Keyword(KDesc), k) else k;
      ThenParens(Keyword(KDesc), k);
      var column := OrderColumnTo(o.value.column, after);
      OrderColumnPrinted(o.value.column, after);
      ThenParens(Keyword(KBy), column);
      ThenParens(Keyword(KOrder), Then(Keyword(KBy), column));
    }
  }

  lemma LimitPrinted(limit: Option<nat>, k: seq<Token>)
    requires Terminated(k)
    ensures Parens(LimitTo(limit, k)) == Parens(k)
  {
    hide Parens, Then;
    if limit.Some? {
      ThenParens(Integer(limit.value), k);
      ThenParens(Keyword(KLimit), Then(Integer(limit.value), k));
    }
  }

  lemma ClausesPrinted(s: Select, k: seq<Token>)
    requires PrintableSelect(s) && Terminated(k)
    ensures Parens(ClausesTo(s, k)) == OptionPairs(s.where) + OptionPairs(s.having) + OrderPairs(s.orderBy) + Parens(k)
  {
    hide Parens, Then, WhereTo, GroupTo, OrderTo, LimitTo, OptionPairs, OrderPairs;
    var k1 := LimitTo(s.limit, k);
    LimitPrinted(s.limit, k);
    var k2 := OrderTo(s.orderBy, k1);
    OrderPrinted(s.orderBy, k1);
    var k3 := GroupTo(s.groupBy, s.having, k2);
    GroupPrinted(s.groupBy, s.having, k2);
    WherePrinted(s.where, KWhere, k3);
  }

  lemma ColumnsPrinted(s: Select, k: seq<Token>)
    requires (s.Star() || s.columns != []) && Terminated(k)
    ensures Parens(if s.Star() then Then(Star, k) else ItemsTo(s.columns, k)) == ItemsPairs(s.columns) + Parens(k)
  {
    if s.Star() {
      assert s.columns[1..] == [] && ItemPairs(s.columns[0]) == 0;
      ThenParens(Star, k);
    } else {
      ItemsPrinted(s.columns, k);
    }
  }

  lemma SelectPrinted(s: Select, k: seq<Token>)
    requires PrintableSelect(s) && Terminated(k)
    ensures Parens(SelectTo(s, k)) == SelectPairs(s) + Parens(k)
  {
    ClausesPrinted(s, k);
    hide Parens, Then, ClausesTo, ItemsTo, ItemsPairs, OptionPairs, OrderPairs, Terminated, ValidItem, ValidOrderColumn;
    var after := Then(Keyword(KFrom), Then(Identifier(s.table), ClausesTo(s, k)));
    ThenParens(Identifier(s.table), ClausesTo(s, k));
    ThenParens(Keyword(KFrom), Then(Identifier(s.table), ClausesTo(s, k)));
    var columns := if s.Star() then Then(Star, after) else ItemsTo(s.columns, after);
    ColumnsPrinted(s, after);
    ThenParens(Keyword(KDistinct), columns);
    ThenParens(Keyword(KSelect), if s.distinct then Then(Keyword(KDistinct), columns) else columns);
  }

  // ---- Statements: what parsing takes ------------------------------------

  lemma ItemTakes(ts: seq<Token>)
    requires Terminated(ts) && ParseItem(ts).Ok?
    ensures var (i, rest) := ParseItem(ts).value; ItemPairs(i) + Parens(rest) <= Parens(ts)
  {
    hide Parens, ParseAggregate;
    if StartsAggregate(ts) { AggregateTakes(ts); } else { RestParens(ts); }
  }

  lemma {:induction false} ItemsPairsPush(items: seq<Item>, i: Item)
    ensures ItemsPairs(items + [i]) == ItemsPairs(items) + ItemPairs(i)
  {
    if items == [] {
      assert items + [i] == [i] && [i][1..] == [];
    } else {
      ItemsPairsPush(items[1..], i);
      assert (items + [i])[1..] == items[1..] + [i];
    }
  }

  lemma {:induction false} ItemsTailTakes(items: seq<Item>, ts: seq<Token>)
    requires Terminated(ts) && ItemsTail(items, ts).Ok?
    ensures var (all, rest) := ItemsTail(items, ts).value; ItemsPairs(all) + Parens(rest) <= ItemsPairs(items) + Parens(ts)
    decreases |ts|
  {
    hide Parens, ParseItem, ItemsPairs, ItemPairs;
    if ts[0] == Comma {
      RestParens(ts);
      ItemTakes(Rest(ts));
      var (item, rest) := ParseItem(Rest(ts)).value;
      ItemsPairsPush(items, item);
      ItemsTailTakes(items + [item], rest);
    }
  }

  lemma ItemsTake(ts: seq<Token>)
    requires Terminated(ts) && ParseItems(ts).Ok?
    ensures var (items, rest) := ParseItems(ts).value; ItemsPairs(items) + Parens(rest) <= Parens(ts)
  {
    hide Parens, ParseItem, ItemPairs;
    if ts[0] == Star {
      RestParens(ts);
      assert ItemPairs(Column("*")) == 0 by { OneColumn(); }
      assert [Column("*")][1..] == [];
    } else {
      ItemTakes(ts);
      var (item, rest) := ParseItem(ts).value;
      assert [item][1..] == [] && ItemsPairs([item]) == ItemPairs(item);
      hide ItemsPairs;
      ItemsTailTakes([item], rest);
    }
  }

  lemma OneColumn()
    ensures ItemPairs(Column("*")) == 0
  {
  }

  lemma {:induction false} NamesTailTakes(names: seq<string>, ts: seq<Token>)
    requires Terminated(ts) && NamesTail(names, ts).Ok?
    ensures Parens(NamesTail(names, ts).value.1) <= Parens(ts)
    decreases |ts|
  {
    hide Parens;
    if ts[0] == Comma {
      RestParens(ts);
      var (name, rest) := ExpectName(Rest(ts)).value;
      RestParens(Rest(ts));
      NamesTailTakes(names + [name], rest);
    }
  }

  lemma WhereTakes(ts: seq<Token>, kw: Kw)
    requires Terminated(ts) && ValidTokens(ts) && ParseWhere(ts, kw).Ok?
    ensures var (e, rest) := ParseWhere(ts, kw).value; OptionPairs(e) + Parens(rest) <= Parens(ts)
  {
    hide Parens, ParseOr, Pairs;
    if IsKw(ts, kw) {
      RestParens(ts);
      ValidRest(ts);
      OrTakes(Rest(ts));
    }
  }

  lemma GroupTakes(ts: seq<Token>)
    requires Terminated(ts) && ValidTokens(ts) && ParseGroup(ts).Ok?
    ensures var ((names, having), rest) := ParseGroup(ts).value; OptionPairs(having) + Parens(rest) <= Parens(ts)
  {
    hide Parens, ParseWhere, NamesTail, Pairs;
    if IsKw(ts, KGroup) {
      RestParens(ts);
      ValidRest(ts);
      var a := Rest(ts);
      RestParens(a);
      ValidRest(a);
      var b := Rest(a);
      RestParens(b);
      ValidRest(b);
      var (name, c) := ExpectName(b).value;
      NamesTailTakes([name], c);
      NamesTailValid([name], c);
      WhereTakes(NamesTail([name], c).value.1, KHaving);
    }
  }

  lemma OrderTakes(ts: seq<Token>)
    requires Terminated(ts) && ValidTokens(ts) && ParseOrder(ts).Ok?
    ensures var (o, rest) := ParseOrder(ts).value; OrderPairs(o) + Parens(rest) <= Parens(ts)
  {
    hide Parens, ParseAggregate, ValidName;
    if IsKw(ts, KOrder) {
      RestParens(ts);
      ValidRest(ts);
      var a := Rest(ts);
      RestParens(a);
      ValidRest(a);
      var b := Rest(a);
      OrderColumnTakes(b);
      var (column, c) := ParseOrderColumn(b).value;
      hide ParseOrderColumn;
      if c[0] != Eof { RestParens(c); }
    }
  }

  lemma OrderColumnTakes(ts: seq<Token>)
    requires Terminated(ts) && ValidTokens(ts) && ParseOrderColumn(ts).Ok?
    ensures var (c, rest) := ParseOrderColumn(ts).value; (if ValidName(c) then 0 else 1) + Parens(rest) <= Parens(ts)
  {
    hide Parens, ParseAggregate, ValidName;
    if StartsAggregate(ts) {
      AggregateTakes(ts);
    } else {
      RestParens(ts);
      ValidRest(ts);
    }
  }

  lemma LimitTakes(ts: seq<Token>)
    requires Terminated(ts) && ParseLimit(ts).Ok?
    ensures Parens(ParseLimit(ts).value.1) <= Parens(ts)
  {
    hide Parens;
    if IsKw(ts, KLimit) {
      RestParens(ts);
      RestParens(Rest(ts));
    }
  }

  lemma ClausesTake(columns: seq<Item>, table: string, distinct: bool, ts: seq<Token>)
    requires Terminated(ts) && ValidTokens(ts) && ParseClauses(columns, table, distinct, ts).Ok?
    ensures var s := ParseClauses(columns, table, distinct, ts).value;
      s.columns == columns && OptionPairs(s.where) + OptionPairs(s.having) + OrderPairs(s.orderBy) <= Parens(ts)
  {
    hide Parens, ParseWhere, ParseGroup, ParseOrder, ParseLimit, OptionPairs, OrderPairs;
    WhereTakes(ts, KWhere);
    WhereValid(ts, KWhere);
    var a := ParseWhere(ts, KWhere).value.1;
    GroupTakes(a);
    GroupValid(a);
    var b := ParseGroup(a).value.1;
    OrderTakes(b);
    OrderValid(b);
    LimitTakes(ParseOrder(b).value.1);
  }

  lemma SelectTakes(ts: seq<Token>)
    requires Terminated(ts) && ValidTokens(ts) && ParseSelect(ts).Ok?
    ensures SelectPairs(ParseSelect(ts).value) <= Parens(ts)
  {
    hide Parens, ParseItems, ParseClauses, ItemsPairs, OptionPairs, OrderPairs;
    RestParens(ts);
    ValidRest(ts);
    var a := Rest(ts);
    var a1 := if IsKw(a, KDistinct) then Rest(a) else a;
    if IsKw(a, KDistinct) { RestParens(a); ValidRest(a); }
    ItemsTake(a1);
    ItemsValid(a1);
    var (columns, b) := ParseItems(a1).value;
    RestParens(b);
    ValidRest(b);
    var c := Rest(b);
    RestParens(c);
    ValidRest(c);
    ClausesTake(columns, c[0].name, IsKw(a, KDistinct), Rest(c));
  }

  // ---- Every query text --------------------------------------------------

  lemma OnlyEof()
    ensures Terminated([Eof]) && Parens([Eof]) == 0
  {
    assert [Eof][1..] == [];
  }

  lemma StatementPrinted(st: Statement)
    requires PrintableSelect(st.select)
    ensures Parens(StatementTokens(st)) == SelectPairs(st.select)
  {
    OnlyEof();
    hide Parens, SelectTo, SelectPairs, Then, PrintableSelect, Terminated;
    SelectPrinted(st.select, [Eof]);
    ThenParens(Keyword(KExplain), SelectTo(st.select, [Eof]));
  }

  lemma StatementTakes(ts: seq<Token>)
    requires Terminated(ts) && ValidTokens(ts) && ParseStatement(ts).Ok?
    ensures SelectPairs(ParseStatement(ts).value.select) <= Parens(ts)
  {
    hide Parens, ParseSelect, SelectPairs;
    if IsKw(ts, KExplain) {
      RestParens(ts);
      ValidRest(ts);
      SelectTakes(Rest(ts));
    } else {
      SelectTakes(ts);
    }
  }

  /** No text of a query has fewer parentheses than the printed one: take any of those away, and what is left means
      something else, if anything. */
  lemma PrintedFewest(sql: string)
    requires ParseText(sql).Ok?
    ensures PrintableSelect(ParseText(sql).value.select) && Lex(Print(ParseText(sql).value)).Ok?
    ensures Parens(Lex(Print(ParseText(sql).value)).value) <= Parens(Lex(sql).value)
  {
    var ts := Lex(sql).value;
    LexTerminates(sql);
    LexValid(sql);
    hide Parens, ParseStatement, StatementTokens, SelectPairs, PrintableSelect, Lex, Render;
    StatementValid(ts);
    var st := ParseStatement(ts).value;
    StatementTokensValid(st);
    LexRender(StatementTokens(st));
    StatementPrinted(st);
    StatementTakes(ts);
  }
}
