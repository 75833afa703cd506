/** Printing whole statements, and parsing them back. */
module Statements {
  import opened Wrappers
  import opened Ast
  import opened Lexer
  import opened Grammar
  import opened Printer

  predicate ValidItem(i: Item) {
    if i.AggItem? then ValidAgg(i.agg) else ValidName(i.name)
  }

  ghost predicate ValidOrderColumn(c: string) {
    ValidName(c) || exists a :: ValidAgg(a) && c == AggLabel(a)
  }

  predicate PrintableOption(e: Option<Expr>) {
    e.Some? ==> Printable(e.value)
  }

  /** SELECT statements that some query text denotes. */
  ghost predicate PrintableSelect(s: Select) {
    && (s.Star() || (s.columns != [] && forall i :: 0 <= i < |s.columns| ==> ValidItem(s.columns[i])))
    && ValidName(s.table) && PrintableOption(s.where)
    && (forall i :: 0 <= i < |s.groupBy| ==> ValidName(s.groupBy[i]))
    && PrintableOption(s.having) && (s.having.Some? ==> s.groupBy != [])
    && (s.orderBy.Some? ==> ValidOrderColumn(s.orderBy.value.column))
  }

  // ---- Lists -------------------------------------------------------------

  function ItemTo(i: Item, k: seq<Token>): (r: seq<Token>)
    requires Terminated(k)
    ensures Terminated(r)
  {
    if i.AggItem? then AggTo(i.agg, k) else Then(Identifier(i.name), k)
  }

  function ItemsTo(items: seq<Item>, k: seq<Token>): (r: seq<Token>)
    requires items != [] && Terminated(k)
    ensures Terminated(r)
  {
    if |items| == 1 then ItemTo(items[0], k) else ItemTo(items[0], Then(Comma, ItemsTo(items[1..], k)))
  }

  function NamesTo(names: seq<string>, k: seq<Token>): (r: seq<Token>)
    requires names != [] && Terminated(k)
    ensures Terminated(r)
  {
    if |names| == 1 then Then(Identifier(names[0]), k)
    else Then(Identifier(names[0]), Then(Comma, NamesTo(names[1..], k)))
  }

  lemma ItemBack(i: Item, k: seq<Token>)
    requires ValidItem(i) && Terminated(k)
    ensures ParseItem(ItemTo(i, k)) == Ok((i, k)) && ItemTo(i, k)[0] != Star
  {
    if i.AggItem? { AggregateBack(i.agg, k); }
  }

  lemma {:induction false} ItemsTailBack(done: seq<Item>, items: seq<Item>, k: seq<Token>)
    requires items != [] && Terminated(k) && k[0] != Comma
    requires forall i :: 0 <= i < |items| ==> ValidItem(items[i])
    ensures ItemsTail(done, Then(Comma, ItemsTo(items, k))) == Ok((done + items, k))
    decreases |items|
  {
    hide ItemTo;
    hide ParseItem;
    if |items| == 1 {
      ItemBack(items[0], k);
      assert done + [items[0]] == done + items;
    } else {
      var k1 := Then(Comma, ItemsTo(items[1..], k));
      ItemBack(items[0], k1);
      ItemsTailBack(done + [items[0]], items[1..], k);
      assert (done + [items[0]]) + items[1..] == done + items;
    }
  }

  lemma ItemsBack(items: seq<Item>, k: seq<Token>)
    requires items != [] && Terminated(k) && k[0] != Comma
    requires forall i :: 0 <= i < |items| ==> ValidItem(items[i])
    ensures ParseItems(ItemsTo(items, k)) == Ok((items, k))
  {
    hide Terminated;
    hide Then;
    hide Rest;
    if |items| == 1 {
      ItemBack(items[0], k);
      assert [items[0]] == items;
    } else {
      var k1 := Then(Comma, ItemsTo(items[1..], k));
      ItemBack(items[0], k1);
      ItemsTailBack([items[0]], items[1..], k);
      assert [items[0]] + items[1..] == items;
    }
  }

  lemma {:induction false} NamesTailBack(done: seq<string>, names: seq<string>, k: seq<Token>)
    requires names != [] && Terminated(k) && k[0] != Comma
    ensures NamesTail(done, Then(Comma, NamesTo(names, k))) == Ok((done + names, k))
    decreases |names|
  {
    if |names| == 1 {
      assert done + [names[0]] == done + names;
    } else {
      NamesTailBack(done + [names[0]], names[1..], k);
      assert (done + [names[0]]) + names[1..] == done + names;
    }
  }

  lemma NamesBack(names: seq<string>, k: seq<Token>)
    requires names != [] && Terminated(k) && k[0] != Comma
    ensures ParseNames(NamesTo(names, k)) == Ok((names, k))
  {
    hide Terminated;
    hide Then;
    hide Rest;
    if |names| == 1 {
      assert [names[0]] == names;
    } else {
      NamesTailBack([names[0]], names[1..], k);
      assert [names[0]] + names[1..] == names;
    }
  }

  // ---- Clauses -----------------------------------------------------------

  /** The clauses in the order of the grammar. */
  function Rank(k: seq<Token>): nat
    requires Terminated(k)
  {
    if IsKw(k, KWhere) then 0 else if IsKw(k, KGroup) then 1 else if IsKw(k, KHaving) then 2
    else if IsKw(k, KOrder) then 3 else if IsKw(k, KLimit) then 4 else if k[0] == Eof then 5 else 6
  }

  /** `k` starts with a clause no earlier than this one, or is the end. */
  predicate From(k: seq<Token>, rank: nat)
    requires Terminated(k)
  {
    rank <= Rank(k) <= 5
  }

  function LimitTo(limit: Option<nat>, k: seq<Token>): (r: seq<Token>)
    requires Terminated(k)
    ensures Terminated(r)
  {
    if limit == None then k else Then(Keyword(KLimit), Then(Integer(limit.value), k))
  }

  ghost function OrderColumnTo(c: string, k: seq<Token>): (r: seq<Token>)
    requires ValidOrderColumn(c) && Terminated(k)
    ensures Terminated(r)
  {
    if ValidName(c) then Then(Identifier(c), k)
    else
      var a :| ValidAgg(a) && c == AggLabel(a);
      AggTo(a, k)
  }

  ghost function OrderTo(o: Option<OrderBy>, k: seq<Token>): (r: seq<Token>)
    requires Terminated(k) && (o.Some? ==> ValidOrderColumn(o.value.column))
    ensures Terminated(r)
  {
    if o == None then k
    else
      var after := if o.value.descending then Then(Keyword(KDesc), k) else k;
      Then(Keyword(KOrder), Then(Keyword(KBy), OrderColumnTo(o.value.column, after)))
  }

  function WhereTo(e: Option<Expr>, kw: Kw, k: seq<Token>): (r: seq<Token>)
    requires PrintableOption(e) && Terminated(k)
    ensures Terminated(r)
  {
    if e == None then k else Then(Keyword(kw), PrintAt(e.value, 0, k))
  }

  function GroupTo(groupBy: seq<string>, having: Option<Expr>, k: seq<Token>): (r: seq<Token>)
    requires PrintableOption(having) && Terminated(k)
    ensures Terminated(r)
  {
    if groupBy == [] then k
    else Then(Keyword(KGroup), Then(Keyword(KBy), NamesTo(groupBy, WhereTo(having, KHaving, k))))
  }

  lemma LimitBack(limit: Option<nat>, k: seq<Token>)
    requires Terminated(k) && From(k, 5)
    ensures ParseLimit(LimitTo(limit, k)) == Ok((limit, k)) && From(LimitTo(limit, k), 4)
  {
  }

  lemma OrderColumnBack(c: string, k: seq<Token>)
    requires ValidOrderColumn(c) && Terminated(k)
    ensures ParseOrderColumn(OrderColumnTo(c, k)) == Ok((c, k))
  {
    if !ValidName(c) {
      var a :| ValidAgg(a) && c == AggLabel(a) && OrderColumnTo(c, k) == AggTo(a, k);
      AggregateBack(a, k);
    }
  }

  lemma DirectionBack(descending: bool, k: seq<Token>)
    requires Terminated(k) && From(k, 4)
    ensures ParseDirection(if descending then Then(Keyword(KDesc), k) else k) == (descending, k)
  {
  }

  lemma OrderFrom(ts: seq<Token>, column: string, after: seq<Token>, descending: bool, k: seq<Token>)
    requires Terminated(ts) && Terminated(after) && Terminated(k)
    requires ParseOrderColumn(ts) == Ok((column, after)) && ParseDirection(after) == (descending, k)
    ensures var whole := Then(Keyword(KOrder), Then(Keyword(KBy), ts));
      ParseOrder(whole) == Ok((Some(OrderBy(column, descending)), k)) && From(whole, 3)
  {
    hide Terminated;
    hide Then;
    hide Rest;
    hide ParseDirection;
    hide ParseOrderColumn;
  }

  lemma OrderClauseBack(o: Option<OrderBy>, k: seq<Token>)
    requires Terminated(k) && From(k, 4) && (o.Some? ==> ValidOrderColumn(o.value.column))
    ensures ParseOrder(OrderTo(o, k)) == Ok((o, k)) && From(OrderTo(o, k), 3)
  {
    hide Terminated;
    hide Then;
    hide Rest;
    hide ParseDirection;
    hide OrderColumnTo;
    hide ValidOrderColumn;
    if o.Some? {
      var after := if o.value.descending then Then(Keyword(KDesc), k) else k;
      DirectionBack(o.value.descending, k);
      OrderColumnBack(o.value.column, after);
      OrderFrom(OrderColumnTo(o.value.column, after), o.value.column, after, o.value.descending, k);
      hide ParseOrder;
    }
  }

  lemma WhereBack(e: Option<Expr>, kw: Kw, k: seq<Token>)
    requires kw in {KWhere, KHaving} && PrintableOption(e) && Terminated(k)
    requires From(k, if kw == KWhere then 1 else 3)
    ensures ParseWhere(WhereTo(e, kw, k), kw) == Ok((e, k))
    ensures From(WhereTo(e, kw, k), if kw == KWhere then 0 else 2)
  {
    hide Terminated;
    hide Then;
    hide Rest;
    if e.Some? { ExpressionBack(e.value, k); }
  }

  lemma GroupBack(groupBy: seq<string>, having: Option<Expr>, k: seq<Token>)
    requires PrintableOption(having) && (having.Some? ==> groupBy != []) && Terminated(k) && From(k, 3)
    ensures ParseGroup(GroupTo(groupBy, having, k)) == Ok(((groupBy, having), k))
    ensures From(GroupTo(groupBy, having, k), 1)
  {
    hide Terminated;
    hide Then;
    hide Rest;
    if groupBy != [] {
      var k1 := WhereTo(having, KHaving, k);
      WhereBack(having, KHaving, k);
      NamesBack(groupBy, k1);
      hide WhereTo;
      hide ParseWhere;
      hide NamesTo;
      hide ParseNames;
    }
  }

  // ---- Statements --------------------------------------------------------

  ghost function ClausesTo(s: Select, k: seq<Token>): (r: seq<Token>)
    requires PrintableSelect(s) && Terminated(k)
    ensures Terminated(r)
  {
    WhereTo(s.where, KWhere, GroupTo(s.groupBy, s.having, OrderTo(s.orderBy, LimitTo(s.limit, k))))
  }

  lemma ClausesBack(s: Select, k: seq<Token>)
    requires PrintableSelect(s) && Terminated(k) && k[0] == Eof
    ensures ParseClauses(s.columns, s.table, s.distinct, ClausesTo(s, k)) == Ok(s)
  {
    hide Terminated;
    hide Then;
    hide Rest;
    var k1 := LimitTo(s.limit, k);
    LimitBack(s.limit, k);
    var k2 := OrderTo(s.orderBy, k1);
    OrderClauseBack(s.orderBy, k1);
    var k3 := GroupTo(s.groupBy, s.having, k2);
    GroupBack(s.groupBy, s.having, k2);
    WhereBack(s.where, KWhere, k3);
    hide ParseWhere;
    hide ParseGroup;
    hide ParseOrder;
    hide ParseLimit;
    hide WhereTo;
    hide GroupTo;
    hide OrderTo;
    hide LimitTo;
  }

  /** The tokens of a SELECT. */
  ghost function SelectTo(s: Select, k: seq<Token>): (r: seq<Token>)
    requires PrintableSelect(s) && Terminated(k)
    ensures Terminated(r)
  {
    var after := Then(Keyword(KFrom), Then(Identifier(s.table), ClausesTo(s, k)));
    var columns := if s.Star() then Then(Star, after) else ItemsTo(s.columns, after);
    Then(Keyword(KSelect), if s.distinct then Then(Keyword(KDistinct), columns) else columns)
  }

  lemma ColumnsBack(s: Select, after: seq<Token>)
    requires PrintableSelect(s) && Terminated(after) && after[0] != Comma
    ensures var columns := if s.Star() then Then(Star, after) else ItemsTo(s.columns, after);
      ParseItems(columns) == Ok((s.columns, after)) && !IsKw(columns, KDistinct)
  {
    if !s.Star() {
      ItemsBack(s.columns, after);
    }
  }

  lemma SelectBack(s: Select, k: seq<Token>)
    requires PrintableSelect(s) && Terminated(k) && k[0] == Eof
    ensures ParseSelect(SelectTo(s, k)) == Ok(s)
  {
    hide Terminated;
    hide Then;
    hide Rest;
    var after := Then(Keyword(KFrom), Then(Identifier(s.table), ClausesTo(s, k)));
    ColumnsBack(s, after);
    ClausesBack(s, k);
    hide ParseItems;
    hide ItemsTo;
    hide ParseClauses;
    hide ClausesTo;
    hide PrintableSelect;
    hide ValidName;
  }

  /** The tokens of a statement, with EOF. */
  ghost function StatementTokens(st: Statement): (r: seq<Token>)
    requires PrintableSelect(st.select)
    ensures Terminated(r)
  {
    var tokens := SelectTo(st.select, [Eof]);
    if st.Explain? then Then(Keyword(KExplain), tokens) else tokens
  }

  /** Parsing the tokens of a printable statement gives the statement. */
  lemma StatementBack(st: Statement)
    requires PrintableSelect(st.select)
    ensures ParseStatement(StatementTokens(st)) == Ok(st)
  {
    SelectBack(st.select, [Eof]);
    hide Terminated;
    hide Then;
    hide Rest;
    hide ParseSelect;
  }
}
