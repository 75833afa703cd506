/** From filtered rows to a result: aggregation, DISTINCT, ORDER BY, LIMIT, projection (packetql/query/executor.py). */
module Finish {
  import opened Wrappers
  import opened Seqs
  import opened Ast
  import opened Relation
  import opened Columnar
  import TopN

  /** A filtered row: the values of the read columns, in their order. */
  type Row = seq<int>

  type OutRow = seq<real>

  datatype QueryError =
    | UnknownTable | UnknownColumn | StarWithGroups | NotGrouped | NotSelected | BadHaving | KeyError | TypeError
    | IndexFailed

  datatype Output = Output(columns: seq<string>, rows: seq<OutRow>)

  /** `r[ridx[c]]` */
  function Get(cols: seq<string>, c: string, r: Row): int {
    if c in cols && IndexOf(cols, c) < |r| then r[IndexOf(cols, c)] else 0
  }

  function Getter(cols: seq<string>, c: string): Row -> int {
    r => Get(cols, c, r)
  }

  function SortKey(cols: seq<string>, c: string): Row -> real {
    r => Get(cols, c, r) as real
  }

  function GroupKey(cols: seq<string>, groupBy: seq<string>, r: Row): seq<int> {
    seq(|groupBy|, i requires 0 <= i < |groupBy| => Get(cols, groupBy[i], r))
  }

  function KeyOf(cols: seq<string>, groupBy: seq<string>): Row -> seq<int> {
    r => GroupKey(cols, groupBy, r)
  }

  function Project(cols: seq<string>, outCols: seq<string>, r: Row): OutRow {
    seq(|outCols|, i requires 0 <= i < |outCols| => Get(cols, outCols[i], r) as real)
  }

  function Projector(cols: seq<string>, outCols: seq<string>): Row -> OutRow {
    r => Project(cols, outCols, r)
  }

  function OutCell(i: nat): OutRow -> real {
    r => if i < |r| then r[i] else 0.0
  }

  function Take<T>(s: seq<T>, limit: Option<nat>): seq<T> {
    if limit.Some? && limit.value < |s| then s[..limit.value] else s
  }

  // ---- Aggregates --------------------------------------------------------

  function MinOf(s: seq<int>): (m: int)
    requires s != []
    ensures m in s && forall x :: x in s ==> m <= x
  {
    var n := |s| - 1;
    if n == 0 then s[0]
    else
      var m := MinOf(s[..n]);
      assert s == s[..n] + [s[n]];
      if s[n] < m then s[n] else m
  }

  function MaxOf(s: seq<int>): (m: int)
    requires s != []
    ensures m in s && forall x :: x in s ==> x <= m
  {
    var n := |s| - 1;
    if n == 0 then s[0]
    else
      var m := MaxOf(s[..n]);
      assert s == s[..n] + [s[n]];
      if s[n] > m then s[n] else m
  }

  /** `_compute_agg`: over no rows everything is zero. */
  function ComputeAgg(a: Agg, group: seq<Row>, cols: seq<string>): Result<real, QueryError> {
    if a.func == Count then Ok(|group| as real)
    else if group == [] then Ok(0.0)
    else if a.arg == None then Err(KeyError)
    else
      var vals := Map(Getter(cols, a.arg.value), group);
      if a.func == Func.Sum then Ok(Seqs.Sum(vals) as real)
      else if a.func == Avg then Ok(Seqs.Sum(vals) as real / |vals| as real)
      else if a.func == Func.Min then Ok(MinOf(vals) as real)
      else Ok(MaxOf(vals) as real)
  }

  // ---- HAVING ------------------------------------------------------------

  datatype Scalar = Num(x: real) | Text(s: string)

  /** Python's order of strings. */
  predicate StrLess(a: string, b: string) {
    if b == "" then false else if a == "" then true
    else if a[0] != b[0] then a[0] < b[0] else StrLess(a[1..], b[1..])
  }

  function CompareScalars(op: Op, a: Scalar, b: Scalar): Result<bool, QueryError> {
    if op == Eq then Ok(a == b)
    else if op == Ne then Ok(a != b)
    else if a.Num? != b.Num? then Err(TypeError)
    else
      var less := if a.Num? then a.x < b.x else StrLess(a.s, b.s);
      match op
      case Lt => Ok(less)
      case Le => Ok(less || a == b)
      case Gt => Ok(!less && a != b)
      case _ => Ok(!less)
  }

  /** `_having_value` */
  function HavingValue(e: Expr, group: seq<Row>, cols: seq<string>, groupBy: seq<string>): Result<Scalar, QueryError> {
    match e
    case Aggregate(a) =>
      var x :- ComputeAgg(a, group, cols);
      Ok(Num(x))
    case Literal(v) =>
      if IsNumber(v) then Ok(Num(NumberOf(v))) else if v.StrV? then Ok(Text(v.s)) else Err(BadHaving)
    case ColumnRef(c) =>
      if c !in groupBy then Err(NotGrouped)
      else if group == [] then Err(KeyError)
      else Ok(Num(Get(cols, c, group[0]) as real))
    case _ => Err(BadHaving)
  }

  /** `_eval_having`: AND and OR stop at the first operand that decides. */
  function EvalHaving(e: Expr, group: seq<Row>, cols: seq<string>, groupBy: seq<string>): Result<bool, QueryError> {
    match e
    case BinaryOp(op, l, r) =>
      if IsComparison(op) then
        var a :- HavingValue(l, group, cols, groupBy);
        var b :- HavingValue(r, group, cols, groupBy);
        CompareScalars(op, a, b)
      else if op == AndOp then
        var a :- EvalHaving(l, group, cols, groupBy);
        if !a then Ok(false) else EvalHaving(r, group, cols, groupBy)
      else if op == OrOp then
        var a :- EvalHaving(l, group, cols, groupBy);
        if a then Ok(true) else EvalHaving(r, group, cols, groupBy)
      else Err(BadHaving)
    case Not(x) =>
      var a :- EvalHaving(x, group, cols, groupBy);
      Ok(!a)
    case _ => Err(BadHaving)
  }

  // ---- The aggregated path -----------------------------------------------

  function LabelOf(i: Item): string {
    if i.AggItem? then AggLabel(i.agg) else i.name
  }

  function Labels(items: seq<Item>): (labels: seq<string>)
    ensures |labels| == |items|
  {
    seq(|items|, i requires 0 <= i < |items| => LabelOf(items[i]))
  }

  predicate PlainGrouped(items: seq<Item>, groupBy: seq<string>) {
    forall i :: 0 <= i < |items| && items[i].Column? ==> items[i].name in groupBy
  }

  function ItemCell(item: Item, group: seq<Row>, cols: seq<string>): Result<real, QueryError> {
    if item.AggItem? then ComputeAgg(item.agg, group, cols)
    else if group == [] then Err(KeyError)
    else Ok(Get(cols, item.name, group[0]) as real)
  }

  /** The output row of one group. */
  function GroupRow(items: seq<Item>, group: seq<Row>, cols: seq<string>): Result<OutRow, QueryError> {
    if items == [] then Ok([])
    else
      var n := |items| - 1;
      var init :- GroupRow(items[..n], group, cols);
      var last :- ItemCell(items[n], group, cols);
      Ok(init + [last])
  }

  function Passes(having: Option<Expr>, group: seq<Row>, cols: seq<string>, groupBy: seq<string>): Result<bool, QueryError> {
    if having == None then Ok(true) else EvalHaving(having.value, group, cols, groupBy)
  }

  /** The rows of the groups that pass HAVING, in key order. */
  function GroupRows(sel: Select, keys: seq<seq<int>>, rows: seq<Row>, cols: seq<string>): Result<seq<OutRow>, QueryError> {
    if keys == [] then Ok([])
    else
      var n := |keys| - 1;
      var init :- GroupRows(sel, keys[..n], rows, cols);
      var group := GroupOf(rows, KeyOf(cols, sel.groupBy), keys[n]);
      var pass :- Passes(sel.having, group, cols, sel.groupBy);
      if !pass then Ok(init)
      else
        var row :- GroupRow(sel.columns, group, cols);
        Ok(init + [row])
  }

  /** Distinct keys by first appearance; without GROUP BY there is always one group. */
  function OutputKeys(groupBy: seq<string>, rows: seq<Row>, cols: seq<string>): seq<seq<int>> {
    var keys := GroupKeys(rows, KeyOf(cols, groupBy));
    if groupBy == [] && keys == [] then [[]] else keys
  }

  /** `_order_limit_labeled` */
  function OrderLimit(rows: seq<OutRow>, labels: seq<string>, orderBy: Option<OrderBy>, limit: Option<nat>)
    : Result<seq<OutRow>, QueryError>
  {
    if orderBy == None then Ok(Take(rows, limit))
    else if orderBy.value.column !in labels then Err(NotSelected)
    else
      var i := IndexOf(labels, orderBy.value.column);
      Ok(Take(SortBy(rows, OutCell(i), orderBy.value.descending), limit))
  }

  function AggregateFinish(sel: Select, rows: seq<Row>, cols: seq<string>): Result<Output, QueryError> {
    if sel.Star() then Err(StarWithGroups)
    else if !PlainGrouped(sel.columns, sel.groupBy) then Err(NotGrouped)
    else
      var labels := Labels(sel.columns);
      var rows :- GroupRows(sel, OutputKeys(sel.groupBy, rows, cols), rows, cols);
      var shown :- OrderLimit(if sel.distinct then Dedup(rows) else rows, labels, sel.orderBy, sel.limit);
      Ok(Output(labels, shown))
  }

  // ---- The plain path ----------------------------------------------------

  function OutColumns(sel: Select): seq<string> {
    if sel.Star() then COLUMN_NAMES else Labels(sel.columns)
  }

  /** Ordering may use unselected columns; with a limit the heap selects, otherwise everything is sorted. */
  function Kept(sel: Select, rows: seq<Row>, cols: seq<string>): seq<Row> {
    if sel.orderBy == None then Take(rows, sel.limit)
    else
      var key := SortKey(cols, sel.orderBy.value.column);
      if sel.limit.Some? then TopN.Top(rows, sel.limit.value, key, sel.orderBy.value.descending)
      else SortBy(rows, key, sel.orderBy.value.descending)
  }

  function PlainFinish(sel: Select, rows: seq<Row>, cols: seq<string>): Result<Output, QueryError> {
    var outCols := OutColumns(sel);
    if sel.distinct then
      var shown :- OrderLimit(Dedup(Map(Projector(cols, outCols), rows)), outCols, sel.orderBy, sel.limit);
      Ok(Output(outCols, shown))
    else Ok(Output(outCols, Map(Projector(cols, outCols), Kept(sel, rows, cols))))
  }

  predicate IsAggregated(sel: Select) {
    sel.groupBy != [] || exists i :: 0 <= i < |sel.columns| && sel.columns[i].AggItem?
  }

  /** `_finish` */
  function FinishRows(sel: Select, rows: seq<Row>, cols: seq<string>): Result<Output, QueryError> {
    if IsAggregated(sel) then AggregateFinish(sel, rows, cols) else PlainFinish(sel, rows, cols)
  }

  // ---- The executor's loops ----------------------------------------------

  method RunAggregateFinish(sel: Select, rows: seq<Row>, cols: seq<string>) returns (r: Result<Output, QueryError>)
    ensures r == AggregateFinish(sel, rows, cols)
  {
    if sel.Star() { return Err(StarWithGroups); }
    for i := 0 to |sel.columns|
      invariant PlainGrouped(sel.columns[..i], sel.groupBy)
    {
      if sel.columns[i].Column? && sel.columns[i].name !in sel.groupBy { return Err(NotGrouped); }
    }
    assert sel.columns[..|sel.columns|] == sel.columns;
    var groups, order := HashGroup(rows, KeyOf(cols, sel.groupBy));
    if sel.groupBy == [] && order == [] {
      NoGroup(rows, KeyOf(cols, sel.groupBy));
      groups := groups[[] := []];
      order := [[]];
    }
    var out := CollectRows(sel, groups, order, rows, cols);
    if out.Err? { return Err(out.error); }
    var shown := out.value;
    if sel.distinct { shown := DedupRows(shown); }
    var ordered := OrderLimit(shown, Labels(sel.columns), sel.orderBy, sel.limit);
    r := if ordered.Ok? then Ok(Output(Labels(sel.columns), ordered.value)) else Err(ordered.error);
  }

  lemma NoGroup<K>(rows: seq<Row>, key: Row -> K)
    requires GroupKeys(rows, key) == []
    ensures forall k :: GroupOf(rows, key, k) == []
  {
    forall k ensures GroupOf(rows, key, k) == [] { GroupKeysExact(rows, key, k); }
  }

  method CollectRows(sel: Select, groups: map<seq<int>, seq<Row>>, order: seq<seq<int>>, ghost rows: seq<Row>, cols: seq<string>)
      returns (r: Result<seq<OutRow>, QueryError>)
    requires forall i :: 0 <= i < |order| ==>
      order[i] in groups && groups[order[i]] == GroupOf(rows, KeyOf(cols, sel.groupBy), order[i])
    ensures r == GroupRows(sel, order, rows, cols)
  {
    var out: seq<OutRow> := [];
    for i := 0 to |order|
      invariant GroupRows(sel, order[..i], rows, cols) == Ok(out)
    {
      assert order[..i + 1][..i] == order[..i] && order[..i + 1][i] == order[i];
      var group := groups[order[i]];
      var pass := Passes(sel.having, group, cols, sel.groupBy);
      if pass.Err? {
        GroupRowsFail(sel, order, i + 1, rows, cols);
        return Err(pass.error);
      }
      if pass.value {
        var row := GroupRow(sel.columns, group, cols);
        if row.Err? {
          GroupRowsFail(sel, order, i + 1, rows, cols);
          return Err(row.error);
        }
        out := out + [row.value];
      }
    }
    assert order[..|order|] == order;
    r := Ok(out);
  }

  lemma {:induction false} GroupRowsFail(sel: Select, keys: seq<seq<int>>, k: nat, rows: seq<Row>, cols: seq<string>)
    requires k <= |keys| && GroupRows(sel, keys[..k], rows, cols).Err?
    ensures GroupRows(sel, keys, rows, cols) == GroupRows(sel, keys[..k], rows, cols)
  {
    if k < |keys| {
      assert keys[..|keys| - 1][..k] == keys[..k];
      GroupRowsFail(sel, keys[..|keys| - 1], k, rows, cols);
    } else {
      assert keys[..k] == keys;
    }
  }

  method RunFinish(sel: Select, rows: seq<Row>, cols: seq<string>) returns (r: Result<Output, QueryError>)
    ensures r == FinishRows(sel, rows, cols)
  {
    if IsAggregated(sel) {
      r := RunAggregateFinish(sel, rows, cols);
      return;
    }
    var outCols := OutColumns(sel);
    if sel.distinct {
      var projected := DedupRows(Map(Projector(cols, outCols), rows));
      var ordered := OrderLimit(projected, outCols, sel.orderBy, sel.limit);
      return if ordered.Ok? then Ok(Output(outCols, ordered.value)) else Err(ordered.error);
    }
    var kept := rows;
    if sel.orderBy.Some? {
      var key, descending := SortKey(cols, sel.orderBy.value.column), sel.orderBy.value.descending;
      if sel.limit.Some? {
        kept := TopN.SelectTop(rows, sel.limit.value, key, descending);
      } else {
        kept := SortBy(rows, key, descending);
      }
    } else if sel.limit.Some? {
      kept := Take(rows, sel.limit);
    }
    r := Ok(Output(outCols, Map(Projector(cols, outCols), kept)));
  }
}
