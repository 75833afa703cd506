/** Running a query over a store, with or without indexes (packetql/query/executor.py, packetql/index/access.py). */
module Engine {
  import opened Wrappers
  import opened Seqs
  import Bytes
  import opened Ast
  import opened Predicate
  import opened IndexPlan
  import opened IndexLog
  import opened Columnar
  import opened Slices
  import opened Store
  import opened Finish
  import opened Planner
  import Bits
  import Indexes
  import Text
  import Trie
  import Bitmap

  const BATCH_ROWS: nat := 1024

  // ---- Meaning -----------------------------------------------------------

  predicate WhereTyped(where: Option<Expr>) {
    where.Some? ==> Typed(where.value)
  }

  ghost predicate WhereReads(where: Option<Expr>, t: Columns, n: nat) {
    where.Some? ==> forall i :: 0 <= i < n ==> HasRow(t, ColumnsIn(where.value), i)
  }

  predicate PassesWhere(where: Option<Expr>, t: Columns, i: nat)
    requires WhereTyped(where) && (where.Some? ==> HasRow(t, ColumnsIn(where.value), i))
  {
    where == None || EvalAt(where.value, t, i)
  }

  /** The rows a WHERE clause selects, ascending. */
  function Selected(where: Option<Expr>, t: Columns, n: nat): seq<nat>
    requires WhereTyped(where) && WhereReads(where, t, n)
  {
    match where
    case None => seq(n, i => i)
    case Some(e) => Matching(e, t, n)
  }

  lemma SelectedIs(where: Option<Expr>, t: Columns, n: nat)
    requires WhereTyped(where) && WhereReads(where, t, n)
    ensures InRange(Selected(where, t, n), n)
  {
    if where.Some? {
      MatchingExact(where.value, t, n);
      var rows := Matching(where.value, t, n);
      forall k | 0 <= k < |rows| ensures rows[k] < n { assert rows[k] in rows; }
    }
  }

  lemma SelectedPush(where: Option<Expr>, t: Columns, n: nat)
    requires WhereTyped(where) && WhereReads(where, t, n + 1)
    ensures WhereReads(where, t, n)
    ensures Selected(where, t, n + 1) == Selected(where, t, n) + (if PassesWhere(where, t, n) then [n] else [])
  {
  }

  /** One row, cut down to some columns. */
  function ReadRow(t: Columns, cols: seq<string>, i: nat): Row
    requires forall c :: c in cols ==> c in t && i < |t[c]|
  {
    seq(|cols|, k requires 0 <= k < |cols| => t[cols[k]][i])
  }

  ghost predicate HasColumns(t: Columns, cols: seq<string>, n: nat) {
    forall c :: c in cols ==> c in t && n <= |t[c]|
  }

  function RowsAt(t: Columns, cols: seq<string>, ids: seq<nat>, n: nat): (rows: seq<Row>)
    requires HasColumns(t, cols, n) && InRange(ids, n)
    ensures |rows| == |ids|
  {
    seq(|ids|, k requires 0 <= k < |ids| => ReadRow(t, cols, ids[k]))
  }

  lemma SchemaHasColumns(t: Columns, n: nat)
    requires StoreColumns(t, n)
    ensures HasColumns(t, COLUMN_NAMES, n)
  {
    NamesOfSchema();
    forall c | c in COLUMN_NAMES ensures c in NAMES { assert c in SetOf(COLUMN_NAMES); }
  }

  /** The answer to a query: finish the full rows that satisfy WHERE, in row order. */
  function Answer(t: Columns, n: nat, sel: Select): Result<Output, QueryError>
    requires StoreColumns(t, n) && WhereTyped(sel.where)
  {
    if sel.table != "packets" then Err(UnknownTable)
    else if !(Referenced(sel) <= NAMES) then Err(UnknownColumn)
    else
      SchemaHasColumns(t, n);
      SelectedIs(sel.where, t, n);
      FinishRows(sel, RowsAt(t, COLUMN_NAMES, Selected(sel.where, t, n), n), COLUMN_NAMES)
  }

  // ---- What the engine computes ------------------------------------------

  /** Index lookups list rows of the store, whatever the literal. */
  lemma ResolveInRange(t: Columns, n: nat, conj: Expr)
    requires StoreColumns(t, n) && Sargable(conj) && ResolveRows(t, conj).Ok?
    ensures InRange(ResolveRows(t, conj).value, n)
  {
    if conj.op == Eq {
      var (col, lit) := ColLit(conj.left, conj.right).value;
      if col == "proto" { BitmapInRange(t[col], lit); }
      else if col in HASH_COLS { PortInRange(t[col], lit); }
      else { TrieInRange(t[col], lit.i, 32); }
    } else {
      var known := Text.LikeOctets(conj.right.value.s).value;
      TrieInRange(t[conj.left.name], LowOf(known, 4), 8 * |known|);
    }
  }

  lemma BitmapInRange(values: seq<int>, lit: Value)
    ensures InRange(BitmapRows(values, lit), |values|)
  {
    if LookupKey(lit).Some? {
      var k := LookupKey(lit).value;
      Bitmap.SetBitsAreRows(values, k);
      WhereInRange(values, v => v == k);
    }
  }

  lemma PortInRange(values: seq<int>, lit: Value)
    requires PortRows(values, lit).Ok?
    ensures InRange(PortRows(values, lit).value, |values|)
  {
    if lit.IntV? {
      RowsOfEnumerate(values, lit.i);
      WhereInRange(values, v => v == lit.i);
    }
  }

  lemma TrieInRange(values: seq<int>, prefix: int, bits: nat)
    requires TrieRows(values, prefix, bits).Ok?
    ensures InRange(TrieRows(values, prefix, bits).value, |values|)
  {
    if bits <= 32 {
      Trie.PrefixAnswerExact(values, prefix, bits);
      WhereInRange(values, v => Bits.Top(v, bits) == Bits.Top(prefix, bits));
    }
  }

  lemma WhereInRange(values: seq<int>, p: int -> bool)
    ensures InRange(RowsWhere(values, p), |values|)
  {
    RowsWhereExact(values, p);
    var r := RowsWhere(values, p);
    forall k | 0 <= k < |r| ensures r[k] < |values| { assert r[k] in r; }
  }

  lemma {:induction false} GatherInRange(t: Columns, n: nat, cs: seq<Expr>)
    requires StoreColumns(t, n) && Gather(t, cs).Ok?
    ensures forall k :: 0 <= k < |Gather(t, cs).value.rowsets| ==> InRange(Gather(t, cs).value.rowsets[k], n)
    ensures forall c :: c in Gather(t, cs).value.residual ==> c in cs
  {
    if cs != [] {
      var c := cs[|cs| - 1];
      GatherInRange(t, n, cs[..|cs| - 1]);
      if Sargable(c) { ResolveInRange(t, n, c); }
    }
  }

  /** A plan's candidates are rows of the store, and its residual is a typed part of WHERE. */
  lemma ChoiceWellFormed(t: Columns, n: nat, where: Expr)
    requires StoreColumns(t, n) && Typed(where) && ColumnsIn(where) <= NAMES
    requires Choose(t, n, where).Ok? && Choose(t, n, where).value.Some?
    ensures var plan := Choose(t, n, where).value.value;
      && InRange(plan.candidates, n)
      && WhereTyped(plan.residual)
      && (plan.residual.Some? ==> ColumnsIn(plan.residual.value) <= ColumnsIn(where))
  {
    var cs := Conjuncts(where);
    var g := Gather(t, cs).value;
    var plan := Choose(t, n, where).value.value;
    ConjunctsMean(where, t, 0);
    GatherInRange(t, n, cs);
    RebuildMeans(g.residual, ColumnsIn(where), t, 0);
    forall k | 0 <= k < |plan.candidates| ensures plan.candidates[k] < n {
      var i := plan.candidates[k];
      assert i in plan.candidates;
      IntersectionIs(g.rowsets, i);
      assert i in g.rowsets[0];
      var j :| 0 <= j < |g.rowsets[0]| && g.rowsets[0][j] == i;
    }
  }

  /** The row numbers a plan delivers. */
  function PlannedRows(t: Columns, n: nat, where: Option<Expr>, indexed: bool): (r: Result<seq<nat>, QueryError>)
    requires StoreColumns(t, n) && WhereTyped(where) && (where.Some? ==> ColumnsIn(where.value) <= NAMES)
    ensures r.Ok? ==> InRange(r.value, n)
  {
    SelectedIs(where, t, n);
    if !indexed || where == None then Ok(Selected(where, t, n))
    else
      match Choose(t, n, where.value)
      case Err(_) => Err(IndexFailed)
      case Ok(None) => Ok(Selected(where, t, n))
      case Ok(Some(plan)) =>
        ChoiceWellFormed(t, n, where.value);
        KeepInRange(plan.candidates, plan.residual, t, n);
        Ok(Keep(plan.candidates, plan.residual, t))
  }

  lemma {:induction false} KeepInRange(rows: seq<nat>, residual: Option<Expr>, t: Columns, n: nat)
    requires InRange(rows, n) && WhereTyped(residual) && WhereReads(residual, t, n)
    ensures InRange(Keep(rows, residual, t), n)
  {
    if rows != [] { KeepInRange(rows[..|rows| - 1], residual, t, n); }
  }

  /** What `run_query` computes: read only the needed columns of the planned rows, then finish. */
  function Run(t: Columns, n: nat, sel: Select, indexed: bool): Result<Output, QueryError>
    requires StoreColumns(t, n) && WhereTyped(sel.where)
  {
    if sel.table != "packets" then Err(UnknownTable)
    else if !(Referenced(sel) <= NAMES) then Err(UnknownColumn)
    else
      var ids :- PlannedRows(t, n, sel.where, indexed);
      var cols := ReadColumns(Referenced(sel));
      ReadColumnsExact(Referenced(sel));
      FinishRows(sel, RowsAt(t, cols, ids, n), cols)
  }

  // ---- The main theorem --------------------------------------------------

  /** In the literal domain a plan delivers the scan's rows in the scan's order. */
  lemma PlannedIsSelected(t: Columns, n: nat, where: Option<Expr>, indexed: bool)
    requires StoreColumns(t, n) && WhereTyped(where) && (where.Some? ==> ColumnsIn(where.value) <= NAMES)
    requires indexed && where.Some? ==> InDomain(Conjuncts(where.value))
    ensures PlannedRows(t, n, where, indexed) == Ok(Selected(where, t, n))
  {
    SelectedIs(where, t, n);
    if indexed && where.Some? { ChooseExact(t, n, where.value); }
  }

  lemma ReadRowsPruned(t: Columns, n: nat, cols: seq<string>, ids: seq<nat>)
    requires StoreColumns(t, n) && InRange(ids, n) && forall c :: c in cols ==> c in NAMES
    ensures HasColumns(t, cols, n) && HasColumns(t, COLUMN_NAMES, n)
    ensures RowsAt(t, cols, ids, n) == Map(Pruner(cols), RowsAt(t, COLUMN_NAMES, ids, n))
  {
    SchemaHasColumns(t, n);
    forall k | 0 <= k < |ids|
      ensures ReadRow(t, cols, ids[k]) == Prune(cols, ReadRow(t, COLUMN_NAMES, ids[k]))
    {
      ReadRowPruned(t, n, cols, ids[k]);
    }
  }

  lemma ReadRowPruned(t: Columns, n: nat, cols: seq<string>, i: nat)
    requires StoreColumns(t, n) && i < n && forall c :: c in cols ==> c in NAMES
    requires HasColumns(t, COLUMN_NAMES, n)
    ensures ReadRow(t, cols, i) == Prune(cols, ReadRow(t, COLUMN_NAMES, i))
  {
    NamesOfSchema();
    var full := ReadRow(t, COLUMN_NAMES, i);
    forall k | 0 <= k < |cols| ensures t[cols[k]][i] == Get(COLUMN_NAMES, cols[k], full) {
      assert cols[k] in SetOf(COLUMN_NAMES);
    }
  }

  /** Indexes, batching and column pruning change no answer. */
  lemma RunIsAnswer(t: Columns, n: nat, sel: Select, indexed: bool)
    requires StoreColumns(t, n) && WhereTyped(sel.where)
    requires indexed && sel.where.Some? ==> InDomain(Conjuncts(sel.where.value))
    ensures Run(t, n, sel, indexed) == Answer(t, n, sel)
  {
    if sel.table == "packets" && Referenced(sel) <= NAMES {
      PlannedIsSelected(t, n, sel.where, indexed);
      SelectedIs(sel.where, t, n);
      var cols, ids := ReadColumns(Referenced(sel)), Selected(sel.where, t, n);
      ReadColumnsExact(Referenced(sel));
      ReadRowsPruned(t, n, cols, ids);
      forall c | c in Referenced(sel) ensures c in cols { assert c in SetOf(cols); }
      FinishPruned(sel, RowsAt(t, COLUMN_NAMES, ids, n), cols);
    }
  }

  // ---- The row sources ---------------------------------------------------

  /** The batch holds rows lo..hi of the read columns. */
  ghost predicate BatchOf(batch: Columns, t: Columns, cols: seq<string>, lo: nat, hi: nat) {
    lo <= hi && forall c :: c in cols ==> c in t && hi <= |t[c]| && c in batch && batch[c] == t[c][lo..hi]
  }

  ghost predicate CursorsAt(cursors: seq<nat>, cols: seq<string>, row: nat) {
    && |cursors| == |cols|
    && forall k :: 0 <= k < |cols| ==> cols[k] in NAMES && cursors[k] == FileOffset(cols[k], row)
  }

  /** The first `k` columns of a batch are in place. */
  ghost predicate PartBatch(batch: Columns, t: Columns, cols: seq<string>, k: nat, lo: nat, hi: nat) {
    k <= |cols| && lo <= hi
    && forall j :: 0 <= j < k ==>
      cols[j] in t && hi <= |t[cols[j]]| && cols[j] in batch && batch[cols[j]] == t[cols[j]][lo..hi]
  }

  lemma PartBatchPush(batch: Columns, t: Columns, cols: seq<string>, k: nat, lo: nat, hi: nat, vals: seq<int>)
    requires PartBatch(batch, t, cols, k, lo, hi) && k < |cols|
    requires cols[k] in t && hi <= |t[cols[k]]| && vals == t[cols[k]][lo..hi]
    ensures PartBatch(batch[cols[k] := vals], t, cols, k + 1, lo, hi)
  {
  }

  ghost predicate CursorsMoved(cursors: seq<nat>, cols: seq<string>, k: nat, row: nat) {
    k <= |cols| && CursorsAt(cursors, cols[..k], row)
  }

  lemma CursorsPush(cursors: seq<nat>, cols: seq<string>, k: nat, row: nat, pos: nat)
    requires CursorsMoved(cursors, cols, k, row) && k < |cols|
    requires cols[k] in NAMES && pos == FileOffset(cols[k], row)
    ensures CursorsMoved(cursors + [pos], cols, k + 1, row)
  {
  }

  /** One `next` on every column's generator, in lockstep. */
  method NextBatches(store: ColumnStore, cols: seq<string>, cursors: seq<nat>, ghost row: nat, ghost t: Columns, ghost n: nat)
      returns (batch: Option<Columns>, moved: seq<nat>)
    requires store.Valid() && t == Table(store.disk) && n == store.disk.meta.value.rowCount
    requires cols != [] && row <= n && CursorsAt(cursors, cols, row)
    ensures batch == None <==> row == n
    ensures batch.Some? ==>
      var hi := Bytes.Min(row + BATCH_ROWS, n);
      BatchOf(batch.value, t, cols, row, hi) && CursorsAt(moved, cols, hi)
  {
    ghost var hi := Bytes.Min(row + BATCH_ROWS, n);
    var columns: Columns := map[];
    moved := [];
    assert CursorsMoved(moved, cols, 0, hi) && PartBatch(columns, t, cols, 0, row, hi);
    for k := 0 to |cols|
      invariant k > 0 ==> row < n
      invariant CursorsMoved(moved, cols, k, hi) && PartBatch(columns, t, cols, k, row, hi)
    {
      hide *;
      var vals, pos := NextColumn(store, cols, cursors, k, row, t, n);
      if vals == None { return None, cursors; }
      PartBatchPush(columns, t, cols, k, row, hi, vals.value);
      CursorsPush(moved, cols, k, hi, pos);
      columns := columns[cols[k] := vals.value];
      moved := moved + [pos];
    }
    assert cols[..|cols|] == cols;
    batch := Some(columns);
  }

  method NextColumn(store: ColumnStore, cols: seq<string>, cursors: seq<nat>, k: nat, ghost row: nat, ghost t: Columns, ghost n: nat)
      returns (vals: Option<seq<int>>, pos: nat)
    requires store.Valid() && t == Table(store.disk) && n == store.disk.meta.value.rowCount
    requires k < |cols| && row <= n && CursorsAt(cursors, cols, row)
    ensures vals == None <==> row == n
    ensures cols[k] in NAMES && cols[k] in t && |t[cols[k]]| == n
    ensures vals.Some? ==>
      var hi := Bytes.Min(row + BATCH_ROWS, n);
      row <= hi <= n && vals.value == t[cols[k]][row..hi] && pos == FileOffset(cols[k], hi)
  {
    hide FileOffset;
    var batch, moved := store.NextBatch(cols[k], cursors[k], BATCH_ROWS, row);
    vals, pos := batch, moved;
  }

  lemma RowsAtPush(t: Columns, cols: seq<string>, ids: seq<nat>, i: nat, n: nat)
    requires HasColumns(t, cols, n) && InRange(ids, n) && i < n
    ensures RowsAt(t, cols, ids + [i], n) == RowsAt(t, cols, ids, n) + [ReadRow(t, cols, i)]
  {
  }

  /** One row more of a batch. */
  lemma FilterStep(where: Option<Expr>, batch: Columns, cols: seq<string>, i: nat, m: nat, t: Columns, lo: nat, n: nat)
    requires WhereTyped(where) && WhereReads(where, t, n)
    requires HasColumns(t, cols, n) && i < m && lo + m <= n && BatchOf(batch, t, cols, lo, lo + m)
    ensures forall c :: c in cols ==> c in batch && i < |batch[c]|
    ensures InRange(Selected(where, t, lo + i), n) && InRange(Selected(where, t, lo + i + 1), n)
    ensures RowsAt(t, cols, Selected(where, t, lo + i + 1), n)
         == if PassesWhere(where, t, lo + i) then RowsAt(t, cols, Selected(where, t, lo + i), n) + [ReadRow(batch, cols, i)]
            else RowsAt(t, cols, Selected(where, t, lo + i), n)
  {
    var before := Selected(where, t, lo + i);
    SelectedIs(where, t, lo + i);
    SelectedIs(where, t, lo + i + 1);
    SelectedPush(where, t, lo + i);
    hide Selected, PassesWhere;
    assert ReadRow(batch, cols, i) == ReadRow(t, cols, lo + i);
    RowsAtPush(t, cols, before, lo + i, n);
    assert before + [] == before;
  }

  /** Filter one batch by its mask, appending the surviving rows. */
  method FilterBatch(where: Option<Expr>, batch: Columns, cols: seq<string>, m: nat, before: seq<Row>,
                     ghost t: Columns, ghost lo: nat, ghost n: nat) returns (out: seq<Row>)
    requires WhereTyped(where) && (where.Some? ==> forall c :: c in ColumnsIn(where.value) ==> c in cols)
    requires HasColumns(t, cols, n) && lo + m <= n && BatchOf(batch, t, cols, lo, lo + m)
    requires WhereReads(where, t, n)
    requires InRange(Selected(where, t, lo), n) && before == RowsAt(t, cols, Selected(where, t, lo), n)
    ensures InRange(Selected(where, t, lo + m), n)
    ensures out == RowsAt(t, cols, Selected(where, t, lo + m), n)
  {
    var mask := if where.Some? then EvaluateMask(where.value, batch, m) else seq(m, _ => true);
    MaskMeans(where, batch, cols, m, mask, t, lo, n);
    out := before;
    for i := 0 to m
      invariant InRange(Selected(where, t, lo + i), n)
      invariant out == RowsAt(t, cols, Selected(where, t, lo + i), n)
    {
      hide Selected, PassesWhere, RowsAt;
      FilterStep(where, batch, cols, i, m, t, lo, n);
      if mask[i] { out := out + [ReadRow(batch, cols, i)]; }
    }
  }

  /** The mask of a batch says which of its rows pass. */
  lemma MaskMeans(where: Option<Expr>, batch: Columns, cols: seq<string>, m: nat, mask: seq<bool>,
                  t: Columns, lo: nat, n: nat)
    requires WhereTyped(where) && (where.Some? ==> forall c :: c in ColumnsIn(where.value) ==> c in cols)
    requires lo + m <= n && BatchOf(batch, t, cols, lo, lo + m) && WhereReads(where, t, n)
    requires where.Some? ==> IsBatch(batch, ColumnsIn(where.value), m)
    requires mask == if where.Some? then EvaluateMask(where.value, batch, m) else seq(m, _ => true)
    ensures forall i :: 0 <= i < m ==> (mask[i] <==> PassesWhere(where, t, lo + i))
  {
    if where.Some? {
      var e := where.value;
      MaskIsEval(e, batch, m);
      hide EvaluateMask, EvalAt;
      forall i | 0 <= i < m ensures mask[i] <==> EvalAt(e, t, lo + i) {
        EvalAgrees(e, batch, i, t, lo + i);
      }
    }
  }

  /** What the scan has delivered when the cursors stand at a row. */
  ghost predicate Scanned(out: seq<Row>, cols: seq<string>, where: Option<Expr>, t: Columns, row: nat, n: nat) {
    && WhereTyped(where) && (where.Some? ==> forall c :: c in ColumnsIn(where.value) ==> c in cols)
    && WhereReads(where, t, n) && HasColumns(t, cols, n)
    && row <= n && InRange(Selected(where, t, row), n) && out == RowsAt(t, cols, Selected(where, t, row), n)
  }

  /** One turn of the scan: the next batch of every column, filtered. */
  method ScanBatch(store: ColumnStore, cols: seq<string>, where: Option<Expr>, cursors: seq<nat>, before: seq<Row>,
                   ghost row: nat, ghost t: Columns, ghost n: nat)
      returns (more: bool, moved: seq<nat>, out: seq<Row>, ghost next: nat)
    requires store.Valid() && t == Table(store.disk) && n == store.disk.meta.value.rowCount
    requires cols != [] && CursorsAt(cursors, cols, row) && Scanned(before, cols, where, t, row, n)
    ensures CursorsAt(moved, cols, next) && Scanned(out, cols, where, t, next, n)
    ensures if more then row < next else next == n
  {
    hide ColumnStore.Valid;
    hide Table;
    hide CursorsAt;
    hide HasColumns;
    hide WhereReads;
    hide Selected;
    hide RowsAt;
    var batch, ahead := NextBatches(store, cols, cursors, row, t, n);
    if batch == None { return false, cursors, before, row; }
    assert cols[0] in cols;
    var m := |batch.value[cols[0]]|;
    assert row + m == Bytes.Min(row + BATCH_ROWS, n);
    out := FilterBatch(where, batch.value, cols, m, before, t, row, n);
    more, moved, next := true, ahead, row + m;
  }

  /** `_scan_rows`: the batched scan delivers the selected rows in order. */
  method ScanRows(store: ColumnStore, cols: seq<string>, where: Option<Expr>, ghost t: Columns, ghost n: nat)
      returns (out: seq<Row>)
    requires store.Valid() && t == Table(store.disk) && n == store.disk.meta.value.rowCount
    requires cols != [] && forall c :: c in cols ==> c in NAMES
    requires Scanned([], cols, where, t, 0, n)
    ensures Scanned(out, cols, where, t, n, n)
  {
    hide ColumnStore.Valid;
    hide Table;
    var cursors: seq<nat> := seq(|cols|, _ => 0);
    assert CursorsAt(cursors, cols, 0);
    hide CursorsAt;
    out := [];
    ghost var row: nat := 0;
    var more := true;
    while more
      invariant row <= n && CursorsAt(cursors, cols, row) && Scanned(out, cols, where, t, row, n)
      invariant !more ==> row == n
      decreases more, n - row
    {
      more, cursors, out, row := ScanBatch(store, cols, where, cursors, out, row, t, n);
    }
  }

  /** `filtered_rows`: read the candidates through the cache and keep those that pass the residual. */
  method FilteredRows(store: ColumnStore, cols: seq<string>, candidates: seq<nat>, residual: Option<Expr>,
                      ghost t: Columns, ghost n: nat) returns (out: seq<Row>)
    requires store.Valid() && t == Table(store.disk) && n == store.disk.meta.value.rowCount
    requires forall c :: c in cols ==> c in NAMES
    requires InRange(candidates, n)
    requires WhereTyped(residual) && (residual.Some? ==> forall c :: c in ColumnsIn(residual.value) ==> c in cols)
    requires WhereReads(residual, t, n) && HasColumns(t, cols, n)
    modifies store.cache
    ensures store.Valid()
    ensures InRange(Keep(candidates, residual, t), n)
    ensures out == RowsAt(t, cols, Keep(candidates, residual, t), n)
  {
    var batch := ReadCandidates(store, cols, candidates, t, n);
    out := KeepCandidates(cols, candidates, residual, batch, t, n);
  }

  ghost predicate PartPicked(batch: Columns, t: Columns, cols: seq<string>, k: nat, ids: seq<nat>, n: nat) {
    k <= |cols| && InRange(ids, n)
    && forall j :: 0 <= j < k ==>
      cols[j] in t && |t[cols[j]]| == n && cols[j] in batch && batch[cols[j]] == Pick(t[cols[j]], ids)
  }

  lemma PartPickedPush(batch: Columns, t: Columns, cols: seq<string>, k: nat, ids: seq<nat>, n: nat, vals: seq<int>)
    requires PartPicked(batch, t, cols, k, ids, n) && k < |cols|
    requires cols[k] in t && |t[cols[k]]| == n && vals == Pick(t[cols[k]], ids)
    ensures PartPicked(batch[cols[k] := vals], t, cols, k + 1, ids, n)
  {
  }

  method ReadCandidates(store: ColumnStore, cols: seq<string>, candidates: seq<nat>, ghost t: Columns, ghost n: nat)
      returns (batch: Columns)
    requires store.Valid() && t == Table(store.disk) && n == store.disk.meta.value.rowCount
    requires forall c :: c in cols ==> c in NAMES
    requires InRange(candidates, n)
    modifies store.cache
    ensures store.Valid() && PartPicked(batch, t, cols, |cols|, candidates, n)
  {
    batch := map[];
    for k := 0 to |cols|
      invariant store.Valid() && PartPicked(batch, t, cols, k, candidates, n)
    {
      hide PartPicked;
      hide InRange;
      var vals := store.ReadRows(cols[k], candidates);
      PartPickedPush(batch, t, cols, k, candidates, n, vals);
      batch := batch[cols[k] := vals];
    }
  }

  method KeepCandidates(cols: seq<string>, candidates: seq<nat>, residual: Option<Expr>, batch: Columns,
                        ghost t: Columns, ghost n: nat) returns (out: seq<Row>)
    requires InRange(candidates, n) && HasColumns(t, cols, n)
    requires PartPicked(batch, t, cols, |cols|, candidates, n)
    requires WhereTyped(residual) && (residual.Some? ==> forall c :: c in ColumnsIn(residual.value) ==> c in cols)
    requires WhereReads(residual, t, n)
    ensures InRange(Keep(candidates, residual, t), n)
    ensures out == RowsAt(t, cols, Keep(candidates, residual, t), n)
  {
    var m := |candidates|;
    assert forall c :: c in cols ==> c in batch && batch[c] == Pick(t[c], candidates);
    var mask := if residual.Some? then EvaluateMask(residual.value, batch, m) else seq(m, _ => true);
    forall k | 0 <= k < m ensures mask[k] <==> PassesWhere(residual, t, candidates[k]) {
      if residual.Some? {
        MaskIsEval(residual.value, batch, m);
        EvalAgrees(residual.value, batch, k, t, candidates[k]);
      }
    }
    out := [];
    for k := 0 to m
      invariant InRange(Keep(candidates[..k], residual, t), n)
      invariant out == RowsAt(t, cols, Keep(candidates[..k], residual, t), n)
    {
      assert candidates[..k + 1][..k] == candidates[..k];
      if mask[k] {
        RowsAtPush(t, cols, Keep(candidates[..k], residual, t), candidates[k], n);
        assert ReadRow(batch, cols, k) == ReadRow(t, cols, candidates[k]);
        out := out + [ReadRow(batch, cols, k)];
      }
    }
    assert candidates[..m] == candidates;
  }

  // ---- Running -----------------------------------------------------------

  /** The plan of a query: a scan unless an index choice replaces it. */
  function PlanFor(sel: Select, indexed: bool, t: Columns, n: nat): Result<Plan, QueryError>
    requires t.Keys == NAMES
  {
    if sel.table != "packets" then Err(UnknownTable)
    else if !(Referenced(sel) <= NAMES) then Err(UnknownColumn)
    else
      var scan := Plan(ReadColumns(Referenced(sel)), sel.where, Scan);
      if !indexed || sel.where == None then Ok(scan)
      else
        match Choose(t, n, sel.where.value)
        case Err(_) => Err(IndexFailed)
        case Ok(None) => Ok(scan)
        case Ok(Some(choice)) => Ok(scan.(where := choice.residual, access := Index(choice.candidates)))
  }

  /** `plan_query` */
  method PlanQuery(sel: Select, storeRows: nat, indexes: Indexes.PacketIndexes?, ghost t: Columns)
      returns (r: Result<Plan, QueryError>)
    requires StoreColumns(t, storeRows) && WhereTyped(sel.where)
    requires indexes != null ==> indexes.Valid() && indexes.Represents(t, storeRows)
    ensures r == PlanFor(sel, indexes != null, t, storeRows)
  {
    if sel.table != "packets" { return Err(UnknownTable); }
    var referenced := CollectReferenced(sel);
    if !(referenced <= NAMES) { return Err(UnknownColumn); }
    var plan := Plan(ReadColumns(referenced), sel.where, Scan);
    if indexes != null && sel.where.Some? {
      var choice := indexes.ChoosePlan(sel.where.value, storeRows, t, storeRows);
      if choice.Err? { return Err(IndexFailed); }
      if choice.value.Some? {
        plan := plan.(access := Index(choice.value.value.candidates), where := choice.value.value.residual);
      }
    }
    r := Ok(plan);
  }

  /** `run_query` on a parsed SELECT */
  method RunSelect(store: ColumnStore, sel: Select, indexes: Indexes.PacketIndexes?) returns (r: Result<Output, QueryError>)
    requires store.Valid() && WhereTyped(sel.where)
    requires indexes != null ==> indexes.Valid() && indexes.Represents(Table(store.disk), store.disk.meta.value.rowCount)
    modifies store.cache
    ensures store.Valid()
    ensures r == Run(Table(store.disk), store.disk.meta.value.rowCount, sel, indexes != null)
  {
    ghost var t, n := Table(store.disk), store.disk.meta.value.rowCount;
    assert CanOpen(store.disk);
    hide ColumnStore.Valid;
    hide Table;
    var planned := PlanQuery(sel, store.RowCount(), indexes, t);
    if planned.Err? { return Err(planned.error); }
    var rows := PlanRows(store, sel, planned.value, indexes != null, t, n);
    r := RunFinish(sel, rows, planned.value.readColumns);
  }

  /** The row source of a plan. */
  method PlanRows(store: ColumnStore, sel: Select, plan: Plan, ghost indexed: bool, ghost t: Columns, ghost n: nat)
      returns (rows: seq<Row>)
    requires store.Valid() && t == Table(store.disk) && n == store.disk.meta.value.rowCount
    requires StoreColumns(t, n) && WhereTyped(sel.where) && Referenced(sel) <= NAMES
    requires PlanFor(sel, indexed, t, n) == Ok(plan)
    modifies store.cache
    ensures store.Valid()
    ensures HasColumns(t, plan.readColumns, n) && PlannedRows(t, n, sel.where, indexed).Ok?
    ensures rows == RowsAt(t, plan.readColumns, PlannedRows(t, n, sel.where, indexed).value, n)
  {
    PlanReads(sel, plan, indexed, t, n);
    match plan.access {
      case Scan =>
        rows := ScanRows(store, plan.readColumns, plan.where, t, n);
      case Index(candidates) =>
        rows := FilteredRows(store, plan.readColumns, candidates, plan.where, t, n);
    }
  }

  /** A plan reads every column that its filter and the rest of the query need. */
  lemma PlanReads(sel: Select, plan: Plan, indexed: bool, t: Columns, n: nat)
    requires StoreColumns(t, n) && WhereTyped(sel.where) && Referenced(sel) <= NAMES
    requires PlanFor(sel, indexed, t, n) == Ok(plan)
    ensures plan.readColumns != [] && forall c :: c in plan.readColumns ==> c in NAMES
    ensures forall c :: c in Referenced(sel) ==> c in plan.readColumns
    ensures WhereTyped(plan.where) && WhereReads(plan.where, t, n) && HasColumns(t, plan.readColumns, n)
    ensures plan.where.Some? ==> forall c :: c in ColumnsIn(plan.where.value) ==> c in plan.readColumns
    ensures plan.access.Scan? ==> plan.where == sel.where && Scanned([], plan.readColumns, plan.where, t, 0, n)
    ensures plan.access.Index? ==>
      InRange(plan.access.candidates, n)
      && PlannedRows(t, n, sel.where, indexed) == Ok(Keep(plan.access.candidates, plan.where, t))
    ensures plan.access.Scan? ==> PlannedRows(t, n, sel.where, indexed) == Ok(Selected(sel.where, t, n))
  {
    ReadColumnsExact(Referenced(sel));
    forall c | c in Referenced(sel) ensures c in plan.readColumns { assert c in SetOf(plan.readColumns); }
    if plan.access.Index? { ChoiceWellFormed(t, n, sel.where.value); }
  }
}
