/** What a query answers, in terms of the stored columns and of the frames they came from (packetql/query/executor.py). */
module AnswerMeaning {
  import opened Wrappers
  import opened Seqs
  import opened Ast
  import opened Predicate
  import opened IndexPlan
  import opened Relation
  import opened Columnar
  import opened Slices
  import opened Store
  import opened Finish
  import opened Planner
  import opened Engine
  import opened WhereMeaning
  import opened AnswerRows
  import opened Lexer
  import opened Grammar
  import opened RoundTrip
  import opened Rendering
  import Addresses
  import Printer
  import Bytes
  import FrameBytes
  import Packet
  import Text

  // ---- When there is an answer -------------------------------------------

  predicate KnownItem(i: Item) {
    match i
    case Column(c) => c in NAMES
    case AggItem(a) => a.arg.Some? ==> a.arg.value in NAMES
  }

  predicate KnownHaving(e: Expr) {
    match e
    case Aggregate(a) => a.arg.Some? ==> a.arg.value in NAMES
    case ColumnRef(c) => c in NAMES
    case BinaryOp(_, l, r) => KnownHaving(l) && KnownHaving(r)
    case Not(x) => KnownHaving(x)
    case Literal(_) => true
  }

  /** Every column a query names is one of the nine; what an aggregated query is ordered by is a label instead. */
  predicate AllKnown(sel: Select) {
    && (sel.Star() || forall j :: 0 <= j < |sel.columns| ==> KnownItem(sel.columns[j]))
    && (sel.where.Some? ==> ColumnsIn(sel.where.value) <= NAMES)
    && (forall c :: c in sel.groupBy ==> c in NAMES)
    && (sel.having.Some? ==> KnownHaving(sel.having.value))
    && (sel.orderBy.Some? && !IsAggregated(sel) ==> sel.orderBy.value.column in NAMES)
  }

  lemma {:induction false} HavingKnown(e: Expr)
    ensures HavingColumns(e) <= NAMES <==> KnownHaving(e)
  {
    match e
    case BinaryOp(_, l, r) =>
      HavingKnown(l);
      HavingKnown(r);
    case Not(x) => HavingKnown(x);
    case Aggregate(a) => if a.arg.Some? { assert a.arg.value in HavingColumns(e); }
    case ColumnRef(c) => assert c in HavingColumns(e);
    case Literal(_) =>
  }

  lemma ItemsKnown(items: seq<Item>)
    ensures SelectColumns(items) <= NAMES <==> forall j :: 0 <= j < |items| ==> KnownItem(items[j])
  {
    if SelectColumns(items) <= NAMES {
      forall j | 0 <= j < |items| ensures KnownItem(items[j]) {
        forall c | c in ItemColumns(items[j]) ensures c in NAMES { assert c in SelectColumns(items); }
        ItemKnown(items[j]);
      }
    }
    if forall j :: 0 <= j < |items| ==> KnownItem(items[j]) {
      forall c | c in SelectColumns(items) ensures c in NAMES {
        var j :| 0 <= j < |items| && c in ItemColumns(items[j]);
        ItemKnown(items[j]);
      }
    }
  }

  lemma ItemKnown(i: Item)
    ensures KnownItem(i) <==> ItemColumns(i) <= NAMES
  {
    match i
    case Column(c) => assert c in ItemColumns(i);
    case AggItem(a) => if a.arg.Some? { assert a.arg.value in ItemColumns(i); }
  }

  lemma ReferencedKnown(sel: Select)
    ensures Referenced(sel) <= NAMES <==> AllKnown(sel)
  {
    ItemsKnown(sel.columns);
    if sel.having.Some? { HavingKnown(sel.having.value); }
    var parts := SetOf(sel.groupBy);
    assert SetOf(sel.groupBy) <= NAMES <==> forall c :: c in sel.groupBy ==> c in NAMES by {
      forall c | c in sel.groupBy && SetOf(sel.groupBy) <= NAMES ensures c in NAMES { assert c in parts; }
    }
    hide SelectColumns, HavingColumns, KnownItem, KnownHaving, IsAggregated;
  }

  /** The table and the columns are checked first, and nothing else is: a known query is finished from its rows. */
  lemma AnswerChecks(t: Columns, n: nat, sel: Select)
    requires StoreColumns(t, n) && WhereTyped(sel.where)
    ensures sel.table != "packets" ==> Answer(t, n, sel) == Err(UnknownTable)
    ensures sel.table == "packets" && !AllKnown(sel) ==> Answer(t, n, sel) == Err(UnknownColumn)
  {
    ReferencedKnown(sel);
    hide Referenced, AllKnown, FinishRows;
  }

  // ---- Plain answers -----------------------------------------------------

  /** A full row holds the values of its store row. */
  lemma FullCell(t: Columns, n: nat, i: nat, c: string)
    requires StoreColumns(t, n) && i < n && c in NAMES
    ensures HasColumns(t, COLUMN_NAMES, n)
    ensures Get(COLUMN_NAMES, c, ReadRow(t, COLUMN_NAMES, i)) == t[c][i]
  {
    SchemaHasColumns(t, n);
    NamesOfSchema();
    assert c in SetOf(COLUMN_NAMES);
  }

  /** SELECT without grouping, aggregates, DISTINCT and ORDER BY: row i shows the i-th selected row of the store, as many
      as LIMIT lets through, and every cell is the stored value of the column it stands under. */
  lemma PlainSelect(t: Columns, n: nat, sel: Select)
    requires StoreColumns(t, n) && WhereTyped(sel.where) && sel.table == "packets" && AllKnown(sel)
    requires sel.groupBy == [] && !sel.distinct && sel.orderBy == None
    requires forall j :: 0 <= j < |sel.columns| ==> sel.columns[j].Column?
    ensures Answer(t, n, sel).Ok?
    ensures var out, ids := Answer(t, n, sel).value, Selected(sel.where, t, n);
      && (if sel.Star() then out.columns == COLUMN_NAMES
          else |out.columns| == |sel.columns| && forall j :: 0 <= j < |out.columns| ==> sel.columns[j] == Column(out.columns[j]))
      && |out.rows| == Limited(sel.limit, |ids|)
      && (forall i :: 0 <= i < |out.rows| ==> |out.rows[i]| == |out.columns|)
      && (forall i, j :: 0 <= i < |out.rows| && 0 <= j < |out.columns| ==>
            ids[i] < n && out.columns[j] in NAMES && out.rows[i][j] == t[out.columns[j]][ids[i]] as real)
  {
    ReferencedKnown(sel);
    SchemaHasColumns(t, n);
    SelectedIs(sel.where, t, n);
    var ids := Selected(sel.where, t, n);
    var rows := RowsAt(t, COLUMN_NAMES, ids, n);
    PlainAnswer(sel, rows, COLUMN_NAMES);
    KeptFirst(sel, rows, COLUMN_NAMES);
    PlainColumns(sel, rows, COLUMN_NAMES);
    var out := PlainFinish(sel, rows, COLUMN_NAMES).value;
    NamesKnown(sel, out.columns);
    hide Selected, Kept, PlainFinish, Referenced, AllKnown, AggregateFinish, Get;
    assert Answer(t, n, sel) == Ok(out);
    forall i, j | 0 <= i < |out.rows| && 0 <= j < |out.columns|
      ensures ids[i] < n && out.columns[j] in NAMES && out.rows[i][j] == t[out.columns[j]][ids[i]] as real
    {
      assert Shows(out.rows[i], out.columns, rows[i], COLUMN_NAMES);
      FullCell(t, n, ids[i], out.columns[j]);
    }
    forall i | 0 <= i < |out.rows| ensures |out.rows[i]| == |out.columns| {
      assert Shows(out.rows[i], out.columns, rows[i], COLUMN_NAMES);
    }
  }

  lemma NamesKnown(sel: Select, names: seq<string>)
    requires AllKnown(sel)
    requires if sel.Star() then names == COLUMN_NAMES
      else |names| == |sel.columns| && forall j :: 0 <= j < |names| ==> sel.columns[j] == Column(names[j])
    ensures forall j :: 0 <= j < |names| ==> names[j] in NAMES
  {
    NamesOfSchema();
    forall j | 0 <= j < |names| ensures names[j] in NAMES {
      if sel.Star() { assert names[j] in SetOf(COLUMN_NAMES); } else { assert KnownItem(sel.columns[j]); }
    }
  }

  // ---- Addresses in query texts ------------------------------------------

  /** An address text next to an address column becomes the address, on either side; anything else stays as it is. */
  lemma AddressFixed(c: string, a: nat, b: nat, d: nat, e: nat)
    requires c in {"src_ip", "dst_ip"} && a < 256 && b < 256 && d < 256 && e < 256
    ensures var text, v := Literal(StrV(Addresses.Dotted([a, b, d, e]))), Literal(IntV(0x100_0000 * a + 0x1_0000 * b + 0x100 * d + e));
      && IpFix(ColumnRef(c), text) == Ok((ColumnRef(c), v))
      && IpFix(text, ColumnRef(c)) == Ok((v, ColumnRef(c)))
  {
    hide Addresses.Dotted, Text.IpToInt;
    Addresses.AddressValue(a, b, d, e);
  }

  lemma OtherwiseUnfixed(l: Expr, r: Expr)
    requires l in {ColumnRef("src_ip"), ColumnRef("dst_ip")} ==> !(r.Literal? && r.value.StrV?)
    requires r in {ColumnRef("src_ip"), ColumnRef("dst_ip")} ==> !(l.Literal? && l.value.StrV?)
    ensures IpFix(l, r) == Ok((l, r))
  {
  }

  lemma BadAddressRefused(c: string, s: string)
    requires c in {"src_ip", "dst_ip"} && Text.IpToInt(s).Err?
    ensures IpFix(ColumnRef(c), Literal(StrV(s))) == Err(BadAddress) && IpFix(Literal(StrV(s)), ColumnRef(c)) == Err(BadAddress)
  {
  }

  /** `SELECT * FROM packets WHERE c = 'a.b.c.d'`, as tokens. */
  function AddressTokens(c: string, address: string): seq<Token> {
    [Keyword(KSelect), Star, Keyword(KFrom), Identifier("packets"), Keyword(KWhere), Identifier(c), Operator(Eq), Str(address), Eof]
  }

  lemma AloneParses(ts: seq<Token>, e: Expr)
    requires Terminated(ts) && !IsKw(ts, KNot) && ParseComparison(ts) == Ok((e, [Eof]))
    ensures ParseOr(ts) == Ok((e, [Eof]))
  {
    hide ParseComparison;
    assert ParseNot(ts) == Ok((e, [Eof]));
    assert ParseAnd(ts) == Ok((e, [Eof]));
  }

  lemma AddressOperands(c: string, address: string, v: nat)
    requires c in {"src_ip", "dst_ip"} && Text.IpToInt(address) == Ok(v)
    ensures var ts := [Identifier(c), Operator(Eq), Str(address), Eof];
      Terminated(ts) && ParseComparison(ts) == Ok((Compared(Eq, ColumnRef(c), Literal(IntV(v))), [Eof]))
  {
    hide Text.IpToInt;
    var ts := [Identifier(c), Operator(Eq), Str(address), Eof];
    var k1, k2 := [Operator(Eq), Str(address), Eof], [Str(address), Eof];
    assert Rest(ts) == k1 && Rest(k1) == k2 && Rest(k2) == [Eof];
    assert ParsePrimary(ts) == Ok((ColumnRef(c), k1)) && ParsePrimary(k2) == Ok((Literal(StrV(address)), [Eof]));
    hide ParsePrimary;
    assert IpFix(ColumnRef(c), Literal(StrV(address))) == Ok((ColumnRef(c), Literal(IntV(v))));
  }

  function AddressSelect(c: string, v: nat): Select {
    Select([Column("*")], "packets", Some(Compared(Eq, ColumnRef(c), Literal(IntV(v)))), false, [], None, None, None)
  }

  lemma AddressTokensValid(c: string, address: string)
    requires c in {"src_ip", "dst_ip"}
    ensures Terminated(AddressTokens(c, address)) && ValidTokens(AddressTokens(c, address))
  {
    NamesAreWords();
    hide Printer.ValidName;
  }

  lemma AddressTokensParse(c: string, address: string, v: nat)
    requires c in {"src_ip", "dst_ip"} && Text.IpToInt(address) == Ok(v)
    ensures Terminated(AddressTokens(c, address))
    ensures ParseStatement(AddressTokens(c, address)) == Ok(Query(AddressSelect(c, v)))
  {
    var ts := AddressTokens(c, address);
    AddressTokensValid(c, address);
    assert ts[5..] == [Identifier(c), Operator(Eq), Str(address), Eof];
    assert ts[..5] == [Keyword(KSelect), Star, Keyword(KFrom), Identifier("packets"), Keyword(KWhere)];
    hide ParseComparison, ParseOr, ParseStatement, AddressTokens, Text.IpToInt, Printer.ValidName, ValidTokens;
    AddressOperands(c, address, v);
    AloneParses(ts[5..], Compared(Eq, ColumnRef(c), Literal(IntV(v))));
    ClausesParse(ts, ts[5..], Compared(Eq, ColumnRef(c), Literal(IntV(v))));
  }

  lemma NamesAreWords()
    ensures Printer.ValidName("packets") && Printer.ValidName("src_ip") && Printer.ValidName("dst_ip")
  {
    NotKeyword("packets");
    NotKeyword("src_ip");
    NotKeyword("dst_ip");
  }

  /** A word that has a letter no keyword has, or a length no keyword has, is a name. */
  lemma NotKeyword(w: string)
    requires w in {"packets", "src_ip", "dst_ip"}
    ensures KeywordOf(Upper(w)) == None
  {
    var up := Upper(w);
    assert w == "packets" ==> up == "PACKETS";
    assert w == "src_ip" ==> up == "SRC_IP";
    assert w == "dst_ip" ==> up == "DST_IP";
    assert "PACKETS"[0] == 'P' && "SRC_IP"[3] == '_' && "DST_IP"[3] == '_';
  }

  /** The text of an address query parses to a comparison with the address's number ... */
  lemma AddressText(col: string, a: nat, b: nat, c: nat, d: nat)
    requires col in {"src_ip", "dst_ip"} && a < 256 && b < 256 && c < 256 && d < 256
    ensures ParseText(Render(AddressTokens(col, Addresses.Dotted([a, b, c, d]))))
         == Ok(Query(AddressSelect(col, 0x100_0000 * a + 0x1_0000 * b + 0x100 * c + d)))
  {
    hide Addresses.Dotted, Text.IpToInt, AddressTokens, ParseStatement, AddressSelect, Render;
    var address := Addresses.Dotted([a, b, c, d]);
    Addresses.AddressValue(a, b, c, d);
    AddressTokensValid(col, address);
    AddressTokensParse(col, address, 0x100_0000 * a + 0x1_0000 * b + 0x100 * c + d);
    LexRender(AddressTokens(col, address));
  }

  /** ... which selects exactly the rows whose address has those four octets. */
  lemma AddressRows(col: string, a: nat, b: nat, c: nat, d: nat, t: Columns, n: nat, i: nat)
    requires col in {"src_ip", "dst_ip"} && a < 256 && b < 256 && c < 256 && d < 256
    requires StoreColumns(t, n) && i < n
    ensures var v := 0x100_0000 * a + 0x1_0000 * b + 0x100 * c + d;
      Selects(Compared(Eq, ColumnRef(col), Literal(IntV(v))), t, n, i) <==> Addresses.Octets(t[col][i]) == [a, b, c, d]
  {
    hide Addresses.Octets, Selects;
    ColumnWithInteger(t, n, col, 0x100_0000 * a + 0x1_0000 * b + 0x100 * c + d, i);
    Addresses.OctetsDetermine(t[col][i], a, b, c, d);
  }

  // ---- From frames to answers --------------------------------------------

  /** Column c of a row is field c of its record. */
  lemma TableField(disk: Disk, i: nat, c: nat)
    requires CanOpen(disk) && i < disk.meta.value.rowCount && c < COLUMNS
    ensures COLUMN_NAMES[c] in NAMES
    ensures Table(disk)[COLUMN_NAMES[c]][i] == Records(disk)[i].Field(c)
  {
    NamesOfSchema();
    assert COLUMN_NAMES[c] in SetOf(COLUMN_NAMES);
    RecordAtRow(disk, disk.meta.value.rowCount, i);
    PositionIs(c);
    ColumnIs(disk, COLUMN_NAMES[c]);
    hide Table, CellAt, CanOpen, RecordsTo;
  }

  lemma PositionIs(c: nat)
    requires c < COLUMNS
    ensures COLUMN_NAMES[c] in NAMES && Position(COLUMN_NAMES[c]) == c
  {
    NamesOfSchema();
    assert COLUMN_NAMES[c] in SetOf(COLUMN_NAMES);
  }

  lemma {:induction false} RecordAtRow(disk: Disk, n: nat, i: nat)
    requires |disk.cols| == COLUMNS && i < n
    ensures RecordsTo(disk, n)[i] == RecordAt(disk, i)
  {
    hide CellAt;
    if i < n - 1 { RecordAtRow(disk, n - 1, i); }
  }

  /** Where a stored record came from a frame, the stored addresses are the address bytes of the frame. */
  lemma StoredAddresses(disk: Disk, i: nat, frame: seq<Bytes.Byte>, timestamp: nat, verifyChecksum: bool)
    requires CanOpen(disk) && i < disk.meta.value.rowCount
    requires Packet.ParsePacket(frame, timestamp, verifyChecksum) == Some(Records(disk)[i])
    ensures |frame| >= 34
    ensures Addresses.Octets(Table(disk)["src_ip"][i]) == [frame[26] as nat, frame[27] as nat, frame[28] as nat, frame[29] as nat]
    ensures Addresses.Octets(Table(disk)["dst_ip"][i]) == [frame[30] as nat, frame[31] as nat, frame[32] as nat, frame[33] as nat]
  {
    TableField(disk, i, 1);
    TableField(disk, i, 2);
    assert COLUMN_NAMES[1] == "src_ip" && COLUMN_NAMES[2] == "dst_ip";
    hide Table, Records, Packet.ParsePacket, Addresses.Octets, CanOpen;
    FrameBytes.FieldsRead(frame, timestamp, verifyChecksum);
  }

  /** WHERE and nothing else behind the table. */
  lemma WhereAlone(ts: seq<Token>, e: Expr)
    requires Terminated(ts) && ts[0] == Keyword(KWhere) && ParseOr(Rest(ts)) == Ok((e, [Eof]))
    ensures ParseClauses([Column("*")], "packets", false, ts)
         == Ok(Select([Column("*")], "packets", Some(e), false, [], None, None, None))
  {
    hide ParseOr;
    assert ParseWhere(ts, KWhere) == Ok((Some(e), [Eof]));
    hide ParseWhere;
    assert ParseGroup([Eof]) == Ok((([], None), [Eof])) && ParseOrder([Eof]) == Ok((None, [Eof]));
    assert ParseLimit([Eof]) == Ok((None, [Eof]));
  }

  lemma ClausesParse(ts: seq<Token>, operands: seq<Token>, e: Expr)
    requires Terminated(ts) && |ts| == 9 && operands == ts[5..] && Terminated(operands)
    requires ts[..5] == [Keyword(KSelect), Star, Keyword(KFrom), Identifier("packets"), Keyword(KWhere)]
    requires ParseOr(operands) == Ok((e, [Eof]))
    ensures ParseStatement(ts) == Ok(Query(Select([Column("*")], "packets", Some(e), false, [], None, None, None)))
  {
    hide ParseOr, ParseClauses;
    assert ts[0] == Keyword(KSelect) && ts[1] == Star && ts[2] == Keyword(KFrom);
    assert ts[3] == Identifier("packets") && ts[4] == Keyword(KWhere);
    assert Rest(ts) == ts[1..] && Rest(ts[1..]) == ts[2..] && Rest(ts[2..]) == ts[3..] && Rest(ts[3..]) == ts[4..];
    assert Rest(ts[4..]) == operands;
    WhereAlone(ts[4..], e);
  }
}
