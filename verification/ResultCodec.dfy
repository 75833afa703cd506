/** The column-major encoding of query results (packetql/server.py). Names and strings are their UTF-8 bytes. */
module ResultCodec {
  import opened Wrappers
  import opened Bytes
  import opened Slices

  /** A value of a result: an int64, the eight bytes of a double, or a string. */
  datatype Cell = IntC(v: int) | FloatC(bits: nat) | TextC(s: seq<Byte>)

  type Name = seq<Byte>

  const TS: Name := [116, 115]
  const TAG_FLOAT: Byte := 102
  const TAG_TEXT: Byte := 115
  const TAG_INT: Byte := 105

  const TWO63: int := 0x8000_0000_0000_0000
  const TWO64: int := 0x1_0000_0000_0000_0000

  // ---- Values ------------------------------------------------------------

  function Unsigned(v: int): nat
    requires -TWO63 <= v < TWO63
  {
    if v < 0 then v + TWO64 else v
  }

  function Signed(u: nat): int {
    if u >= TWO63 then u - TWO64 else u
  }

  predicate CellFits(c: Cell) {
    match c
    case IntC(v) => -TWO63 <= v < TWO63
    case FloatC(bits) => bits < TWO64
    case TextC(s) => |s| < 0x1_0000_0000
  }

  function TagOf(c: Cell): Byte {
    match c
    case IntC(_) => TAG_INT
    case FloatC(_) => TAG_FLOAT
    case TextC(_) => TAG_TEXT
  }

  function CellBytes(c: Cell): seq<Byte>
    requires CellFits(c)
  {
    match c
    case IntC(v) => ToBE(Unsigned(v), 8)
    case FloatC(bits) => ToBE(bits, 8)
    case TextC(s) => ToBE(|s|, 4) + s
  }

  function Clamp(s: seq<Byte>, n: nat): nat {
    Min(n, |s|)
  }

  /** One value of a column with this tag, and what follows it. A slice past the end is short, a number is an error. */
  function ReadCell(tag: seq<Byte>, s: seq<Byte>): Option<(Cell, seq<Byte>)> {
    if tag == [TAG_TEXT] then
      if |s| < 4 then None
      else
        var n, t := FromBE(s[..4]), s[4..];
        Some((TextC(t[..Clamp(t, n)]), t[Clamp(t, n)..]))
    else if |s| < 8 then None
    else if tag == [TAG_FLOAT] then Some((FloatC(FromBE(s[..8])), s[8..]))
    else Some((IntC(Signed(FromBE(s[..8]))), s[8..]))
  }

  lemma Powers()
    ensures Pow256(4) == 0x1_0000_0000 && Pow256(8) == TWO64
  {
    assert Pow256(4) == 0x1_0000_0000;
    assert Pow256(5) == 256 * Pow256(4);
    assert Pow256(6) == 256 * Pow256(5);
    assert Pow256(7) == 256 * Pow256(6);
  }

  /** A packed value reads back, and nothing after it is touched. */
  lemma CellBack(c: Cell, k: seq<Byte>)
    requires CellFits(c)
    ensures ReadCell([TagOf(c)], CellBytes(c) + k) == Some((c, k))
  {
    Powers();
    hide Pow256;
    hide FromBE;
    hide ToBE;
    match c
    case IntC(v) =>
      BERoundTrip(Unsigned(v), 8);
      Halves(ToBE(Unsigned(v), 8), k);
    case FloatC(bits) =>
      BERoundTrip(bits, 8);
      Halves(ToBE(bits, 8), k);
    case TextC(s) =>
      BERoundTrip(|s|, 4);
      assert (ToBE(|s|, 4) + s) + k == ToBE(|s|, 4) + (s + k);
      Halves(ToBE(|s|, 4), s + k);
      Halves(s, k);
  }

  // ---- Results -----------------------------------------------------------

  /** Rows as wide as the header, and columns of one kind of value each; a `ts` column holds doubles. */
  ghost predicate Homogeneous(columns: seq<Name>, rows: seq<seq<Cell>>) {
    && (forall i :: 0 <= i < |rows| ==> |rows[i]| == |columns|)
    && (forall i, j :: 0 <= i < |rows| && 0 <= j < |columns| ==>
          TagOf(rows[i][j]) == ColumnTag(columns[j], rows, j))
  }

  /** The tag chosen for a column: by its name, or by its first value. */
  function ColumnTag(name: Name, rows: seq<seq<Cell>>, j: nat): Byte {
    if name == TS then TAG_FLOAT
    else if rows == [] || j >= |rows[0]| then TAG_INT
    else TagOf(rows[0][j])
  }

  /** Everything has room in its length field or width. */
  ghost predicate Fits(columns: seq<Name>, rows: seq<seq<Cell>>) {
    && |columns| < 256 && |rows| < 0x1_0000_0000
    && (forall j :: 0 <= j < |columns| ==> |columns[j]| < 256)
    && (forall i, j :: 0 <= i < |rows| && 0 <= j < |rows[i]| ==> CellFits(rows[i][j]))
  }

  function NamesTo(columns: seq<Name>, k: seq<Byte>): seq<Byte>
    requires forall j :: 0 <= j < |columns| ==> |columns[j]| < 256
  {
    if columns == [] then k else [|columns[0]|] + (columns[0] + NamesTo(columns[1..], k))
  }

  /** Every value fits and carries this tag. */
  predicate Packable(tag: Byte, vals: seq<Cell>) {
    forall i :: 0 <= i < |vals| ==> CellFits(vals[i]) && TagOf(vals[i]) == tag
  }

  function ValuesTo(tag: Byte, vals: seq<Cell>, k: seq<Byte>): seq<Byte>
    requires Packable(tag, vals)
  {
    if vals == [] then k else CellBytes(vals[0]) + ValuesTo(tag, vals[1..], k)
  }

  /** One column of the result. */
  datatype Column = Column(tag: Byte, vals: seq<Cell>)

  predicate AllPackable(cols: seq<Column>) {
    forall j :: 0 <= j < |cols| ==> Packable(cols[j].tag, cols[j].vals)
  }

  function ColumnsTo(cols: seq<Column>, k: seq<Byte>): seq<Byte>
    requires AllPackable(cols)
  {
    if cols == [] then k else [cols[0].tag] + ValuesTo(cols[0].tag, cols[0].vals, ColumnsTo(cols[1..], k))
  }

  ghost predicate Encodable(columns: seq<Name>, rows: seq<seq<Cell>>) {
    Homogeneous(columns, rows) && Fits(columns, rows)
  }

  function ColumnOf(rows: seq<seq<Cell>>, j: nat): seq<Cell>
    requires forall i :: 0 <= i < |rows| ==> j < |rows[i]|
  {
    seq(|rows|, i requires 0 <= i < |rows| => rows[i][j])
  }

  /** The result column by column. */
  ghost function Pivot(columns: seq<Name>, rows: seq<seq<Cell>>): (cols: seq<Column>)
    requires Encodable(columns, rows)
    ensures |cols| == |columns| && AllPackable(cols)
  {
    seq(|columns|, j requires 0 <= j < |columns| => Column(ColumnTag(columns[j], rows, j), ColumnOf(rows, j)))
  }

  /** The bytes of a result, followed by `k`. */
  ghost function EncodedTo(columns: seq<Name>, rows: seq<seq<Cell>>, k: seq<Byte>): seq<Byte>
    requires Encodable(columns, rows)
  {
    [|columns|] + NamesTo(columns, ToBE(|rows|, 4) + ColumnsTo(Pivot(columns, rows), k))
  }

  /** The payload of a result. */
  ghost function Encoded(columns: seq<Name>, rows: seq<seq<Cell>>): seq<Byte>
    requires Encodable(columns, rows)
  {
    EncodedTo(columns, rows, [])
  }

  // ---- Encoding ----------------------------------------------------------

  method AppendNames(columns: seq<Name>, out: seq<Byte>, ghost k: seq<Byte>) returns (r: seq<Byte>)
    requires forall j :: 0 <= j < |columns| ==> |columns[j]| < 256
    ensures r + k == out + NamesTo(columns, k)
  {
    r := out;
    assert columns[0..] == columns;
    for j := 0 to |columns|
      invariant r + NamesTo(columns[j..], k) == out + NamesTo(columns, k)
    {
      ghost var rest := NamesTo(columns[j + 1..], k);
      assert columns[j..][1..] == columns[j + 1..];
      Regroup(r, [|columns[j]|], columns[j] + rest);
      Regroup(r + [|columns[j]|], columns[j], rest);
      r := r + [|columns[j]|];
      r := r + columns[j];
    }
  }

  method AppendValues(rows: seq<seq<Cell>>, j: nat, out: seq<Byte>, ghost tag: Byte, ghost k: seq<Byte>) returns (r: seq<Byte>)
    requires forall i :: 0 <= i < |rows| ==> j < |rows[i]|
    requires Packable(tag, ColumnOf(rows, j))
    ensures r + k == out + ValuesTo(tag, ColumnOf(rows, j), k)
  {
    r := out;
    ghost var vals := ColumnOf(rows, j);
    assert vals[0..] == vals;
    for i := 0 to |rows|
      invariant r + ValuesTo(tag, vals[i..], k) == out + ValuesTo(tag, vals, k)
    {
      hide CellBytes;
      hide CellFits;
      assert vals[i..][1..] == vals[i + 1..] && vals[i..][0] == rows[i][j];
      Regroup(r, CellBytes(rows[i][j]), ValuesTo(tag, vals[i + 1..], k));
      r := r + CellBytes(rows[i][j]);
    }
  }

  /** `encode_result` on a homogeneous result; what does not fit raises. */
  method EncodeResult(columns: seq<Name>, rows: seq<seq<Cell>>) returns (r: Option<seq<Byte>>)
    requires Homogeneous(columns, rows)
    ensures r.Some? <==> Fits(columns, rows)
    ensures r.Some? ==> r.value == Encoded(columns, rows)
  {
    var fits := CheckFits(columns, rows);
    if !fits { return None; }
    ghost var cols := Pivot(columns, rows);
    ghost var tail := ToBE(|rows|, 4) + ColumnsTo(cols, []);
    var out: seq<Byte> := [|columns|];
    out := AppendNames(columns, out, tail);
    Regroup(out, ToBE(|rows|, 4), ColumnsTo(cols, []));
    out := out + ToBE(|rows|, 4);
    ghost var whole := Encoded(columns, rows);
    hide NamesTo;
    hide ToBE;
    assert cols[0..] == cols;
    for j := 0 to |columns|
      invariant out + ColumnsTo(cols[j..], []) == whole
    {
      ghost var k := ColumnsTo(cols[j + 1..], []);
      assert cols[j..][1..] == cols[j + 1..];
      Regroup(out, [cols[j].tag], ValuesTo(cols[j].tag, cols[j].vals, k));
      out := out + [ColumnTag(columns[j], rows, j)];
      out := AppendValues(rows, j, out, cols[j].tag, k);
    }
    assert out + [] == out;
    r := Some(out);
  }

  method CheckFits(columns: seq<Name>, rows: seq<seq<Cell>>) returns (ok: bool)
    ensures ok <==> Fits(columns, rows)
  {
    if |columns| >= 256 || |rows| >= 0x1_0000_0000 { return false; }
    for j := 0 to |columns|
      invariant forall a :: 0 <= a < j ==> |columns[a]| < 256
    {
      if |columns[j]| >= 256 { return false; }
    }
    for i := 0 to |rows|
      invariant forall a, b :: 0 <= a < i && 0 <= b < |rows[a]| ==> CellFits(rows[a][b])
    {
      for j := 0 to |rows[i]|
        invariant forall b :: 0 <= b < j ==> CellFits(rows[i][b])
      {
        if !CellFits(rows[i][j]) { return false; }
      }
    }
    ok := true;
  }

  // ---- Decoding ----------------------------------------------------------

  /** A length-prefixed name. */
  function ReadName(s: seq<Byte>): Option<(Name, seq<Byte>)> {
    if s == [] then None
    else
      var t := s[1..];
      Some((t[..Clamp(t, s[0])], t[Clamp(t, s[0])..]))
  }

  /** `n` more names. */
  function ReadNames(acc: seq<Name>, s: seq<Byte>, n: nat): Option<(seq<Name>, seq<Byte>)>
    decreases n
  {
    if n == 0 then Some((acc, s))
    else
      match ReadName(s)
      case None => None
      case Some((name, rest)) => ReadNames(acc + [name], rest, n - 1)
  }

  /** `n` more values of a column. */
  function ReadCells(tag: seq<Byte>, acc: seq<Cell>, s: seq<Byte>, n: nat): Option<(seq<Cell>, seq<Byte>)>
    decreases n
  {
    if n == 0 then Some((acc, s))
    else
      match ReadCell(tag, s)
      case None => None
      case Some((c, rest)) => ReadCells(tag, acc + [c], rest, n - 1)
  }

  /** `n` more columns of `height` values. */
  function ReadColumns(acc: seq<seq<Cell>>, s: seq<Byte>, n: nat, height: nat): Option<(seq<seq<Cell>>, seq<Byte>)>
    decreases n
  {
    if n == 0 then Some((acc, s))
    else
      match ReadCells(s[..Clamp(s, 1)], [], s[Clamp(s, 1)..], height)
      case None => None
      case Some((col, rest)) => ReadColumns(acc + [col], rest, n - 1, height)
  }

  lemma {:induction false} NamesBack(acc: seq<Name>, columns: seq<Name>, k: seq<Byte>)
    requires forall j :: 0 <= j < |columns| ==> |columns[j]| < 256
    ensures ReadNames(acc, NamesTo(columns, k), |columns|) == Some((acc + columns, k))
    decreases |columns|
  {
    if columns == [] {
      Neutral(acc);
    } else {
      var name, rest := columns[0], NamesTo(columns[1..], k);
      Halves([|name|], name + rest);
      Halves(name, rest);
      NamesBack(acc + [name], columns[1..], k);
      Shift(acc, columns);
    }
  }

  lemma CellStep(tag: Byte, acc: seq<Cell>, c: Cell, rest: seq<Byte>, n: nat)
    requires CellFits(c) && TagOf(c) == tag
    ensures ReadCells([tag], acc, CellBytes(c) + rest, n + 1) == ReadCells([tag], acc + [c], rest, n)
  {
    CellBack(c, rest);
    hide CellBytes;
    hide ReadCell;
  }

  lemma {:induction false} CellsBack(tag: Byte, acc: seq<Cell>, vals: seq<Cell>, k: seq<Byte>)
    requires Packable(tag, vals)
    ensures ReadCells([tag], acc, ValuesTo(tag, vals, k), |vals|) == Some((acc + vals, k))
    decreases |vals|
  {
    hide CellBytes;
    hide CellFits;
    if vals == [] {
      Neutral(acc);
    } else {
      hide ReadCells;
      CellStep(tag, acc, vals[0], ValuesTo(tag, vals[1..], k), |vals| - 1);
      CellsBack(tag, acc + [vals[0]], vals[1..], k);
      Shift(acc, vals);
    }
  }

  function Values(cols: seq<Column>): seq<seq<Cell>> {
    seq(|cols|, j requires 0 <= j < |cols| => cols[j].vals)
  }

  lemma ColumnStep(acc: seq<seq<Cell>>, c: Column, rest: seq<Byte>, n: nat)
    requires Packable(c.tag, c.vals)
    ensures ReadColumns(acc, [c.tag] + ValuesTo(c.tag, c.vals, rest), n + 1, |c.vals|)
         == ReadColumns(acc + [c.vals], rest, n, |c.vals|)
  {
    Halves([c.tag], ValuesTo(c.tag, c.vals, rest));
    CellsBack(c.tag, [], c.vals, rest);
    Neutral(c.vals);
    hide ReadCells;
    hide ValuesTo;
  }

  lemma {:induction false} ColumnsBack(acc: seq<seq<Cell>>, cols: seq<Column>, height: nat, k: seq<Byte>)
    requires AllPackable(cols) && forall j :: 0 <= j < |cols| ==> |cols[j].vals| == height
    ensures ReadColumns(acc, ColumnsTo(cols, k), |cols|, height) == Some((acc + Values(cols), k))
    decreases |cols|
  {
    hide Packable;
    if cols == [] {
      Neutral(acc);
    } else {
      hide ReadColumns;
      hide ValuesTo;
      ColumnStep(acc, cols[0], ColumnsTo(cols[1..], k), |cols| - 1);
      ColumnsBack(acc + [cols[0].vals], cols[1..], height, k);
      assert Values(cols)[1..] == Values(cols[1..]);
      Shift(acc, Values(cols));
    }
  }

  /** Columns turned back into rows. */
  function Transposed(data: seq<seq<Cell>>, height: nat): seq<seq<Cell>>
    requires forall j :: 0 <= j < |data| ==> |data[j]| == height
  {
    seq(height, i requires 0 <= i < height => seq(|data|, j requires 0 <= j < |data| => data[j][i]))
  }

  lemma {:induction false} CellsLength(tag: seq<Byte>, acc: seq<Cell>, s: seq<Byte>, n: nat)
    requires ReadCells(tag, acc, s, n).Some?
    ensures |ReadCells(tag, acc, s, n).value.0| == |acc| + n
    decreases n
  {
    if n != 0 {
      var (c, rest) := ReadCell(tag, s).value;
      CellsLength(tag, acc + [c], rest, n - 1);
    }
  }

  lemma {:induction false} ColumnsHeight(acc: seq<seq<Cell>>, s: seq<Byte>, n: nat, height: nat)
    requires ReadColumns(acc, s, n, height).Some? && forall j :: 0 <= j < |acc| ==> |acc[j]| == height
    ensures var data := ReadColumns(acc, s, n, height).value.0;
      |data| == |acc| + n && forall j :: 0 <= j < |data| ==> |data[j]| == height
    decreases n
  {
    if n != 0 {
      CellsLength(s[..Clamp(s, 1)], [], s[Clamp(s, 1)..], height);
      var (col, rest) := ReadCells(s[..Clamp(s, 1)], [], s[Clamp(s, 1)..], height).value;
      ColumnsHeight(acc + [col], rest, n - 1, height);
    }
  }

  /** What `decode_result` makes of any payload: the result, and the bytes it did not look at. */
  function Decoded(s: seq<Byte>): Option<((seq<Name>, seq<seq<Cell>>), seq<Byte>)> {
    if s == [] then None
    else
      match ReadNames([], s[1..], s[0])
      case None => None
      case Some((columns, t)) =>
        if |t| < 4 then None
        else
          var height := FromBE(t[..4]);
          match ReadColumns([], t[4..], s[0], height)
          case None => None
          case Some((data, rest)) =>
            ColumnsHeight([], t[4..], s[0], height);
            Some(((columns, Transposed(data, height)), rest))
  }

  // ---- Payloads whose slices are all complete ----------------------------

  predicate NamesWhole(s: seq<Byte>, n: nat)
    decreases n
  {
    n == 0 || (s != [] && s[0] < |s| && NamesWhole(ReadName(s).value.1, n - 1))
  }

  predicate CellWhole(tag: seq<Byte>, s: seq<Byte>) {
    ReadCell(tag, s).Some? && (tag == [TAG_TEXT] ==> FromBE(s[..4]) <= |s| - 4)
  }

  predicate CellsWhole(tag: seq<Byte>, s: seq<Byte>, n: nat)
    decreases n
  {
    n == 0 || (CellWhole(tag, s) && CellsWhole(tag, ReadCell(tag, s).value.1, n - 1))
  }

  predicate ColumnsWhole(s: seq<Byte>, n: nat, height: nat)
    decreases n
  {
    n == 0 || (s != [] && CellsWhole(s[..1], s[1..], height) &&
               ReadCells(s[..1], [], s[1..], height).Some? &&
               ColumnsWhole(ReadCells(s[..1], [], s[1..], height).value.1, n - 1, height))
  }

  /** No name and no string of the payload is cut short. */
  predicate Whole(s: seq<Byte>) {
    s != [] && NamesWhole(s[1..], s[0]) &&
    match ReadNames([], s[1..], s[0])
    case None => false
    case Some((_, t)) => |t| >= 4 && ColumnsWhole(t[4..], s[0], FromBE(t[..4]))
  }

  lemma {:induction false} NamesAreWhole(columns: seq<Name>, k: seq<Byte>)
    requires forall j :: 0 <= j < |columns| ==> |columns[j]| < 256
    ensures NamesWhole(NamesTo(columns, k), |columns|)
    decreases |columns|
  {
    if columns != [] {
      var name, rest := columns[0], NamesTo(columns[1..], k);
      Halves([|name|], name + rest);
      Halves(name, rest);
      NamesAreWhole(columns[1..], k);
    }
  }

  lemma CellIsWhole(c: Cell, k: seq<Byte>)
    requires CellFits(c)
    ensures CellWhole([TagOf(c)], CellBytes(c) + k)
  {
    CellBack(c, k);
    if c.TextC? {
      Powers();
      BERoundTrip(|c.s|, 4);
      hide ToBE, FromBE, Pow256;
      assert (ToBE(|c.s|, 4) + c.s + k)[..4] == ToBE(|c.s|, 4);
    }
  }

  lemma {:induction false} CellsAreWhole(tag: Byte, vals: seq<Cell>, k: seq<Byte>)
    requires Packable(tag, vals)
    ensures CellsWhole([tag], ValuesTo(tag, vals, k), |vals|)
    decreases |vals|
  {
    hide CellBytes, CellWhole, ReadCell;
    if vals != [] {
      CellBack(vals[0], ValuesTo(tag, vals[1..], k));
      CellIsWhole(vals[0], ValuesTo(tag, vals[1..], k));
      CellsAreWhole(tag, vals[1..], k);
    }
  }

  lemma {:induction false} ColumnsAreWhole(cols: seq<Column>, height: nat, k: seq<Byte>)
    requires AllPackable(cols) && forall j :: 0 <= j < |cols| ==> |cols[j].vals| == height
    ensures ColumnsWhole(ColumnsTo(cols, k), |cols|, height)
    decreases |cols|
  {
    hide ColumnsWhole, Packable;
    if cols == [] {
      NoColumns(ColumnsTo(cols, k), height);
    } else {
      ColumnsAreWhole(cols[1..], height, k);
      ColumnIsWhole(cols[0], ColumnsTo(cols[1..], k), |cols| - 1);
    }
  }

  lemma NoColumns(s: seq<Byte>, height: nat)
    ensures ColumnsWhole(s, 0, height)
  {
  }

  lemma ColumnIsWhole(c: Column, rest: seq<Byte>, n: nat)
    requires Packable(c.tag, c.vals) && ColumnsWhole(rest, n, |c.vals|)
    ensures ColumnsWhole([c.tag] + ValuesTo(c.tag, c.vals, rest), n + 1, |c.vals|)
  {
    CellsBack(c.tag, [], c.vals, rest);
    CellsAreWhole(c.tag, c.vals, rest);
    hide ValuesTo, CellsWhole, ReadCells, Packable;
    Halves([c.tag], ValuesTo(c.tag, c.vals, rest));
  }

  /** What the encoder writes is whole, whatever follows it. */
  lemma EncodedIsWhole(columns: seq<Name>, rows: seq<seq<Cell>>, k: seq<Byte>)
    requires Encodable(columns, rows)
    ensures Whole(EncodedTo(columns, rows, k))
  {
    var cols := Pivot(columns, rows);
    var t := ColumnsTo(cols, k);
    var tail := ToBE(|rows|, 4) + t;
    Powers();
    BERoundTrip(|rows|, 4);
    NamesBack([], columns, tail);
    NamesAreWhole(columns, tail);
    ColumnsAreWhole(cols, |rows|, k);
    Halves([|columns|], NamesTo(columns, tail));
    Halves(ToBE(|rows|, 4), t);
    hide ToBE, FromBE, NamesTo, ReadNames, NamesWhole, ColumnsWhole, ColumnsTo, Pivot, Encodable;
    Neutral(columns);
  }

  // ---- The decoder's cursor ----------------------------------------------

  /** What is left at a position, which may have moved past the end. */
  function From(s: seq<Byte>, pos: nat): seq<Byte> {
    s[Min(pos, |s|)..]
  }

  lemma Advance(s: seq<Byte>, pos: nat, n: nat)
    ensures Slice(s, pos, pos + n) == From(s, pos)[..Clamp(From(s, pos), n)]
    ensures From(s, pos + n) == From(s, pos)[Clamp(From(s, pos), n)..]
  {
  }

  method DecodeName(payload: seq<Byte>, start: nat) returns (r: Option<Name>, pos: nat)
    ensures ReadName(From(payload, start)) == if r == None then None else Some((r.value, From(payload, pos)))
    ensures start < |payload| && payload[start] < |payload| - start ==> pos <= |payload|
  {
    if start >= |payload| { return None, start; }
    var length := payload[start];
    Advance(payload, start, 1);
    Advance(payload, start + 1, length);
    r, pos := Some(Slice(payload, start + 1, start + 1 + length)), start + 1 + length;
  }

  method DecodeNames(payload: seq<Byte>, start: nat, n: nat) returns (r: Option<seq<Name>>, pos: nat)
    ensures ReadNames([], From(payload, start), n) == if r == None then None else Some((r.value, From(payload, pos)))
    ensures r.Some? && start <= |payload| && NamesWhole(From(payload, start), n) ==> pos <= |payload|
  {
    hide ReadName;
    var columns: seq<Name> := [];
    pos := start;
    for i := 0 to n
      invariant ReadNames([], From(payload, start), n) == ReadNames(columns, From(payload, pos), n - i)
      invariant start <= |payload| && NamesWhole(From(payload, start), n) ==>
        pos <= |payload| && NamesWhole(From(payload, pos), n - i)
    {
      var name, next := DecodeName(payload, pos);
      if name == None { return None, pos; }
      columns := columns + [name.value];
      pos := next;
    }
    r := Some(columns);
  }

  method DecodeCell(payload: seq<Byte>, start: nat, tag: seq<Byte>) returns (r: Option<Cell>, pos: nat)
    ensures ReadCell(tag, From(payload, start)) == if r == None then None else Some((r.value, From(payload, pos)))
    ensures r.Some? && start <= |payload| && CellWhole(tag, From(payload, start)) ==> pos <= |payload|
  {
    hide FromBE;
    if tag == [TAG_TEXT] {
      if start + 4 > |payload| { return None, start; }
      var n := FromBE(payload[start..start + 4]);
      Advance(payload, start, 4);
      Advance(payload, start + 4, n);
      return Some(TextC(Slice(payload, start + 4, start + 4 + n))), start + 4 + n;
    }
    if start + 8 > |payload| { return None, start; }
    var u := FromBE(payload[start..start + 8]);
    Advance(payload, start, 8);
    r := Some(if tag == [TAG_FLOAT] then FloatC(u) else IntC(Signed(u)));
    pos := start + 8;
  }

  method DecodeColumn(payload: seq<Byte>, start: nat, tag: seq<Byte>, n: nat) returns (r: Option<seq<Cell>>, pos: nat)
    ensures ReadCells(tag, [], From(payload, start), n) == if r == None then None else Some((r.value, From(payload, pos)))
    ensures r.Some? && start <= |payload| && CellsWhole(tag, From(payload, start), n) ==> pos <= |payload|
  {
    hide ReadCell;
    var vals: seq<Cell> := [];
    pos := start;
    for i := 0 to n
      invariant ReadCells(tag, [], From(payload, start), n) == ReadCells(tag, vals, From(payload, pos), n - i)
      invariant start <= |payload| && CellsWhole(tag, From(payload, start), n) ==>
        pos <= |payload| && CellsWhole(tag, From(payload, pos), n - i)
    {
      var cell, next := DecodeCell(payload, pos, tag);
      if cell == None { return None, pos; }
      vals := vals + [cell.value];
      pos := next;
    }
    r := Some(vals);
  }

  lemma NextColumnIs(s: seq<Byte>, data: seq<seq<Cell>>, n: nat, height: nat)
    ensures var col := ReadCells(s[..Clamp(s, 1)], [], s[Clamp(s, 1)..], height);
      && ReadColumns(data, s, n + 1, height)
           == (if col == None then None else ReadColumns(data + [col.value.0], col.value.1, n, height))
      && (ColumnsWhole(s, n + 1, height) ==>
            s != [] && CellsWhole(s[..Clamp(s, 1)], s[Clamp(s, 1)..], height)
            && col.Some? && ColumnsWhole(col.value.1, n, height))
  {
    hide ReadCells, CellsWhole;
  }

  /** One column more: its tag, then its values. */
  method DecodeNextColumn(payload: seq<Byte>, pos: nat, height: nat, ghost data: seq<seq<Cell>>, ghost n: nat)
      returns (col: Option<seq<Cell>>, next: nat)
    ensures ReadColumns(data, From(payload, pos), n + 1, height)
         == if col == None then None else ReadColumns(data + [col.value], From(payload, next), n, height)
    ensures col.Some? && pos <= |payload| && ColumnsWhole(From(payload, pos), n + 1, height) ==>
      next <= |payload| && ColumnsWhole(From(payload, next), n, height)
  {
    hide ReadCells, CellsWhole, ReadColumns, ColumnsWhole;
    NextColumnIs(From(payload, pos), data, n, height);
    Advance(payload, pos, 1);
    col, next := DecodeColumn(payload, pos + 1, Slice(payload, pos, pos + 1), height);
  }

  method DecodeColumns(payload: seq<Byte>, start: nat, n: nat, height: nat) returns (r: Option<seq<seq<Cell>>>, pos: nat)
    ensures ReadColumns([], From(payload, start), n, height) == if r == None then None else Some((r.value, From(payload, pos)))
    ensures r.Some? && start <= |payload| && ColumnsWhole(From(payload, start), n, height) ==> pos <= |payload|
  {
    var data: seq<seq<Cell>> := [];
    pos := start;
    for i := 0 to n
      invariant ReadColumns([], From(payload, start), n, height) == ReadColumns(data, From(payload, pos), n - i, height)
      invariant start <= |payload| && ColumnsWhole(From(payload, start), n, height) ==>
        pos <= |payload| && ColumnsWhole(From(payload, pos), n - i, height)
    {
      hide ReadColumns, ColumnsWhole, From;
      var col, next := DecodeNextColumn(payload, pos, height, data, n - i - 1);
      if col == None { return None, pos; }
      data := data + [col.value];
      pos := next;
    }
    r := Some(data);
  }

  /** `decode_result`, with the position where it ends. */
  method DecodeResult(payload: seq<Byte>) returns (r: Option<(seq<Name>, seq<seq<Cell>>)>, pos: nat)
    ensures Decoded(payload) == if r == None then None else Some((r.value, From(payload, pos)))
    ensures r.Some? && Whole(payload) ==> pos <= |payload|
  {
    hide FromBE;
    hide ReadNames;
    hide ReadColumns;
    if payload == [] { return None, 0; }
    assert From(payload, 1) == payload[1..];
    var columns, at := DecodeNames(payload, 1, payload[0]);
    if columns == None { return None, at; }
    if at + 4 > |payload| { return None, at; }
    var height := FromBE(payload[at..at + 4]);
    Advance(payload, at, 4);
    var data, end := DecodeColumns(payload, at + 4, payload[0], height);
    if data == None { return None, end; }
    ColumnsHeight([], From(payload, at + 4), payload[0], height);
    r := Some((columns.value, Transposed(data.value, height)));
    pos := end;
  }

  lemma DecodedFrom(n: Byte, s: seq<Byte>, columns: seq<Name>, height: nat, t: seq<Byte>, data: seq<seq<Cell>>, rest: seq<Byte>)
    requires height < Pow256(4)
    requires ReadNames([], s, n) == Some((columns, ToBE(height, 4) + t))
    requires ReadColumns([], t, n, height) == Some((data, rest))
    ensures forall j :: 0 <= j < |data| ==> |data[j]| == height
    ensures Decoded([n] + s) == Some(((columns, Transposed(data, height)), rest))
  {
    BERoundTrip(height, 4);
    ColumnsHeight([], t, n, height);
    hide ToBE;
    hide FromBE;
    Halves([n], s);
    Halves(ToBE(height, 4), t);
    hide ReadNames;
    hide ReadColumns;
  }

  lemma TransposedBack(columns: seq<Name>, rows: seq<seq<Cell>>)
    requires Encodable(columns, rows)
    ensures Transposed(Values(Pivot(columns, rows)), |rows|) == rows
  {
    hide Fits;
    hide Packable;
    var data := Values(Pivot(columns, rows));
    forall i | 0 <= i < |rows| ensures Transposed(data, |rows|)[i] == rows[i] {
      assert forall j :: 0 <= j < |columns| ==> data[j][i] == rows[i][j];
    }
  }

  /** Decoding inverts encoding, and looks at no byte beyond the payload. */
  lemma RoundTrip(columns: seq<Name>, rows: seq<seq<Cell>>, k: seq<Byte>)
    requires Encodable(columns, rows)
    ensures Decoded(EncodedTo(columns, rows, k)) == Some(((columns, rows), k))
  {
    var cols := Pivot(columns, rows);
    var t := ColumnsTo(cols, k);
    var tail := ToBE(|rows|, 4) + t;
    Powers();
    NamesBack([], columns, tail);
    ColumnsBack([], cols, |rows|, k);
    Neutral(columns);
    Neutral(Values(cols));
    assert EncodedTo(columns, rows, k) == [|columns|] + NamesTo(columns, tail);
    DecodedFrom(|columns|, NamesTo(columns, tail), columns, |rows|, t, Values(cols), k);
    TransposedBack(columns, rows);
    hide *;
  }

  /** Encode, then decode: the same result, and a position exactly at the end of the payload. */
  method Transfer(columns: seq<Name>, rows: seq<seq<Cell>>)
      returns (r: Option<(seq<Name>, seq<seq<Cell>>)>, pos: nat, size: nat)
    requires Encodable(columns, rows)
    ensures r == Some((columns, rows)) && pos == size == |Encoded(columns, rows)|
  {
    hide *;
    FitsOf(columns, rows);
    var payload := EncodeResult(columns, rows);
    RoundTrip(columns, rows, []);
    EncodedIsWhole(columns, rows, []);
    r, pos := DecodeResult(payload.value);
    size := |payload.value|;
    EndOf(payload.value, pos);
  }

  lemma FitsOf(columns: seq<Name>, rows: seq<seq<Cell>>)
    requires Encodable(columns, rows)
    ensures Homogeneous(columns, rows) && Fits(columns, rows)
    ensures Encoded(columns, rows) == EncodedTo(columns, rows, [])
  {
  }

  lemma EndOf(s: seq<Byte>, pos: nat)
    ensures From(s, pos) == [] <==> pos >= |s|
  {
  }
}
