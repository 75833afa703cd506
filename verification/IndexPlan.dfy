/** Turning a WHERE clause into index lookups and a residual (packetql/index/indexes.py): what it means. */
module IndexPlan {
  import opened Wrappers
  import opened Seqs
  import opened Bits
  import opened Text
  import opened Ast
  import opened Predicate
  import opened IndexLog
  import Trie
  import Bitmap

  datatype IndexError = TypeError | ValueError

  const TRIE_COLS: set<string> := {"src_ip", "dst_ip"}
  const HASH_COLS: set<string> := {"src_port", "dst_port"}
  const NAMES: set<string> :=
    {"ts", "src_ip", "dst_ip", "src_port", "dst_port", "proto", "size", "flags", "ttl"}

  /** The columns of a store of `n` rows: equal lengths, fields within their widths. */
  ghost predicate StoreColumns(t: Columns, n: nat) {
    && t.Keys == NAMES
    && (forall c :: c in NAMES ==> |t[c]| == n)
    && (forall c, i :: c in TRIE_COLS && 0 <= i < n ==> 0 <= t[c][i] < 0x1_0000_0000)
    && (forall c, i :: c in HASH_COLS && 0 <= i < n ==> 0 <= t[c][i] < 0x1_0000)
  }

  /** The rows that satisfy an expression, ascending. */
  function Matching(e: Expr, t: Columns, n: nat): seq<nat>
    requires Typed(e) && forall i :: 0 <= i < n ==> HasRow(t, ColumnsIn(e), i)
  {
    if n == 0 then [] else Matching(e, t, n - 1) + (if EvalAt(e, t, n - 1) then [n - 1] else [])
  }

  lemma {:induction false} MatchingExact(e: Expr, t: Columns, n: nat)
    requires Typed(e) && forall i :: 0 <= i < n ==> HasRow(t, ColumnsIn(e), i)
    ensures StrictlyAscending(Matching(e, t, n))
    ensures forall i :: i in Matching(e, t, n) <==> 0 <= i < n && EvalAt(e, t, i)
  {
    if n != 0 {
      var m := Matching(e, t, n - 1);
      MatchingExact(e, t, n - 1);
      forall k | 0 <= k < |m| ensures m[k] < n - 1 { assert m[k] in m; }
    }
  }

  // ---- Splitting and rebuilding the ANDs ---------------------------------

  /** `_conjuncts`: the operands of the top-level ANDs, left to right. */
  function Conjuncts(e: Expr): (cs: seq<Expr>)
    ensures |cs| >= 1
  {
    if e.BinaryOp? && e.op == AndOp then Conjuncts(e.left) + Conjuncts(e.right) else [e]
  }

  /** `_rebuild_and`: a left-leaning AND of what is left, or nothing. */
  function RebuildAnd(cs: seq<Expr>): Option<Expr> {
    if cs == [] then None
    else
      var n := |cs| - 1;
      if n == 0 then Some(cs[0]) else Some(BinaryOp(AndOp, RebuildAnd(cs[..n]).value, cs[n]))
  }

  ghost predicate Holds(c: Expr, t: Columns, i: nat) {
    Typed(c) && HasRow(t, ColumnsIn(c), i) && EvalAt(c, t, i)
  }

  ghost predicate AllHold(cs: seq<Expr>, t: Columns, i: nat) {
    forall c :: c in cs ==> Holds(c, t, i)
  }

  lemma AllHoldAppend(cs: seq<Expr>, ds: seq<Expr>, t: Columns, i: nat)
    ensures AllHold(cs + ds, t, i) <==> AllHold(cs, t, i) && AllHold(ds, t, i)
  {
    assert forall x :: x in cs + ds <==> x in cs || x in ds;
  }

  lemma AllHoldPush(cs: seq<Expr>, c: Expr, t: Columns, i: nat)
    ensures AllHold(cs + [c], t, i) <==> AllHold(cs, t, i) && Holds(c, t, i)
  {
    AllHoldAppend(cs, [c], t, i);
  }

  /** Flattening keeps types and columns, and a row satisfies the AND when it satisfies every conjunct. */
  lemma {:induction false} ConjunctsMean(e: Expr, t: Columns, i: nat)
    requires Typed(e)
    ensures forall c :: c in Conjuncts(e) ==> Typed(c) && ColumnsIn(c) <= ColumnsIn(e)
    ensures HasRow(t, ColumnsIn(e), i) ==> (EvalAt(e, t, i) <==> AllHold(Conjuncts(e), t, i))
  {
    if e.BinaryOp? && e.op == AndOp {
      ConjunctsMean(e.left, t, i);
      ConjunctsMean(e.right, t, i);
      AllHoldAppend(Conjuncts(e.left), Conjuncts(e.right), t, i);
    } else {
      assert Conjuncts(e) == [e] && e in [e];
    }
  }

  lemma {:induction false} RebuildMeans(cs: seq<Expr>, names: set<string>, t: Columns, i: nat)
    requires forall c :: c in cs ==> Typed(c) && ColumnsIn(c) <= names
    ensures RebuildAnd(cs) == None <==> cs == []
    ensures cs != [] ==> Typed(RebuildAnd(cs).value) && ColumnsIn(RebuildAnd(cs).value) <= names
    ensures cs != [] && HasRow(t, names, i) ==> (EvalAt(RebuildAnd(cs).value, t, i) <==> AllHold(cs, t, i))
  {
    if cs != [] {
      var n := |cs| - 1;
      assert cs == cs[..n] + [cs[n]];
      RebuildMeans(cs[..n], names, t, i);
      AllHoldPush(cs[..n], cs[n], t, i);
      if n == 0 { assert AllHold([], t, i); }
    }
  }

  // ---- What the indexes answer -------------------------------------------

  /** `_col_lit` */
  function ColLit(l: Expr, r: Expr): Option<(string, Value)> {
    if l.ColumnRef? && r.Literal? then Some((l.name, r.value))
    else if r.ColumnRef? && l.Literal? then Some((r.name, l.value))
    else None
  }

  /** Whether `_resolve` uses an index for this conjunct. */
  predicate Sargable(conj: Expr) {
    conj.BinaryOp?
    && (if conj.op == Eq then
          ColLit(conj.left, conj.right).Some?
          && ColLit(conj.left, conj.right).value.0 in {"proto"} + HASH_COLS + TRIE_COLS
        else
          conj.op == Like && conj.left.ColumnRef? && conj.left.name in TRIE_COLS
          && conj.right.Literal? && conj.right.value.StrV?)
  }

  /** Which conjuncts those are: an address, a port or the protocol equal to a literal on either side, and an address LIKE
      a text. */
  lemma SargableWhen(conj: Expr)
    ensures Sargable(conj) <==>
      || (exists c, v :: c in {"src_ip", "dst_ip", "src_port", "dst_port", "proto"}
            && (conj == BinaryOp(Eq, ColumnRef(c), Literal(v)) || conj == BinaryOp(Eq, Literal(v), ColumnRef(c))))
      || (exists c, s :: c in {"src_ip", "dst_ip"} && conj == BinaryOp(Like, ColumnRef(c), Literal(StrV(s))))
  {
  }

  /** The dictionary key a literal equals: integers, and decimals with an integral value. */
  function LookupKey(v: Value): Option<int> {
    if v.IntV? then Some(v.i)
    else if IsNumber(v) && (NumberOf(v).Floor as real) == NumberOf(v) then Some(NumberOf(v).Floor)
    else None
  }

  function BitmapRows(values: seq<int>, lit: Value): seq<nat> {
    if LookupKey(lit) == None then [] else Bitmap.SetBits(Bitmap.OredBits(Enumerate(values), LookupKey(lit).value), 0)
  }

  /** A string cannot be compared with the bounds, and a decimal cannot index the table. */
  function PortRows(values: seq<int>, lit: Value): Result<seq<nat>, IndexError> {
    if lit.IntV? then Ok(RowsOf(Enumerate(values), lit.i))
    else if IsNumber(lit) && !(0.0 <= NumberOf(lit) < 65536.0) then Ok([])
    else Err(TypeError)
  }

  function TrieRows(values: seq<int>, prefix: int, bits: nat): Result<seq<nat>, IndexError> {
    var r := Trie.PrefixAnswer(Enumerate(values), prefix, bits);
    if r.Ok? then Ok(r.value) else Err(IndexError.ValueError)
  }

  /** Only integers can be shifted. */
  function AddressRows(values: seq<int>, lit: Value): Result<seq<nat>, IndexError> {
    if lit.IntV? then TrieRows(values, lit.i, 32) else Err(TypeError)
  }

  function LikeRows(values: seq<int>, pattern: string): Result<seq<nat>, IndexError> {
    match LikeOctets(pattern)
    case Err(_) => Err(IndexError.ValueError)
    case Ok(known) => TrieRows(values, LowOf(known, 4), 8 * |known|)
  }

  /** `_resolve` over indexes that represent the columns. */
  function ResolveRows(t: Columns, conj: Expr): Result<seq<nat>, IndexError>
    requires Sargable(conj) && t.Keys == NAMES
  {
    if conj.op == Eq then
      var (col, lit) := ColLit(conj.left, conj.right).value;
      if col == "proto" then Ok(BitmapRows(t[col], lit))
      else if col in HASH_COLS then PortRows(t[col], lit)
      else AddressRows(t[col], lit)
    else LikeRows(t[conj.left.name], conj.right.value.s)
  }

  // ---- When the answer is the scan's -------------------------------------

  /** The literals on which index and scan agree: any for proto, no string or in-range decimal for a port,
      a 32-bit integer for an address, a pattern of at most four octets that fits 32 bits. */
  predicate Fits(conj: Expr)
    requires Sargable(conj)
  {
    if conj.op == Eq then
      var (col, lit) := ColLit(conj.left, conj.right).value;
      if col == "proto" then true
      else if col in HASH_COLS then lit.IntV? || (IsNumber(lit) && !(0.0 <= NumberOf(lit) < 65536.0))
      else lit.IntV? && 0 <= lit.i < 0x1_0000_0000
    else
      var known := LikeOctets(conj.right.value.s);
      known.Ok? && |known.value| <= 4 && LowOf(known.value, 4) < 0x1_0000_0000
  }

  lemma SmallPowers()
    ensures Pow2(32) == 0x1_0000_0000
  {
    assert Pow2(8) == 256;
    Pow2Add(8, 8);
    Pow2Add(16, 16);
  }

  /** A full descent looks at the low 32 bits. */
  lemma LowWord(v: int)
    ensures Top(v, 32) == v % 0x1_0000_0000
  {
    SmallPowers();
    TopFull(v);
  }

  /** An indexable conjunct names exactly one column. */
  lemma SargableColumns(conj: Expr)
    requires Sargable(conj)
    ensures ColumnsIn(conj) <= NAMES
  {
    var l, r := conj.left, conj.right;
    if conj.op == Eq && !l.ColumnRef? {
      assert ColumnsIn(l) == {} && ColumnsIn(r) == {r.name};
    } else {
      assert ColumnsIn(l) == {l.name} && ColumnsIn(r) == {};
    }
  }

  lemma StoreRowsAre(t: Columns, n: nat, conj: Expr)
    requires StoreColumns(t, n) && Sargable(conj)
    ensures ColumnsIn(conj) <= NAMES
    ensures forall i :: 0 <= i < n ==> HasRow(t, ColumnsIn(conj), i)
  {
    SargableColumns(conj);
  }

  /** Comparing an integer column with a literal for equality. */
  lemma EqMeans(conj: Expr, t: Columns, n: nat, i: nat)
    requires StoreColumns(t, n) && i < n
    requires Typed(conj) && Sargable(conj) && conj.op == Eq
    ensures ColumnsIn(conj) <= NAMES
    ensures var (col, lit) := ColLit(conj.left, conj.right).value;
      EvalAt(conj, t, i) <==> IsNumber(lit) && NumberOf(lit) == (t[col][i] as real)
  {
    StoreRowsAre(t, n, conj);
  }

  lemma IsMatching(rows: seq<nat>, e: Expr, t: Columns, n: nat)
    requires Typed(e) && forall i :: 0 <= i < n ==> HasRow(t, ColumnsIn(e), i)
    requires StrictlyAscending(rows)
    requires forall i :: i in rows <==> 0 <= i < n && EvalAt(e, t, i)
    ensures rows == Matching(e, t, n)
  {
    MatchingExact(e, t, n);
    AscendingUnique(rows, Matching(e, t, n));
  }

  lemma BitmapExact(conj: Expr, t: Columns, n: nat, lit: Value)
    requires StoreColumns(t, n) && Typed(conj) && Sargable(conj) && conj.op == Eq
    requires ColLit(conj.left, conj.right).value == ("proto", lit)
    ensures ColumnsIn(conj) <= NAMES
    ensures BitmapRows(t["proto"], lit) == Matching(conj, t, n)
  {
    var rows := BitmapRows(t["proto"], lit);
    StoreRowsAre(t, n, conj);
    forall i: nat | i < n
      ensures EvalAt(conj, t, i) <==> LookupKey(lit).Some? && t["proto"][i] == LookupKey(lit).value
    {
      EqMeans(conj, t, n, i);
    }
    if LookupKey(lit).Some? {
      var k := LookupKey(lit).value;
      Bitmap.SetBitsAreRows(t["proto"], k);
      RowsWhereExact(t["proto"], v => v == k);
    }
    IsMatching(rows, conj, t, n);
  }

  lemma PortExact(conj: Expr, t: Columns, n: nat, col: string, lit: Value)
    requires StoreColumns(t, n) && Typed(conj) && Sargable(conj) && conj.op == Eq && Fits(conj)
    requires ColLit(conj.left, conj.right).value == (col, lit) && col in HASH_COLS && col != "proto"
    ensures ColumnsIn(conj) <= NAMES
    ensures PortRows(t[col], lit) == Ok(Matching(conj, t, n))
  {
    var rows := PortRows(t[col], lit).value;
    StoreRowsAre(t, n, conj);
    forall i: nat | i < n
      ensures EvalAt(conj, t, i) <==> lit.IntV? && t[col][i] == lit.i
    {
      EqMeans(conj, t, n, i);
    }
    if lit.IntV? {
      RowsOfEnumerate(t[col], lit.i);
      RowsWhereExact(t[col], v => v == lit.i);
    }
    IsMatching(rows, conj, t, n);
  }

  /** A trie lookup of a 32-bit address lists the rows that hold it. */
  lemma AddressRowsExact(values: seq<int>, v: int)
    requires 0 <= v < 0x1_0000_0000
    requires forall i :: 0 <= i < |values| ==> 0 <= values[i] < 0x1_0000_0000
    ensures AddressRows(values, IntV(v)).Ok?
    ensures var rows := AddressRows(values, IntV(v)).value;
      StrictlyAscending(rows) && forall i :: i in rows <==> 0 <= i < |values| && values[i] == v
  {
    hide Top;
    Trie.PrefixAnswerExact(values, v, 32);
    RowsWhereExact(values, w => Top(w, 32) == Top(v, 32));
    LowWord(v);
    forall i | 0 <= i < |values| ensures Top(values[i], 32) == values[i] {
      LowWord(values[i]);
    }
  }

  lemma AddressExact(conj: Expr, t: Columns, n: nat, col: string, lit: Value)
    requires StoreColumns(t, n) && Typed(conj) && Sargable(conj) && conj.op == Eq && Fits(conj)
    requires ColLit(conj.left, conj.right).value == (col, lit) && col in TRIE_COLS && col !in HASH_COLS && col != "proto"
    ensures ColumnsIn(conj) <= NAMES
    ensures AddressRows(t[col], lit) == Ok(Matching(conj, t, n))
  {
    StoreRowsAre(t, n, conj);
    AddressRowsExact(t[col], lit.i);
    forall i: nat | i < n
      ensures EvalAt(conj, t, i) <==> t[col][i] == lit.i
    {
      EqMeans(conj, t, n, i);
    }
    hide AddressRows;
    IsMatching(AddressRows(t[col], lit).value, conj, t, n);
  }

  lemma LikeExact(conj: Expr, t: Columns, n: nat)
    requires StoreColumns(t, n) && Typed(conj) && Sargable(conj) && conj.op == Like && Fits(conj)
    ensures ColumnsIn(conj) <= NAMES
    ensures LikeRows(t[conj.left.name], conj.right.value.s) == Ok(Matching(conj, t, n))
  {
    var col, known := conj.left.name, LikeOctets(conj.right.value.s).value;
    var low, bits := LowOf(known, 4), 8 * |known|;
    var rows := LikeRows(t[col], conj.right.value.s).value;
    StoreRowsAre(t, n, conj);
    Trie.PrefixAnswerExact(t[col], low, bits);
    RowsWhereExact(t[col], v => Top(v, bits) == Top(low, bits));
    SmallPowers();
    RangeIsBlock(known);
    forall i: nat | i < n
      ensures EvalAt(conj, t, i) <==> Top(t[col][i], bits) == Top(low, bits)
    {
      TopInterval(t[col][i], low, bits);
    }
    IsMatching(rows, conj, t, n);
  }

  /** In the literal domain an index lookup returns exactly the rows the scan would keep. */
  lemma ResolveExact(t: Columns, n: nat, conj: Expr)
    requires StoreColumns(t, n) && Typed(conj) && Sargable(conj) && Fits(conj)
    ensures ColumnsIn(conj) <= NAMES
    ensures ResolveRows(t, conj) == Ok(Matching(conj, t, n))
  {
    if conj.op == Eq {
      var (col, lit) := ColLit(conj.left, conj.right).value;
      if col == "proto" { BitmapExact(conj, t, n, lit); }
      else if col in HASH_COLS { PortExact(conj, t, n, col, lit); }
      else { AddressExact(conj, t, n, col, lit); }
    } else {
      LikeExact(conj, t, n);
    }
  }

  // ---- What a lookup makes of one row -------------------------------------

  datatype Look = Finds | Misses | Fails

  function Hit(b: bool): Look {
    if b then Finds else Misses
  }

  /** The column an indexable conjunct is looked up in. */
  function LookupColumn(conj: Expr): (c: string)
    requires Sargable(conj)
    ensures c in NAMES
  {
    if conj.op == Eq then ColLit(conj.left, conj.right).value.0 else conj.left.name
  }

  /** What the lookup of a conjunct makes of a row, given its value in that column: addresses are compared modulo 2^32,
      and a prefix longer than 32 bits fails on the rows it reaches. */
  function LookAt(conj: Expr, v: int): Look
    requires Sargable(conj)
  {
    if conj.op == Eq then
      var (col, lit) := ColLit(conj.left, conj.right).value;
      if col == "proto" then Hit(LookupKey(lit) == Some(v))
      else if col in HASH_COLS then
        if lit.IntV? then Hit(v == lit.i)
        else if IsNumber(lit) && !(0.0 <= NumberOf(lit) < 65536.0) then Misses
        else Fails
      else if lit.IntV? then Hit(Top(v, 32) == Top(lit.i, 32)) else Fails
    else
      match LikeOctets(conj.right.value.s)
      case Err(_) => Fails
      case Ok(known) => LookUnder(v, LowOf(known, 4), 8 * |known|)
  }

  function LookUnder(v: int, prefix: int, bits: nat): Look {
    if bits <= 32 then Hit(Top(v, bits) == Top(prefix, bits))
    else if Top(v, 32) == Top(prefix, 32) then Fails else Misses
  }

  /** A lookup fails when it fails on some row, or on any row whatever; otherwise it lists the rows it finds. */
  ghost predicate RowByRow(conj: Expr, values: seq<int>, answer: Result<seq<nat>, IndexError>)
    requires Sargable(conj)
  {
    && (answer.Err? ==> (exists i :: 0 <= i < |values| && LookAt(conj, values[i]).Fails?) || forall v :: LookAt(conj, v).Fails?)
    && (answer.Ok? ==> forall i :: 0 <= i < |values| ==> !LookAt(conj, values[i]).Fails?)
    && (answer.Ok? ==> forall i :: i in answer.value <==> 0 <= i < |values| && LookAt(conj, values[i]).Finds?)
  }

  lemma ShortPrefix(values: seq<int>, prefix: int, bits: nat)
    requires bits <= 32
    ensures TrieRows(values, prefix, bits).Ok?
    ensures forall i :: i in TrieRows(values, prefix, bits).value <==>
      0 <= i < |values| && LookUnder(values[i], prefix, bits).Finds?
  {
    hide Top;
    Trie.PrefixAnswerExact(values, prefix, bits);
    RowsWhereExact(values, v => Top(v, bits) == Top(prefix, bits));
  }

  lemma LongPrefix(values: seq<int>, prefix: int, bits: nat)
    requires bits > 32
    ensures TrieRows(values, prefix, bits)
         == if exists i :: 0 <= i < |values| && LookUnder(values[i], prefix, bits).Fails? then Err(IndexError.ValueError)
            else Ok([])
  {
    hide Top, Trie.Under;
    var under := Trie.Under(Enumerate(values), 32, Top(prefix, 32));
    UnderLists(values, Top(prefix, 32));
    if under != [] {
      assert under[0] in under;
      assert LookUnder(values[under[0]], prefix, bits).Fails?;
    } else {
      forall i | 0 <= i < |values| ensures !LookUnder(values[i], prefix, bits).Fails? { assert i !in under; }
    }
  }

  lemma UnderLists(values: seq<int>, p: nat)
    ensures forall i :: i in Trie.Under(Enumerate(values), 32, p) <==> 0 <= i < |values| && Top(values[i], 32) == p
  {
    hide Top;
    Trie.UnderEnumerate(values, 32, p);
    RowsWhereExact(values, v => Top(v, 32) == p);
  }

  lemma TrieByRow(conj: Expr, values: seq<int>, prefix: int, bits: nat)
    requires Sargable(conj) && forall v :: LookAt(conj, v) == LookUnder(v, prefix, bits)
    ensures RowByRow(conj, values, TrieRows(values, prefix, bits))
  {
    assert bits <= 32 ==> forall v :: !LookUnder(v, prefix, bits).Fails?;
    assert bits > 32 ==> forall v :: !LookUnder(v, prefix, bits).Finds?;
    hide LookAt, LookUnder, TrieRows;
    if bits <= 32 { ShortPrefix(values, prefix, bits); } else { LongPrefix(values, prefix, bits); }
  }

  lemma ProtoByRow(conj: Expr, values: seq<int>, lit: Value)
    requires Sargable(conj) && conj.op == Eq && ColLit(conj.left, conj.right).value == ("proto", lit)
    ensures RowByRow(conj, values, Ok(BitmapRows(values, lit)))
  {
    if LookupKey(lit).Some? {
      var k := LookupKey(lit).value;
      Bitmap.SetBitsAreRows(values, k);
      RowsWhereExact(values, v => v == k);
    }
  }

  lemma PortByRow(conj: Expr, values: seq<int>, col: string, lit: Value)
    requires Sargable(conj) && conj.op == Eq && ColLit(conj.left, conj.right).value == (col, lit)
    requires col in HASH_COLS && col != "proto"
    ensures RowByRow(conj, values, PortRows(values, lit))
  {
    if lit.IntV? {
      RowsOfEnumerate(values, lit.i);
      RowsWhereExact(values, v => v == lit.i);
    }
  }

  /** An index answers row by row: what it lists depends on the literal and the value of each row alone. */
  lemma ResolveByRow(t: Columns, conj: Expr)
    requires t.Keys == NAMES && Sargable(conj)
    ensures RowByRow(conj, t[LookupColumn(conj)], ResolveRows(t, conj))
  {
    hide RowByRow, TrieRows, BitmapRows, PortRows, LowOf;
    var values := t[LookupColumn(conj)];
    if conj.op == Eq {
      var (col, lit) := ColLit(conj.left, conj.right).value;
      if col == "proto" { ProtoByRow(conj, values, lit); }
      else if col in HASH_COLS { PortByRow(conj, values, col, lit); }
      else if lit.IntV? { TrieByRow(conj, values, lit.i, 32); }
      else { AlwaysFails(conj, values, TypeError); }
    } else if LikeOctets(conj.right.value.s).Ok? {
      var known := LikeOctets(conj.right.value.s).value;
      TrieByRow(conj, values, LowOf(known, 4), 8 * |known|);
    } else {
      AlwaysFails(conj, values, IndexError.ValueError);
    }
  }

  lemma AlwaysFails(conj: Expr, values: seq<int>, e: IndexError)
    requires Sargable(conj) && forall v :: LookAt(conj, v).Fails?
    ensures RowByRow(conj, values, Err(e))
  {
  }

  // ---- Choosing a plan ---------------------------------------------------

  /** Row sets of the conjuncts an index answers, and the conjuncts it does not. */
  datatype Gathered = Gathered(rowsets: seq<seq<nat>>, residual: seq<Expr>)

  /** An index access path: candidate rows, and the predicate still to be checked on them. */
  datatype Choice = Choice(candidates: seq<nat>, residual: Option<Expr>)

  function Gather(t: Columns, cs: seq<Expr>): Result<Gathered, IndexError>
    requires t.Keys == NAMES
  {
    if cs == [] then Ok(Gathered([], []))
    else
      var c := cs[|cs| - 1];
      var g :- Gather(t, cs[..|cs| - 1]);
      if Sargable(c) then
        var rows :- ResolveRows(t, c);
        Ok(g.(rowsets := g.rowsets + [rows]))
      else Ok(g.(residual := g.residual + [c]))
  }

  function RowSet(rows: seq<nat>): set<nat> {
    set r | r in rows
  }

  /** The rows in every row set. */
  function Intersection(rowsets: seq<seq<nat>>): set<nat>
    requires rowsets != []
  {
    var n := |rowsets| - 1;
    if n == 0 then RowSet(rowsets[0]) else Intersection(rowsets[..n]) * RowSet(rowsets[n])
  }

  /** `choose`: no plan when nothing is indexed, or when the candidates are no fewer than the rows. */
  function Choose(t: Columns, n: nat, where: Expr): Result<Option<Choice>, IndexError>
    requires t.Keys == NAMES
  {
    var g :- Gather(t, Conjuncts(where));
    if g.rowsets == [] then Ok(None)
    else
      var candidates := SortedSet(Intersection(g.rowsets));
      if |candidates| >= n then Ok(None) else Ok(Some(Choice(candidates, RebuildAnd(g.residual))))
  }

  /** The rows of a list that pass a residual. */
  function Keep(rows: seq<nat>, residual: Option<Expr>, t: Columns): seq<nat>
    requires residual.Some? ==> Typed(residual.value)
    requires residual.Some? ==> forall i :: i in rows ==> HasRow(t, ColumnsIn(residual.value), i)
  {
    if rows == [] then []
    else
      var n := |rows| - 1;
      Keep(rows[..n], residual, t)
        + (if residual == None || EvalAt(residual.value, t, rows[n]) then [rows[n]] else [])
  }

  lemma {:induction false} KeepExact(rows: seq<nat>, residual: Option<Expr>, t: Columns)
    requires residual.Some? ==> Typed(residual.value)
    requires residual.Some? ==> forall i :: i in rows ==> HasRow(t, ColumnsIn(residual.value), i)
    requires StrictlyAscending(rows)
    ensures StrictlyAscending(Keep(rows, residual, t))
    ensures forall i :: i in Keep(rows, residual, t) <==>
      i in rows && (residual == None || EvalAt(residual.value, t, i))
  {
    if rows != [] {
      var n := |rows| - 1;
      var k := Keep(rows[..n], residual, t);
      KeepExact(rows[..n], residual, t);
      forall j | 0 <= j < |k| ensures k[j] < rows[n] { assert k[j] in k; }
      assert rows == rows[..n] + [rows[n]];
    }
  }

  /** Every conjunct an index answers has a literal in its domain. */
  predicate InDomain(cs: seq<Expr>) {
    forall c :: c in cs && Sargable(c) ==> Fits(c)
  }

  ghost predicate InEvery(rowsets: seq<seq<nat>>, i: nat) {
    forall k :: 0 <= k < |rowsets| ==> i in rowsets[k]
  }

  /** Every lookup finds the row ... */
  ghost predicate FoundByAll(cs: seq<Expr>, t: Columns, i: nat)
    requires t.Keys == NAMES && forall c :: c in NAMES ==> i < |t[c]|
  {
    forall c :: c in cs && Sargable(c) ==> LookAt(c, t[LookupColumn(c)][i]).Finds?
  }

  /** ... and it satisfies the conjuncts that are not looked up. */
  ghost predicate RestHolds(cs: seq<Expr>, t: Columns, i: nat) {
    forall c :: c in cs && !Sargable(c) ==> Holds(c, t, i)
  }

  /** What gathering sees of a row: in every row set when every lookup finds it, in the residual what is not looked up. */
  lemma {:induction false} GatherSees(t: Columns, n: nat, cs: seq<Expr>, i: nat)
    requires StoreColumns(t, n)
    ensures Gather(t, cs).Ok? <==> forall c :: c in cs && Sargable(c) ==> ResolveRows(t, c).Ok?
    ensures Gather(t, cs).Ok? ==> var g := Gather(t, cs).value;
      && (forall c :: c in g.residual ==> c in cs)
      && (forall k, j :: 0 <= k < |g.rowsets| && j in g.rowsets[k] ==> j < n)
      && (i < n ==> (InEvery(g.rowsets, i) <==> FoundByAll(cs, t, i)))
      && (AllHold(g.residual, t, i) <==> RestHolds(cs, t, i))
  {
    hide ResolveRows, LookAt, Sargable, Holds;
    if cs != [] {
      var init, c := cs[..|cs| - 1], cs[|cs| - 1];
      assert cs == init + [c];
      GatherSees(t, n, init, i);
      if Gather(t, init).Ok? {
        var g := Gather(t, init).value;
        if Sargable(c) {
          ResolveByRow(t, c);
          if ResolveRows(t, c).Ok? { InEveryPush(g.rowsets, ResolveRows(t, c).value, i); }
        } else {
          AllHoldPush(g.residual, c, t, i);
        }
      }
    }
  }

  /** In the domain a lookup finds exactly the rows that satisfy the conjunct. */
  lemma FitsFinds(t: Columns, n: nat, c: Expr, i: nat)
    requires StoreColumns(t, n) && i < n && Typed(c) && Sargable(c) && Fits(c)
    ensures LookAt(c, t[LookupColumn(c)][i]).Finds? <==> Holds(c, t, i)
  {
    ResolveExact(t, n, c);
    StoreRowsAre(t, n, c);
    MatchingExact(c, t, n);
    hide ResolveRows, LookAt, Matching, Fits;
    ResolveByRow(t, c);
  }

  /** In the domain a row satisfies all conjuncts when it is in every row set and satisfies the residual ones. */
  lemma GatherMeans(t: Columns, n: nat, cs: seq<Expr>, i: nat)
    requires StoreColumns(t, n) && InDomain(cs)
    requires forall c :: c in cs ==> Typed(c) && ColumnsIn(c) <= NAMES
    ensures Gather(t, cs).Ok?
    ensures var g := Gather(t, cs).value;
      && (forall c :: c in g.residual ==> c in cs)
      && (forall k, j :: 0 <= k < |g.rowsets| && j in g.rowsets[k] ==> j < n)
      && (i < n ==> (AllHold(cs, t, i) <==> InEvery(g.rowsets, i) && AllHold(g.residual, t, i)))
  {
    hide ResolveRows, LookAt, Sargable, Holds, Fits, Gather;
    forall c | c in cs && Sargable(c) ensures ResolveRows(t, c).Ok? { ResolveExact(t, n, c); }
    GatherSees(t, n, cs, i);
    if i < n {
      forall c | c in cs && Sargable(c) ensures LookAt(c, t[LookupColumn(c)][i]).Finds? <==> Holds(c, t, i) {
        FitsFinds(t, n, c, i);
      }
    }
  }

  lemma InEveryPush(rowsets: seq<seq<nat>>, rows: seq<nat>, i: nat)
    ensures InEvery(rowsets + [rows], i) <==> InEvery(rowsets, i) && i in rows
  {
    if InEvery(rowsets + [rows], i) {
      var all := rowsets + [rows];
      assert i in all[|rowsets|];
      forall k | 0 <= k < |rowsets| ensures i in rowsets[k] { assert i in all[k]; }
    }
  }

  lemma {:induction false} IntersectionIs(rowsets: seq<seq<nat>>, i: nat)
    requires rowsets != []
    ensures i in Intersection(rowsets) <==> InEvery(rowsets, i)
  {
    var n := |rowsets| - 1;
    assert rowsets == rowsets[..n] + [rowsets[n]];
    InEveryPush(rowsets[..n], rowsets[n], i);
    if n != 0 { IntersectionIs(rowsets[..n], i); }
  }

  /** One row: it is a candidate that satisfies the residual when the lookups find it and the rest holds. */
  lemma ChooseSees(t: Columns, n: nat, where: Expr, i: nat)
    requires StoreColumns(t, n) && Typed(where) && ColumnsIn(where) <= NAMES && Gather(t, Conjuncts(where)).Ok?
    ensures Choose(t, n, where).Ok?
    ensures Choose(t, n, where).value.Some? ==>
      var plan := Choose(t, n, where).value.value;
      && (forall j :: j in plan.candidates ==> j < n)
      && (plan.residual.Some? ==> Typed(plan.residual.value) && ColumnsIn(plan.residual.value) <= ColumnsIn(where))
      && (i < n ==>
            (FoundByAll(Conjuncts(where), t, i) <==> i in plan.candidates)
            && (RestHolds(Conjuncts(where), t, i) <==> plan.residual == None || EvalAt(plan.residual.value, t, i)))
  {
    hide FoundByAll, RestHolds, LookAt, Gather;
    var cs := Conjuncts(where);
    ConjunctsMean(where, t, i);
    GatherSees(t, n, cs, i);
    var g := Gather(t, cs).value;
    if g.rowsets != [] {
      forall j | j in Intersection(g.rowsets) ensures j < n {
        IntersectionIs(g.rowsets, j);
        assert j in g.rowsets[0];
      }
      IntersectionIs(g.rowsets, i);
      RebuildMeans(g.residual, ColumnsIn(where), t, i);
      if g.residual == [] { assert AllHold([], t, i); }
    }
  }

  lemma {:induction false} GatherFinds(t: Columns, cs: seq<Expr>)
    requires t.Keys == NAMES && Gather(t, cs).Ok?
    ensures Gather(t, cs).value.rowsets != [] <==> exists c :: c in cs && Sargable(c)
  {
    hide ResolveRows, Sargable;
    if cs != [] {
      var n := |cs| - 1;
      GatherFinds(t, cs[..n]);
      assert cs == cs[..n] + [cs[n]];
    }
  }

  lemma {:induction false} FewBelow(s: seq<nat>, n: nat)
    requires StrictlyAscending(s) && forall k :: 0 <= k < |s| ==> s[k] < n
    ensures |s| <= n
  {
    if s != [] { FewBelow(s[..|s| - 1], s[|s| - 1]); }
  }

  lemma {:induction false} FullHas(s: seq<nat>, n: nat, i: nat)
    requires StrictlyAscending(s) && forall k :: 0 <= k < |s| ==> s[k] < n
    requires |s| >= n && i < n
    ensures i in s
  {
    FewBelow(s, n);
    var m := |s| - 1;
    FewBelow(s[..m], s[m]);
    if i < n - 1 {
      FullHas(s[..m], n - 1, i);
      assert s[..m] <= s;
    }
  }

  lemma {:induction false} ManyWhen(s: seq<nat>, n: nat)
    requires StrictlyAscending(s) && forall i: nat :: i < n ==> i in s
    ensures |s| >= n
  {
    if n != 0 {
      assert n - 1 in s;
      var j :| 0 <= j < |s| && s[j] == n - 1;
      forall i: nat | i < n - 1 ensures i in s[..j] {
        assert i in s;
        var k :| 0 <= k < |s| && s[k] == i;
      }
      ManyWhen(s[..j], n - 1);
    }
  }

  /** An ascending list of rows below `n` lacks one exactly when it is shorter than `n`. */
  lemma ShortLacks(s: seq<nat>, n: nat)
    requires StrictlyAscending(s) && forall i :: i in s ==> i < n
    ensures |s| < n <==> exists i: nat :: i < n && i !in s
  {
    forall k | 0 <= k < |s| ensures s[k] < n { assert s[k] in s; }
    if |s| >= n {
      forall i: nat | i < n ensures i in s { FullHas(s, n, i); }
    } else if forall i: nat :: i < n ==> i in s {
      ManyWhen(s, n);
    }
  }

  /** The index replaces the scan exactly when some conjunct is indexed and some row is not found by all lookups. */
  lemma ChosenWhen(t: Columns, n: nat, where: Expr)
    requires StoreColumns(t, n) && Typed(where) && ColumnsIn(where) <= NAMES && Gather(t, Conjuncts(where)).Ok?
    ensures Choose(t, n, where).Ok?
    ensures Choose(t, n, where).value.Some? <==>
      (exists c :: c in Conjuncts(where) && Sargable(c)) && exists i: nat :: i < n && !FoundByAll(Conjuncts(where), t, i)
  {
    hide FoundByAll, Gather, Sargable, LookAt, SortedSet;
    var cs := Conjuncts(where);
    var g := Gather(t, cs).value;
    GatherFinds(t, cs);
    if g.rowsets != [] {
      var candidates := SortedSet(Intersection(g.rowsets));
      GatherSees(t, n, cs, 0);
      forall j | j in candidates ensures j < n {
        IntersectionIs(g.rowsets, j);
        assert j in g.rowsets[0];
      }
      forall i: nat | i < n ensures i in candidates <==> FoundByAll(cs, t, i) {
        GatherSees(t, n, cs, i);
        IntersectionIs(g.rowsets, i);
      }
      ShortLacks(candidates, n);
    }
  }

  lemma ChosenAscend(t: Columns, n: nat, where: Expr)
    requires t.Keys == NAMES && Choose(t, n, where).Ok? && Choose(t, n, where).value.Some?
    ensures var plan := Choose(t, n, where).value.value; StrictlyAscending(plan.candidates) && |plan.candidates| < n
  {
  }

  /** The plan, if there is one, keeps exactly the rows the scan keeps, in the same order. */
  ghost predicate PlanExact(t: Columns, n: nat, where: Expr)
    requires StoreColumns(t, n) && Typed(where) && ColumnsIn(where) <= NAMES
  {
    var plan := Choose(t, n, where);
    plan.Ok? && (plan.value.Some? ==>
      var (rows, residual) := (plan.value.value.candidates, plan.value.value.residual);
      && StrictlyAscending(rows) && |rows| < n
      && (forall i :: i in rows ==> i < n)
      && (residual.Some? ==> Typed(residual.value) && ColumnsIn(residual.value) <= ColumnsIn(where))
      && Keep(rows, residual, t) == Matching(where, t, n))
  }

  /** ... when no row deceives it. */
  lemma UndeceivedExact(t: Columns, n: nat, where: Expr)
    requires StoreColumns(t, n) && Typed(where) && ColumnsIn(where) <= NAMES && Gather(t, Conjuncts(where)).Ok?
    requires forall i :: 0 <= i < n ==>
      (EvalAt(where, t, i) <==> FoundByAll(Conjuncts(where), t, i) && RestHolds(Conjuncts(where), t, i))
    ensures PlanExact(t, n, where)
  {
    hide FoundByAll, RestHolds;
    ChooseSees(t, n, where, 0);
    if Choose(t, n, where).value.Some? {
      ChosenAscend(t, n, where);
      hide Choose;
      var plan := Choose(t, n, where).value.value;
      var kept := Keep(plan.candidates, plan.residual, t);
      KeepExact(plan.candidates, plan.residual, t);
      hide Keep;
      forall i: nat ensures i in kept <==> i < n && EvalAt(where, t, i) {
        ChooseSees(t, n, where, i);
      }
      IsMatching(kept, where, t, n);
    }
  }

  /** In the domain the index plan keeps exactly the rows the scan keeps, in the same order. */
  lemma ChooseExact(t: Columns, n: nat, where: Expr)
    requires StoreColumns(t, n) && Typed(where) && ColumnsIn(where) <= NAMES && InDomain(Conjuncts(where))
    ensures PlanExact(t, n, where)
  {
    hide Choose, Gather, InDomain, PlanExact;
    var cs := Conjuncts(where);
    ConjunctsMean(where, t, 0);
    GatherMeans(t, n, cs, 0);
    forall i | 0 <= i < n ensures EvalAt(where, t, i) <==> FoundByAll(cs, t, i) && RestHolds(cs, t, i) {
      ConjunctsMean(where, t, i);
      GatherMeans(t, n, cs, i);
      GatherSees(t, n, cs, i);
    }
    UndeceivedExact(t, n, where);
  }
}
