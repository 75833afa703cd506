/** One big-integer bitmap per protocol value (packetql/index/bitmap.py). */
module Bitmap {
  import opened Seqs
  import opened Bits
  import opened Bytes
  import opened IndexLog

  /** The bitmap that `|=`-ing `1 << row` for every entry of the value produces. */
  function OredBits(log: seq<Entry>, value: int): nat {
    if log == [] then 0
    else
      var n := |log| - 1;
      var rest := OredBits(log[..n], value);
      if log[n].value == value then Or(rest, Pow2(log[n].row)) else rest
  }

  lemma OredBitsPush(log: seq<Entry>, e: Entry, value: int)
    ensures OredBits(log + [e], value)
         == if e.value == value then Or(OredBits(log, value), Pow2(e.row)) else OredBits(log, value)
  {
    assert (log + [e])[..|log|] == log;
  }

  /** A bit is set exactly when that row was inserted with the value. */
  lemma {:induction false} OredBitsExact(log: seq<Entry>, value: int, row: nat)
    ensures Bit(OredBits(log, value), row) <==> exists i :: 0 <= i < |log| && log[i] == Entry(value, row)
  {
    if log == [] {
      BitZero(row);
    } else {
      var n := |log| - 1;
      OredBitsExact(log[..n], value, row);
      BitOr(OredBits(log[..n], value), Pow2(log[n].row), row);
      BitPow2(log[n].row, row);
    }
  }

  lemma OredBitsEnumerate(values: seq<int>, value: int, row: nat)
    ensures Bit(OredBits(Enumerate(values), value), row) <==> row < |values| && values[row] == value
  {
    OredBitsExact(Enumerate(values), value, row);
    if row < |values| {
      assert Enumerate(values)[row] == Entry(values[row], row);
    }
  }

  /** The rows of a bitmap: its set bits in ascending order, counting from `r`. */
  function SetBits(bm: nat, r: nat): seq<nat> {
    if bm == 0 then [] else (if bm % 2 == 1 then [r] else []) + SetBits(bm / 2, r + 1)
  }

  lemma {:induction false} SetBitsExact(bm: nat, r: nat)
    ensures StrictlyAscending(SetBits(bm, r))
    ensures forall k :: k in SetBits(bm, r) <==> k >= r && Bit(bm, k - r)
    ensures |SetBits(bm, r)| == PopCount(bm)
  {
    if bm == 0 {
      forall k: nat ensures !Bit(0, k) { BitZero(k); }
    } else {
      var rest := SetBits(bm / 2, r + 1);
      SetBitsExact(bm / 2, r + 1);
      forall i | 0 <= i < |rest| ensures rest[i] > r { assert rest[i] in rest; }
      forall k ensures k in SetBits(bm, r) <==> k >= r && Bit(bm, k - r) {
        assert k in rest <==> k >= r + 1 && Bit(bm / 2, k - (r + 1));
        if k > r { assert Bit(bm, k - r) == Bit(bm / 2, k - r - 1); }
      }
    }
  }

  /** Over a store's column, `rows_for` is exactly the ascending list of matching rows. */
  lemma SetBitsAreRows(values: seq<int>, value: int)
    ensures SetBits(OredBits(Enumerate(values), value), 0) == RowsWhere(values, v => v == value)
  {
    var bm := OredBits(Enumerate(values), value);
    SetBitsExact(bm, 0);
    RowsWhereExact(values, v => v == value);
    forall k ensures k in SetBits(bm, 0) <==> k in RowsWhere(values, v => v == value) {
      if k >= 0 { OredBitsEnumerate(values, value, k); }
    }
    AscendingUnique(SetBits(bm, 0), RowsWhere(values, v => v == value));
  }

  /** Bitmaps of different values share no row, and every row is in the bitmap of its value. */
  lemma BitmapsPartition(values: seq<int>, v: int, w: int, row: nat)
    ensures v != w ==> And(OredBits(Enumerate(values), v), OredBits(Enumerate(values), w)) == 0
    ensures row < |values| ==> Bit(OredBits(Enumerate(values), values[row]), row)
  {
    var a, b := OredBits(Enumerate(values), v), OredBits(Enumerate(values), w);
    if row < |values| { OredBitsEnumerate(values, values[row], row); }
    if v != w {
      forall k: nat ensures Bit(And(a, b), k) <==> Bit(0, k) {
        BitAnd(a, b, k);
        OredBitsEnumerate(values, v, k);
        OredBitsEnumerate(values, w, k);
        BitZero(k);
      }
      BitsUnique(And(a, b), 0);
    }
  }

  // ---- The byte buffer of the bulk build ---------------------------------

  lemma {:induction false} FromBytesBit(buf: seq<Byte>, k: nat)
    ensures Bit(FromLE(buf), k) <==> k / 8 < |buf| && Bit(buf[k / 8], k % 8)
  {
    if buf == [] {
      BitZero(k);
    } else {
      assert Pow2(8) == 256;
      BitOfSum(buf[0], 8, FromLE(buf[1..]), k);
      if k >= 8 {
        FromBytesBit(buf[1..], k - 8);
        assert (k - 8) / 8 == k / 8 - 1 && (k - 8) % 8 == k % 8;
      }
    }
  }

  /** Setting bit `r & 7` of byte `r >> 3` sets exactly row r. */
  lemma SetByteBit(b: nat, r: nat, k: nat)
    requires b < 256
    ensures var c := Or(b, Pow2(r % 8)); c < 256 && (k < 8 ==> (Bit(c, k) <==> Bit(b, k) || k == r % 8))
  {
    assert Pow2(8) == 256;
    Pow2Below(r % 8, 8);
    OrBelow(b, Pow2(r % 8), 8);
    BitOr(b, Pow2(r % 8), k);
    BitPow2(r % 8, k);
  }

  lemma {:induction false} Pow2Below(a: nat, b: nat)
    requires a < b
    ensures Pow2(a) < Pow2(b)
  {
    if a != 0 { Pow2Below(a - 1, b - 1); }
  }

  ghost predicate BytesHold(buf: seq<Byte>, rows: seq<nat>) {
    forall i, k {:trigger Bit(buf[i], k)} :: 0 <= i < |buf| && 0 <= k < 8 ==> (Bit(buf[i], k) <==> 8 * i + k in rows)
  }

  lemma BytesHoldPush(buf: seq<Byte>, rows: seq<nat>, r: nat)
    requires BytesHold(buf, rows) && r / 8 < |buf|
    ensures Or(buf[r / 8], Pow2(r % 8)) < 256
    ensures BytesHold(buf[r / 8 := Or(buf[r / 8], Pow2(r % 8))], rows + [r])
  {
    SetByteBit(buf[r / 8], r, 0);
    var now := buf[r / 8 := Or(buf[r / 8], Pow2(r % 8))];
    forall i, k | 0 <= i < |now| && 0 <= k < 8 ensures Bit(now[i], k) <==> 8 * i + k in rows + [r] {
      SetByteBit(buf[r / 8], r, k);
      assert r == 8 * (r / 8) + r % 8;
      assert Bit(buf[i], k) <==> 8 * i + k in rows;
    }
  }

  /** The bytes of one value, filled in place and read as a little-endian integer. */
  method BulkBits(rows: seq<nat>, nbytes: nat) returns (bm: nat)
    requires forall i :: 0 <= i < |rows| ==> rows[i] / 8 < nbytes
    ensures forall k: nat :: Bit(bm, k) <==> k in rows
  {
    var buf := new Byte[nbytes](_ => 0);
    forall i, k: nat | 0 <= i < nbytes ensures !Bit(buf[..][i], k) { BitZero(k); }
    var i := 0;
    while i < |rows|
      invariant 0 <= i <= |rows|
      invariant BytesHold(buf[..], rows[..i])
    {
      var r := rows[i];
      BytesHoldPush(buf[..], rows[..i], r);
      assert rows[..i + 1] == rows[..i] + [r];
      ghost var before := buf[..];
      buf[r / 8] := Or(buf[r / 8], Pow2(r % 8));
      assert buf[..] == before[r / 8 := Or(before[r / 8], Pow2(r % 8))];
      i := i + 1;
    }
    assert rows[..i] == rows;
    bm := FromLE(buf[..]);
    forall k: nat ensures Bit(bm, k) <==> k in rows {
      FromBytesBit(buf[..], k);
      assert k == 8 * (k / 8) + k % 8;
    }
  }

  lemma GroupStep(values: seq<int>, row: nat)
    requires row < |values|
    ensures forall w {:trigger RowsOf(Enumerate(values[..row + 1]), w)} ::
      RowsOf(Enumerate(values[..row + 1]), w)
      == var before := RowsOf(Enumerate(values[..row]), w); if w == values[row] then before + [row] else before
  {
    EnumeratePush(values[..row], values[row]);
    assert values[..row + 1] == values[..row] + [values[row]];
    forall w ensures RowsOf(Enumerate(values[..row + 1]), w)
      == var before := RowsOf(Enumerate(values[..row]), w); if w == values[row] then before + [row] else before
    {
      RowsOfPush(Enumerate(values[..row]), Entry(values[row], row), w);
    }
  }

  /** `rows_by_value.setdefault(value, []).append(row)` for every row. */
  method GroupRows(values: seq<int>) returns (rowsByValue: map<int, seq<nat>>, order: seq<int>)
    ensures forall v :: v in rowsByValue ==> rowsByValue[v] == RowsOf(Enumerate(values), v)
    ensures forall i :: 0 <= i < |values| ==> values[i] in order
    ensures forall i :: 0 <= i < |order| ==> order[i] in rowsByValue
  {
    rowsByValue, order := map[], [];
    var row := 0;
    while row < |values|
      invariant 0 <= row <= |values|
      invariant forall v :: v in rowsByValue ==> rowsByValue[v] == RowsOf(Enumerate(values[..row]), v)
      invariant forall v :: v !in rowsByValue ==> RowsOf(Enumerate(values[..row]), v) == []
      invariant forall i :: 0 <= i < row ==> values[i] in order
      invariant forall i :: 0 <= i < |order| ==> order[i] in rowsByValue
      invariant forall v :: v in rowsByValue ==> v in order
    {
      var v := values[row];
      GroupStep(values, row);
      hide RowsOf;
      hide Enumerate;
      if v !in rowsByValue {
        order := order + [v];
      }
      var bucket := if v in rowsByValue then rowsByValue[v] else [];
      rowsByValue := rowsByValue[v := bucket + [row]];
      row := row + 1;
    }
    assert values[..row] == values;
  }

  method BulkBuild(values: seq<int>) returns (built: map<int, nat>)
    ensures forall v :: v in built ==> built[v] == OredBits(Enumerate(values), v)
    ensures forall i :: 0 <= i < |values| ==> values[i] in built
  {
    var rowsByValue, order := GroupRows(values);
    var nbytes := (|values| + 7) / 8;
    built := map[];
    var i := 0;
    while i < |order|
      invariant 0 <= i <= |order|
      invariant forall k :: 0 <= k < i ==> order[k] in built
      invariant forall v :: v in built ==> built[v] == OredBits(Enumerate(values), v)
    {
      var v := order[i];
      var rows := rowsByValue[v];
      RowsOfEnumerate(values, v);
      RowsWhereExact(values, x => x == v);
      forall k | 0 <= k < |rows| ensures rows[k] / 8 < nbytes { assert rows[k] in rows; }
      var bm := BulkBits(rows, nbytes);
      forall k: nat ensures Bit(bm, k) <==> Bit(OredBits(Enumerate(values), v), k) {
        OredBitsEnumerate(values, v, k);
      }
      BitsUnique(bm, OredBits(Enumerate(values), v));
      built := built[v := bm];
      i := i + 1;
    }
  }

  class BitmapIndex {
    var rowCount: nat
    var bitmaps: map<int, nat>
    ghost var log: seq<Entry>

    ghost predicate Valid()
      reads this
    {
      && (forall v :: v in bitmaps ==> bitmaps[v] == OredBits(log, v))
      && (forall i :: 0 <= i < |log| ==> log[i].value in bitmaps && log[i].row < rowCount)
    }

    /** `_bitmaps.get(value, 0)` */
    function Bits(value: int): nat
      reads this
    {
      if value in bitmaps then bitmaps[value] else 0
    }

    lemma BitsAreOred(value: int)
      requires Valid()
      ensures Bits(value) == OredBits(log, value)
    {
      if value !in bitmaps {
        forall k: nat ensures Bit(OredBits(log, value), k) <==> Bit(0, k) {
          OredBitsExact(log, value, k);
          BitZero(k);
        }
        BitsUnique(OredBits(log, value), 0);
      }
    }

    /** Bulk build: group the rows by value, then one byte buffer per value. */
    constructor (values: seq<int>)
      ensures Valid() && log == Enumerate(values) && rowCount == |values|
    {
      var built := BulkBuild(values);
      rowCount, bitmaps, log := |values|, built, Enumerate(values);
    }

    method Add(value: int, row: nat)
      requires Valid()
      modifies this
      ensures Valid() && log == old(log) + [Entry(value, row)]
      ensures rowCount == if row + 1 > old(rowCount) then row + 1 else old(rowCount)
    {
      ghost var e := Entry(value, row);
      BitsAreOred(value);
      forall v ensures OredBits(log + [e], v) == if v == value then Or(OredBits(log, v), Pow2(row)) else OredBits(log, v) {
        OredBitsPush(log, e, v);
      }
      bitmaps := bitmaps[value := Or(Bits(value), Pow2(row))];
      if row + 1 > rowCount {
        rowCount := row + 1;
      }
      log := log + [e];
    }

    method Count(value: int) returns (n: nat)
      requires Valid()
      ensures n == |SetBits(OredBits(log, value), 0)|
    {
      BitsAreOred(value);
      SetBitsExact(Bits(value), 0);
      n := PopCount(Bits(value));
    }

    method RowsFor(value: int) returns (rows: seq<nat>)
      requires Valid()
      ensures rows == SetBits(OredBits(log, value), 0)
    {
      BitsAreOred(value);
      var bm := Bits(value);
      rows := [];
      var r := 0;
      while bm != 0
        invariant rows + SetBits(bm, r) == SetBits(Bits(value), 0)
      {
        if bm % 2 == 1 {
          rows := rows + [r];
        }
        bm := bm / 2;
        r := r + 1;
      }
    }
  }
}
