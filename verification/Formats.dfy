/** The formats byte by byte: capture files (packetql/capture/pcap.py), column files (packetql/storage/columnar.py),
    frames and results (packetql/server.py). */
module Formats {
  import opened Wrappers
  import opened Bytes
  import Bits
  import Columnar
  import Framing
  import Pcap
  import ResultCodec

  // ---- Integers ----------------------------------------------------------

  /** Little-endian: byte `k` is the digit of 256^k. */
  lemma {:induction false} LEDigit(v: nat, width: nat, k: nat)
    requires k < width
    ensures ToLE(v, width)[k] as nat == v / Pow256(k) % 256
  {
    if k != 0 {
      LEDigit(v / 256, width - 1, k - 1);
      Bits.DivTwice(v, 256, Pow256(k - 1));
    }
  }

  /** Big-endian: the last byte is the digit of 1. */
  lemma {:induction false} BEDigit(v: nat, width: nat, k: nat)
    requires k < width
    ensures ToBE(v, width)[k] as nat == v / Pow256(width - 1 - k) % 256
  {
    if k != width - 1 {
      BEDigit(v / 256, width - 1, k);
      Bits.DivTwice(v, 256, Pow256(width - 2 - k));
    }
  }

  lemma FourLittle(v: nat)
    ensures ToLE(v, 4) == [v % 256, v / 256 % 256, v / 0x1_0000 % 256, v / 0x100_0000 % 256]
  {
    assert Pow256(1) == 256 && Pow256(2) == 0x1_0000 && Pow256(3) == 0x100_0000;
    hide ToLE;
    forall k | 0 <= k < 4 ensures ToLE(v, 4)[k] as nat == v / Pow256(k) % 256 { LEDigit(v, 4, k); }
  }

  // ---- Capture files -----------------------------------------------------

  /** The four bytes at `at` are these. */
  predicate BytesAt(file: seq<Byte>, at: nat, a: nat, b: nat, c: nat, d: nat) {
    at + 4 <= |file| && file[at] as nat == a && file[at + 1] as nat == b && file[at + 2] as nat == c && file[at + 3] as nat == d
  }

  lemma WordIs(s: seq<Byte>, v: nat)
    requires |s| == 4 && v < Pcap.WORD
    ensures FromLE(s) == v
      <==> BytesAt(s, 0, v % 256, v / 256 % 256, v / 0x1_0000 % 256, v / 0x100_0000 % 256)
  {
    LEDecodeEncode(s);
    Pcap.WordWidth();
    LERoundTrip(v, 4);
    FourLittle(v);
    hide ToLE, FromLE, Pow256;
    if BytesAt(s, 0, v % 256, v / 256 % 256, v / 0x1_0000 % 256, v / 0x100_0000 % 256) { assert s == ToLE(v, 4); }
  }

  /** Which files are read: those of at least 24 bytes that start with D4 C3 B2 A1 and name link type 1. */
  lemma ReadAccepts(file: seq<Byte>)
    ensures Pcap.ReadFile(file) == Err(Pcap.TooShort) <==> |file| < 24
    ensures Pcap.ReadFile(file) == Err(Pcap.BadMagic) <==> |file| >= 24 && !BytesAt(file, 0, 0xD4, 0xC3, 0xB2, 0xA1)
    ensures Pcap.ReadFile(file).Ok? <==>
      |file| >= 24 && BytesAt(file, 0, 0xD4, 0xC3, 0xB2, 0xA1) && BytesAt(file, 20, 1, 0, 0, 0)
  {
    if |file| >= 24 {
      WordIs(file[..4], 0xA1B2C3D4);
      WordIs(file[20..24], 1);
      hide FromLE, Pcap.ReadRecords;
    }
  }

  /** Whatever else stands in the header of such a file: its records are read up to the first that is not whole. */
  lemma AnyCapture(head: seq<Byte>, ps: seq<Pcap.RawPacket>, room: nat)
    requires |head| == 24 && BytesAt(head, 0, 0xD4, 0xC3, 0xB2, 0xA1) && BytesAt(head, 20, 1, 0, 0, 0)
    requires forall i :: 0 <= i < |ps| ==> Pcap.Fits(ps[i])
    requires room <= |Pcap.PacketsTo(ps)|
    ensures Pcap.ReadFile(head + Pcap.PacketsTo(ps)[..room]) == Ok(ps[..Pcap.WholeRecords(ps, room)])
  {
    var records := Pcap.PacketsTo(ps)[..room];
    var file := head + records;
    Pcap.ReadsWhole([], ps, room);
    hide Pcap.PacketsTo, Pcap.WholeRecords;
    ReadAccepts(file);
    assert file[24..] == records;
    hide FromLE, Pcap.ReadRecords, BytesAt;
    assert [] + ps[..Pcap.WholeRecords(ps, room)] == ps[..Pcap.WholeRecords(ps, room)];
  }

  /** The header of a written file: magic, version 2.4, no zone, no accuracy, the snap length, Ethernet. */
  lemma GlobalHeader(snaplen: nat)
    ensures var h := Pcap.GlobalBytes(snaplen);
      && BytesAt(h, 0, 0xD4, 0xC3, 0xB2, 0xA1) && BytesAt(h, 4, 2, 0, 4, 0)
      && BytesAt(h, 8, 0, 0, 0, 0) && BytesAt(h, 12, 0, 0, 0, 0)
      && BytesAt(h, 16, snaplen % 256, snaplen / 256 % 256, snaplen / 0x1_0000 % 256, snaplen / 0x100_0000 % 256)
      && BytesAt(h, 20, 1, 0, 0, 0)
  {
    FourLittle(Pcap.MAGIC);
    FourLittle(0);
    FourLittle(snaplen);
    FourLittle(1);
    assert ToLE(2, 2) == [2, 0] && ToLE(4, 2) == [4, 0] by { assert ToLE(0, 1) == [0]; }
    hide ToLE;
  }

  // ---- Column files ------------------------------------------------------

  /** What a record may hold. */
  lemma FitsWhen(r: Columnar.PacketRecord)
    ensures r.Fits() <==>
      && r.timestamp < 0x1_0000_0000_0000_0000 && r.srcIp < 0x1_0000_0000 && r.dstIp < 0x1_0000_0000
      && r.srcPort < 0x1_0000 && r.dstPort < 0x1_0000 && r.protocol < 0x100 && r.size < 0x1_0000
      && r.tcpFlags < 0x100 && r.ttl < 0x100
  {
    ResultCodec.Powers();
    assert Pow256(1) == 0x100 && Pow256(2) == 0x1_0000;
    hide Pow256;
    if r.Fits() {
      assert r.Field(0) < Pow256(8) && r.Field(1) < Pow256(4) && r.Field(2) < Pow256(4);
      assert r.Field(3) < Pow256(2) && r.Field(4) < Pow256(2) && r.Field(5) < Pow256(1);
      assert r.Field(6) < Pow256(2) && r.Field(7) < Pow256(1) && r.Field(8) < Pow256(1);
    }
  }

  /** Any store that opens: each byte of a column file is a digit of the value of its row, lowest first. */
  lemma StoredByte(d: Columnar.Disk, i: nat, c: nat, k: nat)
    requires Columnar.CanOpen(d) && i < d.meta.value.rowCount && c < Columnar.COLUMNS && k < Columnar.Width(c)
    ensures i * Columnar.Width(c) + k < |d.cols[c]|
    ensures d.cols[c][i * Columnar.Width(c) + k] as nat
         == Columnar.CellAt(d.cols[c], Columnar.Width(c), i) / Pow256(k) % 256
  {
    var w := Columnar.Width(c);
    Columnar.RowFits(w, d.meta.value.rowCount, i);
    var cell := Slice(d.cols[c], i * w, i * w + w);
    assert |cell| == w && cell[k] == d.cols[c][i * w + k];
    LEDecodeEncode(cell);
    LEDigit(FromLE(cell), w, k);
    hide FromLE, ToLE, Pow256, Slice;
  }

  // ---- Frames ------------------------------------------------------------

  /** Four bytes of length, highest first, one of kind, and the payload. */
  lemma FrameLayout(f: Framing.Frame)
    ensures var s, n := Framing.FrameBytes(f), |f.payload|;
      && |s| == 5 + n && s[4] == f.kind && s[5..] == f.payload
      && BytesAt(s, 0, n / 0x100_0000 % 256, n / 0x1_0000 % 256, n / 256 % 256, n % 256)
  {
    var n := |f.payload|;
    assert Pow256(1) == 256 && Pow256(2) == 0x1_0000 && Pow256(3) == 0x100_0000;
    hide ToBE;
    forall k | 0 <= k < 4 ensures ToBE(n, 4)[k] as nat == n / Pow256(3 - k) % 256 { BEDigit(n, 4, k); }
  }

  // ---- Results -----------------------------------------------------------

  /** Integers are eight bytes of two's complement, highest first; strings are their length and their bytes. */
  lemma CellLayout(c: ResultCodec.Cell, k: nat)
    requires ResultCodec.CellFits(c)
    requires match c case TextC(s) => k < 4 case _ => k < 8
    ensures k < |ResultCodec.CellBytes(c)|
    ensures ResultCodec.CellBytes(c)[k] as nat == match c
      case IntC(v) => (if v < 0 then v + 0x1_0000_0000_0000_0000 else v) / Pow256(7 - k) % 256
      case FloatC(bits) => bits / Pow256(7 - k) % 256
      case TextC(s) => |s| / Pow256(3 - k) % 256
    ensures c.TextC? ==> ResultCodec.CellBytes(c)[4..] == c.s
  {
    hide ToBE, Pow256;
    match c
    case IntC(v) => BEDigit(ResultCodec.Unsigned(v), 8, k);
    case FloatC(bits) => BEDigit(bits, 8, k);
    case TextC(s) => BEDigit(|s|, 4, k);
  }

  /** Columns are marked `f`, `i` and `s` for doubles, integers and strings. */
  lemma ColumnLetter(name: ResultCodec.Name, rows: seq<seq<ResultCodec.Cell>>, j: nat)
    requires forall i :: 0 <= i < |rows| ==> j < |rows[i]|
    ensures ResultCodec.ColumnTag(name, rows, j) as nat ==
      (if name == ['t' as nat, 's' as nat] || (rows != [] && rows[0][j].FloatC?) then 'f' as nat
       else if rows != [] && rows[0][j].TextC? then 's' as nat
       else 'i' as nat)
  {
  }

  function EmptyLetters(columns: seq<ResultCodec.Name>): seq<Byte> {
    seq(|columns|, j requires 0 <= j < |columns| => ResultCodec.ColumnTag(columns[j], [], j))
  }

  lemma {:induction false} EmptyColumns(cols: seq<ResultCodec.Column>)
    requires ResultCodec.AllPackable(cols) && forall j :: 0 <= j < |cols| ==> cols[j].vals == []
    ensures |ResultCodec.ColumnsTo(cols, [])| == |cols|
    ensures forall j :: 0 <= j < |cols| ==> ResultCodec.ColumnsTo(cols, [])[j] == cols[j].tag
  {
    if cols != [] { EmptyColumns(cols[1..]); }
  }

  /** A result without rows: the names, a count of zero, and one letter a column. */
  lemma EmptyLayout(columns: seq<ResultCodec.Name>)
    requires ResultCodec.Encodable(columns, [])
    ensures ResultCodec.Encoded(columns, [])
         == [|columns|] + ResultCodec.NamesTo(columns, [0, 0, 0, 0] + EmptyLetters(columns))
  {
    var cols := ResultCodec.Pivot(columns, []);
    EmptyColumns(cols);
    assert ResultCodec.ColumnsTo(cols, []) == EmptyLetters(columns);
    assert ToBE(0, 4) == [0, 0, 0, 0] by {
      assert ToBE(0, 1) == [0];
      assert ToBE(0, 2) == [0, 0];
      assert ToBE(0, 3) == [0, 0, 0];
    }
    hide ResultCodec.NamesTo, ResultCodec.ColumnsTo, ToBE;
  }
}
