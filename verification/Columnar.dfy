/** The columnar store: files, integrity check, batched writer (packetql/storage/columnar.py). */
module Columnar {
  import opened Wrappers
  import opened Bytes

  const SCHEMA_VERSION: nat := 1
  const COLUMNS: nat := 9
  const COLUMN_NAMES: seq<string> :=
    ["ts", "src_ip", "dst_ip", "src_port", "dst_port", "proto", "size", "flags", "ttl"]

  /** Bytes per value of each column. */
  function Width(c: nat): (w: nat)
    requires c < COLUMNS
    ensures w in {1, 2, 4, 8}
  {
    if c == 0 then 8 else if c <= 2 then 4 else if c <= 4 then 2 else if c == 5 then 1
    else if c == 6 then 2 else 1
  }

  /** One row: the nine stored fields, as unsigned integers. */
  datatype PacketRecord = PacketRecord(
    timestamp: nat, srcIp: nat, dstIp: nat, srcPort: nat, dstPort: nat, protocol: nat, size: nat, tcpFlags: nat, ttl: nat)
  {
    function Field(c: nat): nat
      requires c < COLUMNS
    {
      if c == 0 then timestamp else if c == 1 then srcIp else if c == 2 then dstIp
      else if c == 3 then srcPort else if c == 4 then dstPort else if c == 5 then protocol
      else if c == 6 then size else if c == 7 then tcpFlags else ttl
    }

    /** What `struct.pack` accepts. */
    predicate Fits() {
      forall c :: 0 <= c < COLUMNS ==> Field(c) < Pow256(Width(c))
    }
  }

  // ---- What is on disk ---------------------------------------------------

  datatype Meta = Meta(version: nat, rowCount: nat)
  datatype Disk = Disk(cols: seq<seq<Byte>>, meta: Option<Meta>)

  /** `ColumnStore(directory)` succeeds: metadata present, version known, every file of the expected size. */
  predicate CanOpen(d: Disk) {
    && d.meta.Some? && d.meta.value.version == SCHEMA_VERSION
    && |d.cols| == COLUMNS
    && forall c :: 0 <= c < COLUMNS ==> |d.cols[c]| == d.meta.value.rowCount * Width(c)
  }

  /** The value at a row of a column file. */
  function CellAt(file: seq<Byte>, width: nat, row: nat): nat {
    FromLE(Slice(file, row * width, row * width + width))
  }

  /** A whole column, decoded. */
  function Cells(file: seq<Byte>, width: nat, rows: nat): seq<nat> {
    seq(rows, i requires 0 <= i < rows => CellAt(file, width, i))
  }

  function RecordAt(d: Disk, row: nat): PacketRecord
    requires |d.cols| == COLUMNS
  {
    PacketRecord(CellAt(d.cols[0], 8, row), CellAt(d.cols[1], 4, row), CellAt(d.cols[2], 4, row),
                 CellAt(d.cols[3], 2, row), CellAt(d.cols[4], 2, row), CellAt(d.cols[5], 1, row),
                 CellAt(d.cols[6], 2, row), CellAt(d.cols[7], 1, row), CellAt(d.cols[8], 1, row))
  }

  /** The first `n` rows, decoded. */
  function RecordsTo(d: Disk, n: nat): (s: seq<PacketRecord>)
    requires |d.cols| == COLUMNS
    ensures |s| == n
  {
    if n == 0 then [] else RecordsTo(d, n - 1) + [RecordAt(d, n - 1)]
  }

  /** `records()` of an opened store. */
  function Records(d: Disk): seq<PacketRecord>
    requires CanOpen(d)
  {
    RecordsTo(d, d.meta.value.rowCount)
  }

  // ---- Appending ---------------------------------------------------------

  /** The bytes of column `c` for some records, joined. */
  function Packed(recs: seq<PacketRecord>, c: nat): (s: seq<Byte>)
    requires c < COLUMNS
    ensures |s| == |recs| * Width(c)
  {
    if recs == [] then []
    else
      var n := |recs| - 1;
      assert |recs| * Width(c) == n * Width(c) + Width(c);
      Packed(recs[..n], c) + ToLE(recs[n].Field(c), Width(c))
  }

  lemma PackedPush(recs: seq<PacketRecord>, r: PacketRecord, c: nat)
    requires c < COLUMNS
    ensures Packed(recs + [r], c) == Packed(recs, c) + ToLE(r.Field(c), Width(c))
  {
    assert (recs + [r])[..|recs|] == recs;
  }

  /** The store after a flush of `recs`. */
  function Appended(d: Disk, recs: seq<PacketRecord>): Disk
    requires CanOpen(d)
  {
    Disk(seq(COLUMNS, c requires 0 <= c < COLUMNS => d.cols[c] + Packed(recs, c)),
         Some(Meta(SCHEMA_VERSION, d.meta.value.rowCount + |recs|)))
  }

  lemma CellOfOld(file: seq<Byte>, more: seq<Byte>, width: nat, rows: nat, row: nat)
    requires |file| == rows * width && row < rows
    ensures CellAt(file + more, width, row) == CellAt(file, width, row)
  {
    RowFits(width, rows, row);
    assert Slice(file + more, row * width, row * width + width) == Slice(file, row * width, row * width + width);
  }

  lemma RowFits(width: nat, rows: nat, row: nat)
    requires row < rows
    ensures row * width + width <= rows * width
  {
    assert (row + 1) * width <= rows * width;
  }

  lemma {:induction false} CellOfPacked(file: seq<Byte>, rows: nat, recs: seq<PacketRecord>, c: nat, i: nat)
    requires c < COLUMNS && |file| == rows * Width(c) && i < |recs| && recs[i].Fits()
    ensures CellAt(file + Packed(recs, c), Width(c), rows + i) == recs[i].Field(c)
  {
    var n, w := |recs| - 1, Width(c);
    var init := file + Packed(recs[..n], c);
    var last := ToLE(recs[n].Field(c), w);
    assert file + Packed(recs, c) == init + last;
    assert |init| == (rows + n) * w;
    if i < n {
      CellOfPacked(file, rows, recs[..n], c, i);
      CellOfOld(init, last, w, rows + n, rows + i);
    } else {
      assert Slice(init + last, (rows + n) * w, (rows + n) * w + w) == last;
      LERoundTrip(recs[n].Field(c), w);
    }
  }

  lemma RecordOfOld(d: Disk, recs: seq<PacketRecord>, i: nat)
    requires CanOpen(d) && i < d.meta.value.rowCount
    ensures RecordAt(Appended(d, recs), i) == RecordAt(d, i)
  {
    forall c | 0 <= c < COLUMNS
      ensures CellAt(Appended(d, recs).cols[c], Width(c), i) == CellAt(d.cols[c], Width(c), i)
    {
      CellOfOld(d.cols[c], Packed(recs, c), Width(c), d.meta.value.rowCount, i);
    }
  }

  lemma RecordOfNew(d: Disk, recs: seq<PacketRecord>, i: nat)
    requires CanOpen(d) && i < |recs| && recs[i].Fits()
    ensures RecordAt(Appended(d, recs), d.meta.value.rowCount + i) == recs[i]
  {
    hide CellAt, Packed;
    var n := d.meta.value.rowCount;
    forall c | 0 <= c < COLUMNS
      ensures CellAt(Appended(d, recs).cols[c], Width(c), n + i) == recs[i].Field(c)
    {
      CellOfPacked(d.cols[c], n, recs, c, i);
    }
  }

  lemma AppendedOpens(d: Disk, recs: seq<PacketRecord>)
    requires CanOpen(d)
    ensures CanOpen(Appended(d, recs))
  {
    var e, n := Appended(d, recs), d.meta.value.rowCount;
    forall c | 0 <= c < COLUMNS ensures |e.cols[c]| == (n + |recs|) * Width(c) {
      assert (n + |recs|) * Width(c) == n * Width(c) + |recs| * Width(c);
    }
  }

  /** A flushed store opens, and decodes to its old records followed by the new ones. */
  lemma AppendedRecords(d: Disk, recs: seq<PacketRecord>)
    requires CanOpen(d) && forall i :: 0 <= i < |recs| ==> recs[i].Fits()
    ensures CanOpen(Appended(d, recs))
    ensures Records(Appended(d, recs)) == Records(d) + recs
  {
    hide CellAt, RecordAt, RecordsTo, Packed;
    AppendedOpens(d, recs);
    NewRows(d, recs, |recs|);
    assert recs[..|recs|] == recs;
  }

  lemma {:induction false} OldRows(d: Disk, recs: seq<PacketRecord>, n: nat)
    requires CanOpen(d) && n <= d.meta.value.rowCount
    ensures RecordsTo(Appended(d, recs), n) == RecordsTo(d, n)
  {
    hide CellAt;
    if n != 0 {
      OldRows(d, recs, n - 1);
      RecordOfOld(d, recs, n - 1);
    }
  }

  lemma {:induction false} NewRows(d: Disk, recs: seq<PacketRecord>, n: nat)
    requires CanOpen(d) && n <= |recs| && forall i :: 0 <= i < |recs| ==> recs[i].Fits()
    ensures RecordsTo(Appended(d, recs), d.meta.value.rowCount + n) == Records(d) + recs[..n]
  {
    hide CellAt;
    if n == 0 {
      OldRows(d, recs, d.meta.value.rowCount);
    } else {
      NewRows(d, recs, n - 1);
      RecordOfNew(d, recs, n - 1);
      assert recs[..n] == recs[..n - 1] + [recs[n - 1]];
    }
  }

  // ---- Inside a flush ----------------------------------------------------

  /** Columns before `k` written in full, `j` bytes of column `k` written, metadata untouched. */
  function MidFlush(d: Disk, recs: seq<PacketRecord>, k: nat, j: nat): Disk
    requires |d.cols| == COLUMNS && k <= COLUMNS && (k < COLUMNS ==> j <= |Packed(recs, k)|)
  {
    d.(cols := seq(COLUMNS, c requires 0 <= c < COLUMNS =>
      if c < k then d.cols[c] + Packed(recs, c)
      else if c == k then d.cols[c] + Packed(recs, c)[..j]
      else d.cols[c]))
  }

  lemma NothingWritten(d: Disk, recs: seq<PacketRecord>)
    requires |d.cols| == COLUMNS
    ensures MidFlush(d, recs, 0, 0) == d
  {
    assert d.cols[0] + Packed(recs, 0)[..0] == d.cols[0];
    assert MidFlush(d, recs, 0, 0).cols == d.cols;
  }

  /** Between the first byte and the metadata, the store is refused; before the first byte it is the old store. */
  lemma MidFlushRefused(d: Disk, recs: seq<PacketRecord>, k: nat, j: nat)
    requires CanOpen(d) && recs != []
    requires k <= COLUMNS && (if k < COLUMNS then j <= |Packed(recs, k)| else j == 0)
    ensures CanOpen(MidFlush(d, recs, k, j)) <==> k == 0 && j == 0
    ensures k == 0 && j == 0 ==> MidFlush(d, recs, k, j) == d
  {
    var m := MidFlush(d, recs, k, j);
    if k == 0 && j == 0 {
      NothingWritten(d, recs);
    } else if k > 0 {
      assert |Packed(recs, 0)| == |recs| * Width(0) > 0;
      assert |m.cols[0]| > |d.cols[0]|;
    } else {
      assert |m.cols[0]| == |d.cols[0]| + j;
    }
  }

  /** More bytes at the end of one column file. */
  function Longer(d: Disk, c: nat, more: seq<Byte>): Disk
    requires c < |d.cols|
  {
    d.(cols := d.cols[c := d.cols[c] + more])
  }

  lemma LongerIsMidFlush(d: Disk, recs: seq<PacketRecord>, k: nat, j: nat)
    requires |d.cols| == COLUMNS && k < COLUMNS && j <= |Packed(recs, k)|
    ensures Longer(MidFlush(d, recs, k, 0), k, Packed(recs, k)[..j]) == MidFlush(d, recs, k, j)
    ensures j == |Packed(recs, k)| ==> MidFlush(d, recs, k, j) == MidFlush(d, recs, k + 1, 0)
  {
    var a, b := Longer(MidFlush(d, recs, k, 0), k, Packed(recs, k)[..j]), MidFlush(d, recs, k, j);
    assert d.cols[k] + Packed(recs, k)[..0] == d.cols[k];
    assert a.cols == b.cols;
    if j == |Packed(recs, k)| {
      assert Packed(recs, k)[..j] == Packed(recs, k);
      forall c | 0 <= c < COLUMNS ensures b.cols[c] == MidFlush(d, recs, k + 1, 0).cols[c] {
        if c == k + 1 { assert d.cols[c] + Packed(recs, c)[..0] == d.cols[c]; }
      }
      assert b.cols == MidFlush(d, recs, k + 1, 0).cols;
    }
  }

  /** `self._buf[name].append(pack(...))` for every column. */
  function Buffered(buf: seq<seq<Byte>>, rec: PacketRecord): seq<seq<Byte>>
    requires |buf| == COLUMNS
  {
    seq(COLUMNS, c requires 0 <= c < COLUMNS => buf[c] + ToLE(rec.Field(c), Width(c)))
  }

  lemma BufferPush(buf: seq<seq<Byte>>, recs: seq<PacketRecord>, rec: PacketRecord)
    requires |buf| == COLUMNS && forall c :: 0 <= c < COLUMNS ==> buf[c] == Packed(recs, c)
    ensures forall c :: 0 <= c < COLUMNS ==> Buffered(buf, rec)[c] == Packed(recs + [rec], c)
  {
    forall c | 0 <= c < COLUMNS ensures Buffered(buf, rec)[c] == Packed(recs + [rec], c) {
      PackedPush(recs, rec, c);
    }
  }

  // ---- What append mode finds --------------------------------------------

  /** The row count that append mode continues. */
  function StartRows(d: Disk): nat {
    if d.meta.Some? then d.meta.value.rowCount else 0
  }

  /** Every column file is as long as that row count says: a store that opens, or a fresh directory. */
  predicate Continues(d: Disk) {
    |d.cols| == COLUMNS && forall c :: 0 <= c < COLUMNS ==> |d.cols[c]| == StartRows(d) * Width(c)
  }

  /** The records append mode continues from. */
  function Found(d: Disk): seq<PacketRecord>
    requires |d.cols| == COLUMNS
  {
    RecordsTo(d, StartRows(d))
  }

  /** An opening store continues with its records; without metadata only empty files do, with none. */
  lemma ContinuesWhen(d: Disk)
    requires |d.cols| == COLUMNS
    ensures CanOpen(d) ==> Continues(d) && Found(d) == Records(d)
    ensures d.meta == None ==>
      (Continues(d) <==> forall c :: 0 <= c < COLUMNS ==> d.cols[c] == []) && Found(d) == []
  {
  }

  lemma {:induction false} SameRows(d: Disk, e: Disk, n: nat)
    requires |d.cols| == COLUMNS && e.cols == d.cols
    ensures RecordsTo(d, n) == RecordsTo(e, n)
  {
    hide CellAt;
    if n != 0 { SameRows(d, e, n - 1); }
  }

  /** What a crash inside a flush leaves is nothing append mode can continue. */
  lemma CrashedDoesNotContinue(d: Disk, recs: seq<PacketRecord>, k: nat, j: nat)
    requires CanOpen(d) && recs != []
    requires k <= COLUMNS && (if k < COLUMNS then j <= |Packed(recs, k)| else j == 0)
    ensures Continues(MidFlush(d, recs, k, j)) <==> k == 0 && j == 0
  {
    MidFlushRefused(d, recs, k, j);
    ContinuesWhen(MidFlush(d, recs, k, j));
  }

  /** The directory once a writer has opened it. */
  function Started(d: Disk, append: bool): Disk {
    if append then d.(meta := Some(Meta(SCHEMA_VERSION, StartRows(d))))
    else Disk(seq(COLUMNS, _ => []), Some(Meta(SCHEMA_VERSION, 0)))
  }

  lemma NoRecords(d: Disk)
    requires CanOpen(d) && d.cols[0] == []
    ensures Records(d) == []
  {
  }

  lemma StartOpens(d: Disk, append: bool)
    requires |d.cols| == COLUMNS
    ensures CanOpen(Started(d, append)) <==> !append || Continues(d)
    ensures CanOpen(Started(d, append)) ==> Records(Started(d, append)) == if append then Found(d) else []
  {
    if append { SameRows(d, Started(d, append), StartRows(d)); }
  }

  // ---- The writer --------------------------------------------------------

  /** The directory, with every state it ever passed through. */
  class Directory {
    var disk: Disk
    ghost var history: seq<Disk>

    constructor (d: Disk)
      ensures disk == d && history == []
    {
      disk, history := d, [];
    }

    /** `write` and `flush` of one column file: the bytes reach the disk one after the other. */
    method AppendBytes(c: nat, data: seq<Byte>)
      requires c < |disk.cols|
      modifies this
      ensures disk == Longer(old(disk), c, data)
      ensures |history| == |old(history)| + |data|
      ensures forall i {:trigger history[i]} :: 0 <= i < |history| ==>
        history[i] == if i < |old(history)| then old(history)[i] else Longer(old(disk), c, data[..i - |old(history)| + 1])
    {
      var j := 0;
      assert old(disk).cols[c] + data[..0] == old(disk).cols[c];
      assert disk.cols == Longer(old(disk), c, data[..0]).cols;
      while j < |data|
        invariant 0 <= j <= |data|
        invariant disk == Longer(old(disk), c, data[..j])
        invariant |history| == |old(history)| + j
        invariant forall i {:trigger history[i]} :: 0 <= i < |history| ==>
          history[i] == if i < |old(history)| then old(history)[i] else Longer(old(disk), c, data[..i - |old(history)| + 1])
      {
        assert old(disk).cols[c] + data[..j + 1] == old(disk).cols[c] + data[..j] + [data[j]];
        disk := Longer(disk, c, [data[j]]);
        assert disk.cols == Longer(old(disk), c, data[..j + 1]).cols;
        history := history + [disk];
        j := j + 1;
      }
      assert data[..j] == data;
    }

    /** Opening with "wb": the column files are emptied one after the other. */
    method Truncate()
      requires |disk.cols| == COLUMNS
      modifies this
      ensures disk == old(disk).(cols := seq(COLUMNS, _ => []))
      ensures |history| >= |old(history)|
      ensures forall i {:trigger history[i]} :: 0 <= i < |old(history)| ==> history[i] == old(history)[i]
      ensures forall i {:trigger history[i]} :: |old(history)| <= i < |history| ==>
        |history[i].cols| == COLUMNS && history[i].cols[0] == []
    {
      var c := 0;
      while c < COLUMNS
        invariant 0 <= c <= COLUMNS && |disk.cols| == COLUMNS && disk.meta == old(disk).meta
        invariant forall k :: 0 <= k < c ==> disk.cols[k] == []
        invariant |history| >= |old(history)|
        invariant forall i {:trigger history[i]} :: 0 <= i < |old(history)| ==> history[i] == old(history)[i]
        invariant forall i {:trigger history[i]} :: |old(history)| <= i < |history| ==>
          |history[i].cols| == COLUMNS && history[i].cols[0] == []
      {
        disk := disk.(cols := disk.cols[c := []]);
        history := history + [disk];
        c := c + 1;
      }
      assert disk.cols == seq(COLUMNS, _ => []);
    }

    /** The metadata is replaced in one step. */
    method WriteMeta(rowCount: nat)
      modifies this
      ensures disk == old(disk).(meta := Some(Meta(SCHEMA_VERSION, rowCount)))
      ensures history == old(history) + [disk]
    {
      disk := disk.(meta := Some(Meta(SCHEMA_VERSION, rowCount)));
      history := history + [disk];
    }
  }

  class ColumnWriter {
    const dir: Directory
    var batchSize: int
    var buf: seq<seq<Byte>>              // packed values of each column, not yet written
    var buffered: nat
    var rowCount: nat
    ghost var pending: seq<PacketRecord> // the records in the buffers
    ghost var origin: seq<PacketRecord>  // the records of the store as it was opened
    ghost var appended: seq<PacketRecord> // everything appended since
    ghost const since: nat               // where this writer's disk states start in the history

    /** The buffers hold the pending records, and the metadata on disk has the writer's row count. */
    ghost predicate Ready()
      reads this, dir
    {
      && |dir.disk.cols| == COLUMNS && dir.disk.meta == Some(Meta(SCHEMA_VERSION, rowCount))
      && buffered == |pending|
      && |buf| == COLUMNS
      && (forall c :: 0 <= c < COLUMNS ==> buf[c] == Packed(pending, c))
      && (forall i :: 0 <= i < |pending| ==> pending[i].Fits())
    }

    /** Bytes of a column file beyond what the row count accounts for; negative when bytes are missing. */
    ghost function Excess(c: nat): int
      requires c < COLUMNS && Ready()
      reads this, dir
    {
      |dir.disk.cols[c]| - rowCount * Width(c)
    }

    ghost predicate Valid()
      reads this, dir
    {
      Ready() && CanOpen(dir.disk) && Records(dir.disk) + pending == origin + appended
    }

    /** Whenever the writer stops, the store is refused or holds a prefix of what was appended. */
    ghost predicate CrashSafe()
      reads this, dir
    {
      since <= |dir.history|
      && forall i {:trigger dir.history[i]} :: since <= i < |dir.history| && CanOpen(dir.history[i]) ==>
           Records(dir.history[i]) <= origin + appended
    }

    /** Open for writing. Append mode continues the row count of the metadata, from zero if there is none, with
        whatever the files hold; otherwise the files are emptied. The store opens exactly when that adds up. */
    constructor (directory: Directory, batch: int, append: bool)
      requires |directory.disk.cols| == COLUMNS
      modifies directory
      ensures dir == directory && batchSize == batch && pending == [] && appended == []
      ensures Ready()
      ensures CanOpen(dir.disk) <==> !append || Continues(old(directory.disk))
      ensures Valid() <==> CanOpen(dir.disk)
      ensures Valid() ==> CrashSafe() && origin == if append then Found(old(directory.disk)) else []
      ensures append ==> forall c :: 0 <= c < COLUMNS ==>
        Excess(c) == |old(directory.disk).cols[c]| - StartRows(old(directory.disk)) * Width(c)
    {
      StartOpens(directory.disk, append);
      ghost var found := directory.disk;
      dir, batchSize, buf, buffered, pending := directory, batch, seq(COLUMNS, _ => []), 0, [];
      rowCount := if append && directory.disk.meta.Some? then directory.disk.meta.value.rowCount else 0;
      origin, appended, since := if append then Found(directory.disk) else [], [], |directory.history|;
      hide RecordsTo, Found, Continues, Packed;
      new;
      if !append {
        dir.Truncate();
        forall i | since <= i < |dir.history| && CanOpen(dir.history[i]) ensures Records(dir.history[i]) == [] {
          assert dir.history[i].cols[0] == [];
          NoRecords(dir.history[i]);
        }
      }
      dir.WriteMeta(rowCount);
      assert dir.disk == Started(found, append);
      hide CanOpen;
    }

    method Append(rec: PacketRecord)
      requires Ready() && rec.Fits()
      modifies this, dir
      ensures Ready() && batchSize == old(batchSize)
      ensures origin == old(origin) && appended == old(appended) + [rec]
      ensures forall c :: 0 <= c < COLUMNS ==> Excess(c) == old(Excess(c))
      ensures CanOpen(dir.disk) <==> old(CanOpen(dir.disk))
      ensures old(Valid()) ==> Valid()
      ensures old(Valid() && CrashSafe()) ==> CrashSafe()
      ensures pending == [] || |pending| < batchSize
    {
      Buffer(rec);
      if buffered >= batchSize {
        Flush();
      }
    }

    method Buffer(rec: PacketRecord)
      requires Ready() && rec.Fits()
      modifies this`buf, this`buffered, this`pending, this`appended
      ensures Ready() && pending == old(pending) + [rec] && appended == old(appended) + [rec]
      ensures old(Valid()) ==> Valid()
      ensures old(CrashSafe()) ==> CrashSafe()
    {
      BufferPush(buf, pending, rec);
      buf := Buffered(buf, rec);
      pending, appended := pending + [rec], appended + [rec];
      buffered := buffered + 1;
      if old(Valid()) {
        assert Records(dir.disk) + pending == old(Records(dir.disk) + pending) + [rec];
      }
    }

    /** Write the nine columns, then the metadata. A crash in between leaves a store that does not open; a store that
        did not open before does not open afterwards, because no column's excess ever changes. */
    method Flush()
      requires Ready()
      modifies this, dir
      ensures Ready() && pending == [] && batchSize == old(batchSize)
      ensures origin == old(origin) && appended == old(appended)
      ensures forall c :: 0 <= c < COLUMNS ==> Excess(c) == old(Excess(c))
      ensures CanOpen(dir.disk) <==> old(CanOpen(dir.disk))
      ensures old(Valid()) ==> Valid() && Records(dir.disk) == origin + appended
      ensures old(Valid() && CrashSafe()) ==> CrashSafe()
    {
      if buffered == 0 {
        return;
      }
      ghost var d, recs := dir.disk, pending;
      WriteColumns(d, recs);
      Commit(d, recs);
    }

    /** After the columns, the metadata makes the new rows visible. */
    method Commit(ghost d: Disk, ghost recs: seq<PacketRecord>)
      requires |d.cols| == COLUMNS && d.meta == Some(Meta(SCHEMA_VERSION, rowCount)) && recs != []
      requires dir.disk == MidFlush(d, recs, COLUMNS, 0)
      requires |buf| == COLUMNS && forall c :: 0 <= c < COLUMNS ==> buf[c] == []
      requires forall i :: 0 <= i < |recs| ==> recs[i].Fits()
      requires buffered == |recs|
      modifies this`rowCount, this`buffered, this`pending, dir
      ensures Ready() && pending == []
      ensures forall c :: 0 <= c < COLUMNS ==> Excess(c) == |d.cols[c]| - old(rowCount) * Width(c)
      ensures CanOpen(dir.disk) <==> CanOpen(d)
      ensures CanOpen(d) && Records(d) + recs == origin + appended ==>
        Valid() && Records(dir.disk) == origin + appended && (old(CrashSafe()) ==> CrashSafe())
    {
      hide RecordAt;
      rowCount := rowCount + buffered;
      buffered, pending := 0, [];
      dir.WriteMeta(rowCount);
      forall c | 0 <= c < COLUMNS ensures |dir.disk.cols[c]| - rowCount * Width(c) == |d.cols[c]| - old(rowCount) * Width(c) {
        assert rowCount * Width(c) == old(rowCount) * Width(c) + |recs| * Width(c);
      }
      if CanOpen(d) {
        assert forall c :: 0 <= c < COLUMNS ==> dir.disk.cols[c] == Appended(d, recs).cols[c];
        assert dir.disk.cols == Appended(d, recs).cols;
        AppendedRecords(d, recs);
      }
    }

    /** The nine column files, one after the other, emptying the buffers. */
    method WriteColumns(ghost d: Disk, ghost recs: seq<PacketRecord>)
      requires |d.cols| == COLUMNS && recs != [] && dir.disk == d
      requires |buf| == COLUMNS && forall c :: 0 <= c < COLUMNS ==> buf[c] == Packed(recs, c)
      modifies this`buf, dir
      ensures dir.disk == MidFlush(d, recs, COLUMNS, 0)
      ensures |buf| == COLUMNS && forall c :: 0 <= c < COLUMNS ==> buf[c] == []
      ensures |dir.history| >= |old(dir.history)|
      ensures forall i :: 0 <= i < |old(dir.history)| ==> dir.history[i] == old(dir.history)[i]
      ensures CanOpen(d) ==> forall i :: |old(dir.history)| <= i < |dir.history| ==> !CanOpen(dir.history[i])
    {
      ghost var h := |dir.history|;
      NothingWritten(d, recs);
      var k := 0;
      while k < COLUMNS
        invariant 0 <= k <= COLUMNS && |buf| == COLUMNS
        invariant dir.disk == MidFlush(d, recs, k, 0)
        invariant forall c :: 0 <= c < COLUMNS ==> buf[c] == if c < k then [] else Packed(recs, c)
        invariant |dir.history| >= h
        invariant forall i :: 0 <= i < h ==> dir.history[i] == old(dir.history)[i]
        invariant CanOpen(d) ==> forall i :: h <= i < |dir.history| ==> !CanOpen(dir.history[i])
      {
        WriteOne(k, d, recs);
        buf := buf[k := []];
        k := k + 1;
      }
    }

    /** One column of a flush of an opening store: every state on the way is refused. */
    method WriteOne(k: nat, ghost d: Disk, ghost recs: seq<PacketRecord>)
      requires |d.cols| == COLUMNS && recs != [] && k < COLUMNS && |buf| == COLUMNS
      requires dir.disk == MidFlush(d, recs, k, 0) && buf[k] == Packed(recs, k)
      modifies dir
      ensures dir.disk == MidFlush(d, recs, k + 1, 0)
      ensures |dir.history| >= |old(dir.history)|
      ensures forall i :: 0 <= i < |old(dir.history)| ==> dir.history[i] == old(dir.history)[i]
      ensures CanOpen(d) ==> forall i :: |old(dir.history)| <= i < |dir.history| ==> !CanOpen(dir.history[i])
    {
      ghost var h, data := |dir.history|, buf[k];
      dir.AppendBytes(k, buf[k]);
      assert data[..|data|] == data;
      LongerIsMidFlush(d, recs, k, |data|);
      if CanOpen(d) {
        forall i | h <= i < |dir.history| ensures !CanOpen(dir.history[i]) {
          LongerIsMidFlush(d, recs, k, i - h + 1);
          MidFlushRefused(d, recs, k, i - h + 1);
        }
      }
    }

    method Close()
      requires Ready()
      modifies this, dir
      ensures Ready() && pending == []
      ensures origin == old(origin) && appended == old(appended)
      ensures CanOpen(dir.disk) <==> old(CanOpen(dir.disk))
      ensures old(Valid()) ==> Valid() && Records(dir.disk) == origin + appended
      ensures old(Valid() && CrashSafe()) ==> CrashSafe()
    {
      Flush();
    }
  }

  /** `write_store`: a fresh store of these records, whatever the directory held. */
  method WriteStore(directory: Directory, records: seq<PacketRecord>)
    requires |directory.disk.cols| == COLUMNS && forall i :: 0 <= i < |records| ==> records[i].Fits()
    modifies directory
    ensures CanOpen(directory.disk) && Records(directory.disk) == records
  {
    hide ColumnWriter.Ready, ColumnWriter.CrashSafe, CanOpen, RecordsTo, PacketRecord.Fits;
    var w := new ColumnWriter(directory, 1000, false);
    for i := 0 to |records|
      invariant w.Valid() && w.dir == directory && w.origin == [] && w.appended == records[..i]
    {
      w.Append(records[i]);
    }
    w.Close();
  }
}
