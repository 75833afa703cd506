/** The read side of the column store (packetql/storage/columnar.py): scans, batches and random access. */
module Store {
  import opened Wrappers
  import opened Bits
  import opened Bytes
  import opened Columnar
  import opened Predicate
  import opened IndexPlan
  import opened Slices
  import PageCache

  /** The position of a column in the schema. */
  function Position(name: string): (k: nat)
    requires name in NAMES
    ensures k < COLUMNS && COLUMN_NAMES[k] == name
  {
    if name == "ts" then 0 else if name == "src_ip" then 1 else if name == "dst_ip" then 2
    else if name == "src_port" then 3 else if name == "dst_port" then 4 else if name == "proto" then 5
    else if name == "size" then 6 else if name == "flags" then 7 else 8
  }

  /** Where a row starts in its column file. */
  function FileOffset(name: string, row: nat): nat
    requires name in NAMES
  {
    row * Width(Position(name))
  }

  lemma CellBound(file: seq<Byte>, width: nat, rows: nat, i: nat)
    requires i < rows && |file| == rows * width
    ensures CellAt(file, width, i) < Pow256(width)
  {
    hide FromLE;
    RowFits(width, rows, i);
    LEDecodeEncode(Slice(file, i * width, i * width + width));
  }

  lemma CellBounds(d: Disk)
    requires CanOpen(d)
    ensures Pow256(2) == 0x1_0000 && Pow256(4) == 0x1_0000_0000
    ensures forall k, i :: 0 <= k < COLUMNS && 0 <= i < d.meta.value.rowCount ==>
      CellAt(d.cols[k], Width(k), i) < Pow256(Width(k))
  {
    forall k, i | 0 <= k < COLUMNS && 0 <= i < d.meta.value.rowCount
      ensures CellAt(d.cols[k], Width(k), i) < Pow256(Width(k))
    {
      CellBound(d.cols[k], Width(k), d.meta.value.rowCount, i);
    }
  }

  /** The nine decoded columns of an opened store: equal lengths, fields inside their widths. */
  function Table(d: Disk): (t: Columns)
    requires CanOpen(d)
    ensures StoreColumns(t, d.meta.value.rowCount)
  {
    CellBounds(d);
    map c | c in NAMES :: Cells(d.cols[Position(c)], Width(Position(c)), d.meta.value.rowCount)
  }

  /** Decode a string of whole cells. */
  function Decode(data: seq<Byte>, width: nat): seq<nat>
    requires width > 0
  {
    Cells(data, width, |data| / width)
  }

  lemma DivCancel(n: nat, w: nat)
    requires w > 0
    ensures n * w / w == n
  {
    DivUnique(n * w, w, n, 0);
  }

  lemma SliceInside(f: seq<Byte>, lo: nat, hi: nat, x: nat, w: nat)
    requires lo <= hi <= |f| && x + w <= hi - lo
    ensures Slice(f[lo..hi], x, x + w) == Slice(f, lo + x, lo + x + w)
  {
    var g := f[lo..hi];
    var a, b := g[x..x + w], f[lo + x..lo + x + w];
    assert Slice(g, x, x + w) == a;
    forall i | 0 <= i < w ensures a[i] == b[i] {
      assert g[x + i] == f[lo + x + i];
    }
  }

  lemma ChunkCell(file: seq<Byte>, width: nat, rows: nat, lo: nat, hi: nat, j: nat)
    requires |file| == rows * width && lo <= hi <= rows && lo * width <= hi * width <= |file|
    requires lo + j < hi
    ensures CellAt(file[lo * width..hi * width], width, j) == CellAt(file, width, lo + j)
  {
    hide FromLE;
    var chunk := file[lo * width..hi * width];
    assert |chunk| == (hi - lo) * width;
    RowFits(width, hi - lo, j);
    RowFits(width, rows, lo + j);
    assert (lo + j) * width == lo * width + j * width;
    SliceInside(file, lo * width, hi * width, j * width, width);
  }

  /** The rows lo..hi of a file, cut out and decoded, are rows lo..hi of its column. */
  lemma ChunkCells(file: seq<Byte>, width: nat, rows: nat, lo: nat, hi: nat)
    requires width > 0 && |file| == rows * width && lo <= hi <= rows
    ensures lo * width <= hi * width <= |file|
    ensures Decode(file[lo * width..hi * width], width) == Cells(file, width, rows)[lo..hi]
  {
    hide CellAt;
    MulMonotone(width, lo, hi);
    MulMonotone(width, hi, rows);
    assert |file[lo * width..hi * width]| == (hi - lo) * width;
    DivCancel(hi - lo, width);
    forall j: nat | lo + j < hi
      ensures CellAt(file[lo * width..hi * width], width, j) == CellAt(file, width, lo + j)
    {
      ChunkCell(file, width, rows, lo, hi, j);
    }
  }

  lemma ColumnIs(d: Disk, name: string)
    requires CanOpen(d) && name in NAMES
    ensures var k := Position(name);
      && Table(d)[name] == Cells(d.cols[k], Width(k), d.meta.value.rowCount)
      && |d.cols[k]| == d.meta.value.rowCount * Width(k)
  {
  }

  lemma CellIs(d: Disk, name: string, row: nat)
    requires CanOpen(d) && name in NAMES && row < d.meta.value.rowCount
    ensures var k := Position(name);
      Table(d)[name][row] == FromLE(Slice(d.cols[k], row * Width(k), row * Width(k) + Width(k)))
  {
    ColumnIs(d, name);
    hide Table, CanOpen, Slice, FromLE;
  }

  /** What a read of `batch` rows gives at a row. */
  lemma ChunkAt(file: seq<Byte>, width: nat, rows: nat, row: nat, batch: nat)
    requires width > 0 && |file| == rows * width && row <= rows
    ensures var hi := Min(row + batch, rows);
      && row * width <= hi * width <= |file|
      && Slice(file, row * width, row * width + batch * width) == file[row * width..hi * width]
      && hi * width - row * width == (hi - row) * width
      && (batch > 0 ==> (hi * width == row * width <==> row == rows))
  {
    var hi := Min(row + batch, rows);
    assert row * width + batch * width == (row + batch) * width;
    MulMonotone(width, hi, rows);
    MulMonotone(width, row, hi);
    if row + batch <= rows { MulMonotone(width, row + batch, rows); } else { MulMonotone(width, rows, row + batch); }
    if row < hi { MulMonotone(width, row + 1, hi); }
  }

  lemma BatchOf(file: seq<Byte>, width: nat, rows: nat, row: nat, batch: nat)
    requires width > 0 && batch > 0 && |file| == rows * width && row <= rows
    ensures var hi, chunk := Min(row + batch, rows), Slice(file, row * width, row * width + batch * width);
      && (chunk == [] <==> row == rows)
      && Decode(chunk, width) == Cells(file, width, rows)[row..hi]
      && row * width + |chunk| == hi * width
  {
    hide Cells, Decode, Slice;
    ChunkAt(file, width, rows, row, batch);
    ChunkCells(file, width, rows, row, Min(row + batch, rows));
  }

  /** One read of `batch` rows of a column. */
  lemma BatchIs(d: Disk, name: string, row: nat, batch: nat)
    requires CanOpen(d) && name in NAMES && batch > 0 && row <= d.meta.value.rowCount
    ensures var k, hi := Position(name), Min(row + batch, d.meta.value.rowCount);
      var chunk := Slice(d.cols[k], FileOffset(name, row), FileOffset(name, row) + FileOffset(name, batch));
      && (chunk == [] <==> row == d.meta.value.rowCount)
      && Decode(chunk, Width(k)) == Table(d)[name][row..hi]
      && FileOffset(name, row) + |chunk| == FileOffset(name, hi)
  {
    ColumnIs(d, name);
    hide Table, Cells, Decode, Slice, CanOpen;
    BatchOf(d.cols[Position(name)], Width(Position(name)), d.meta.value.rowCount, row, batch);
  }

  /** `ColumnStore(directory)`: refused unless every column file has the expected size. */
  method VerifyIntegrity(d: Disk) returns (ok: bool)
    requires |d.cols| == COLUMNS
    ensures ok <==> CanOpen(d)
  {
    if d.meta == None || d.meta.value.version != SCHEMA_VERSION { return false; }
    for c := 0 to COLUMNS
      invariant forall k :: 0 <= k < c ==> |d.cols[k]| == d.meta.value.rowCount * Width(k)
    {
      if |d.cols[c]| != d.meta.value.rowCount * Width(c) { return false; }
    }
    ok := true;
  }

  method DecodeFile(data: seq<Byte>, width: nat, ghost rows: nat) returns (out: seq<nat>)
    requires width > 0 && |data| == rows * width
    ensures out == Cells(data, width, rows)
  {
    hide CellAt;
    out := [];
    var i := 0;
    ghost var row := 0;
    while i < |data|
      invariant row <= rows && i == row * width
      invariant out == Cells(data, width, row)
      decreases |data| - i
    {
      if row == rows { assert false; }
      RowFits(width, rows, row);
      DivCancel(row, width);
      out := out + [CellAt(data, width, i / width)];
      row := row + 1;
      i := i + width;
    }
    if row < rows { RowFits(width, rows, row); }
  }

  class ColumnStore {
    const disk: Disk
    const cache: PageCache.Cache

    ghost predicate Valid()
      reads cache
    {
      CanOpen(disk) && cache.Valid() && cache.files == disk.cols
    }

    constructor (d: Disk)
      requires CanOpen(d)
      ensures Valid() && disk == d && fresh(cache)
    {
      disk := d;
      cache := new PageCache.Cache(8, d.cols);
    }

    function RowCount(): nat
      requires CanOpen(disk)
    {
      disk.meta.value.rowCount
    }

    /** `column`: the whole file, one value after another. */
    method Column(name: string) returns (out: seq<nat>)
      requires Valid() && name in NAMES
      ensures out == Table(disk)[name]
    {
      var k := Position(name);
      ColumnIs(disk, name);
      out := DecodeFile(disk.cols[k], Width(k), disk.meta.value.rowCount);
    }

    /** One `next` of `iter_column`: the batch at a file position, or the end of the file. */
    method NextBatch(name: string, pos: nat, batchRows: nat, ghost row: nat) returns (batch: Option<seq<nat>>, pos': nat)
      requires Valid() && name in NAMES && batchRows > 0
      requires row <= RowCount() && pos == FileOffset(name, row)
      ensures batch == None <==> row == RowCount()
      ensures batch.Some? ==>
        var hi := Min(row + batchRows, RowCount());
        batch.value == Table(disk)[name][row..hi] && pos' == FileOffset(name, hi)
    {
      assert |disk.cols| == COLUMNS;
      hide Table, Decode, Slice, FileOffset, CanOpen, StoreColumns;
      var k := Position(name);
      var width := Width(k);
      BatchIs(disk, name, row, batchRows);
      var chunk := Slice(disk.cols[k], pos, pos + FileOffset(name, batchRows));
      if chunk == [] { return None, pos; }
      batch := Some(Decode(chunk, width));
      pos' := pos + |chunk|;
    }

    /** One seek through the page cache. */
    method ReadCell(name: string, row: nat) returns (value: nat)
      requires Valid() && name in NAMES && row < disk.meta.value.rowCount
      modifies cache
      ensures Valid() && value == Table(disk)[name][row]
    {
      var c := Position(name);
      var width := Width(c);
      CellIs(disk, name, row);
      hide Table, CanOpen, Slice, FromLE;
      var bytes := cache.Read(c, row * width, width);
      value := FromLE(bytes);
    }

    /** `read_rows` */
    method ReadRows(name: string, rows: seq<nat>) returns (out: seq<int>)
      requires Valid() && name in NAMES && InRange(rows, disk.meta.value.rowCount)
      modifies cache
      ensures Valid()
      ensures out == Pick(Table(disk)[name], rows)
    {
      ghost var column := Table(disk)[name];
      hide Table, CanOpen, ColumnStore.Valid, PageCache.Cache.Valid;
      out := [];
      for k := 0 to |rows|
        invariant Valid()
        invariant out == Pick(column, rows[..k])
      {
        assert rows[..k + 1] == rows[..k] + [rows[k]];
        var value := ReadCell(name, rows[k]);
        out := out + [value];
      }
      assert rows[..|rows|] == rows;
    }

    /** `records` */
    method GetRecords() returns (out: seq<PacketRecord>)
      requires Valid()
      ensures out == Records(disk)
    {
      var ts := Column("ts");
      var srcIp := Column("src_ip");
      var dstIp := Column("dst_ip");
      var srcPort := Column("src_port");
      var dstPort := Column("dst_port");
      var proto := Column("proto");
      var size := Column("size");
      var flags := Column("flags");
      var ttl := Column("ttl");
      out := [];
      for i := 0 to RowCount()
        invariant out == RecordsTo(disk, i)
      {
        out := out + [PacketRecord(ts[i], srcIp[i], dstIp[i], srcPort[i], dstPort[i], proto[i], size[i], flags[i], ttl[i])];
      }
    }
  }
}
