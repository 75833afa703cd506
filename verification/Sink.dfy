/** What the writer thread feeds (packetql/capture/pipeline.py): the column files and the indexes, row for row. */
module SinkState {
  import opened Columnar
  import opened IndexLog
  import opened IndexPlan
  import opened Seqs
  import Bitmap
  import Bytes
  import Indexes
  import PortHash
  import Store

  function IndexedOf(r: PacketRecord): Indexes.Indexed {
    Indexes.Indexed(r.srcIp, r.dstIp, r.srcPort, r.dstPort, r.protocol)
  }

  function AllIndexed(recs: seq<PacketRecord>): (s: seq<Indexes.Indexed>)
    ensures |s| == |recs|
  {
    seq(|recs|, i requires 0 <= i < |recs| => IndexedOf(recs[i]))
  }

  lemma AllIndexedAppend(recs: seq<PacketRecord>, more: seq<PacketRecord>)
    ensures AllIndexed(recs + more) == AllIndexed(recs) + AllIndexed(more)
  {
  }

  lemma FitsPorts(rec: PacketRecord)
    requires rec.Fits()
    ensures rec.srcPort < PortHash.NUM_PORTS && rec.dstPort < PortHash.NUM_PORTS
  {
    assert Bytes.Pow256(2) == 65536;
    assert rec.Field(3) == rec.srcPort && rec.Field(4) == rec.dstPort;
  }

  ghost predicate AllFit(recs: seq<PacketRecord>) {
    forall i :: 0 <= i < |recs| ==> recs[i].Fits()
  }

  // ---- When indexes represent a store ------------------------------------

  lemma {:induction false} RecordOf(d: Disk, n: nat, i: nat)
    requires |d.cols| == COLUMNS && i < n
    ensures RecordsTo(d, n)[i] == RecordAt(d, i)
  {
    hide RecordAt;
    if i < n - 1 { RecordOf(d, n - 1, i); }
  }

  lemma ColumnsOfRecords(d: Disk)
    requires CanOpen(d)
    ensures forall c :: c in {"src_ip", "dst_ip", "src_port", "dst_port", "proto"} ==>
      Store.Table(d)[c] == Indexes.IndexedColumn(AllIndexed(Records(d)), c)
    ensures Indexes.BuiltLogs(Store.Table(d)) == Indexes.RecordLogs(AllIndexed(Records(d)))
  {
    var n := d.meta.value.rowCount;
    forall c, i | c in {"src_ip", "dst_ip", "src_port", "dst_port", "proto"} && 0 <= i < n
      ensures Store.Table(d)[c][i] == Indexes.IndexedColumn(AllIndexed(Records(d)), c)[i]
    {
      RecordOf(d, n, i);
    }
  }

  /** An index set represents a store exactly when it was given each of its records, at its row and in order. */
  lemma RepresentsWhen(indexes: Indexes.PacketIndexes, d: Disk)
    requires CanOpen(d) && indexes.Valid()
    ensures indexes.Represents(Store.Table(d), d.meta.value.rowCount)
      <==> indexes.Now() == Indexes.RecordLogs(AllIndexed(Records(d)))
  {
    ColumnsOfRecords(d);
    RowBoundEnumerate(Store.Table(d)["proto"]);
    hide Enumerate, RowBound, AllIndexed;
  }

  /** Indexes grown by what was appended are right for the whole store exactly when they were right for the old rows. */
  lemma GrownRight(base: Indexes.Logs, atOpen: seq<PacketRecord>, appended: seq<PacketRecord>)
    ensures Indexes.GrownFrom(base, |atOpen|, AllIndexed(appended)) == Indexes.RecordLogs(AllIndexed(atOpen + appended))
      <==> base == Indexes.RecordLogs(AllIndexed(atOpen))
  {
    AllIndexedAppend(atOpen, appended);
    Indexes.GrownIsBuilt(base, AllIndexed(atOpen), AllIndexed(appended));
  }

  /** What the protocol bitmap answers after a capture. */
  function GrownProtocolRows(base: Indexes.Logs, row: nat, recs: seq<Indexes.Indexed>, protocol: nat): seq<nat> {
    Bitmap.SetBits(Bitmap.OredBits(Indexes.GrownFrom(base, row, recs).proto, protocol), 0)
  }

  lemma {:induction false} GrownEntries(base: Indexes.Logs, row: nat, recs: seq<Indexes.Indexed>, e: Entry)
    ensures e in Indexes.GrownFrom(base, row, recs).proto
      <==> e in base.proto || exists i :: 0 <= i < |recs| && e == Entry(recs[i].protocol, row + i)
  {
    if recs != [] {
      var n := |recs| - 1;
      GrownEntries(base, row, recs[..n], e);
      assert forall i :: 0 <= i < n ==> recs[..n][i] == recs[i];
    }
  }

  /** A row of the old store that the index set did not have is lost to every later lookup of its protocol. */
  lemma StaleLosesRow(base: Indexes.Logs, before: seq<Indexes.Indexed>, recs: seq<Indexes.Indexed>, row: nat)
    requires row < |before| && Entry(before[row].protocol, row) !in base.proto
    ensures row !in GrownProtocolRows(base, |before|, recs, before[row].protocol)
    ensures row in RowsWhere(Indexes.IndexedColumn(before + recs, "proto"), v => v == before[row].protocol)
  {
    var p, log := before[row].protocol, Indexes.GrownFrom(base, |before|, recs).proto;
    Bitmap.SetBitsExact(Bitmap.OredBits(log, p), 0);
    Bitmap.OredBitsExact(log, p, row);
    GrownEntries(base, |before|, recs, Entry(p, row));
    RowsWhereExact(Indexes.IndexedColumn(before + recs, "proto"), v => v == p);
  }

  lemma {:induction false} FewRows(s: seq<nat>, lo: nat, hi: nat)
    requires StrictlyAscending(s) && lo <= hi && forall i :: 0 <= i < |s| ==> lo <= s[i] < hi
    ensures |s| <= hi - lo
  {
    if s != [] { FewRows(s[..|s| - 1], lo, s[|s| - 1]); }
  }

  /** With an index set that starts empty over a store with rows, such a lookup is short enough that the planner
      prefers it to the scan. */
  lemma EmptyIsPreferred(before: seq<Indexes.Indexed>, recs: seq<Indexes.Indexed>, protocol: nat)
    requires before != []
    ensures |GrownProtocolRows(Indexes.NO_LOGS, |before|, recs, protocol)| < |before + recs|
  {
    var log := Indexes.GrownFrom(Indexes.NO_LOGS, |before|, recs).proto;
    var rows := GrownProtocolRows(Indexes.NO_LOGS, |before|, recs, protocol);
    Bitmap.SetBitsExact(Bitmap.OredBits(log, protocol), 0);
    forall k | 0 <= k < |rows| ensures |before| <= rows[k] < |before| + |recs| {
      assert rows[k] in rows;
      Bitmap.OredBitsExact(log, protocol, rows[k]);
      GrownEntries(Indexes.NO_LOGS, |before|, recs, Entry(protocol, rows[k]));
    }
    FewRows(rows, |before|, |before| + |recs|);
  }

  /** One old row and one captured row of TCP, indexed into an empty set: the old row is lost. */
  lemma StaleWitness()
    ensures var tcp := [Indexes.Indexed(0, 0, 0, 0, 6)];
      && 0 !in GrownProtocolRows(Indexes.NO_LOGS, 1, tcp, 6)
      && |GrownProtocolRows(Indexes.NO_LOGS, 1, tcp, 6)| < 2
      && 0 in RowsWhere(Indexes.IndexedColumn(tcp + tcp, "proto"), v => v == 6)
  {
    var tcp := [Indexes.Indexed(0, 0, 0, 0, 6)];
    StaleLosesRow(Indexes.NO_LOGS, tcp, tcp, 0);
    EmptyIsPreferred(tcp, tcp, 6);
  }

  // ---- Store and indexes together ----------------------------------------

  /** Column writer and indexes, kept in step by the writer thread. */
  class Sink {
    const writer: ColumnWriter
    const indexes: Indexes.PacketIndexes
    ghost const base: Indexes.Logs         // what the indexes held when the store was opened
    ghost const atOpen: seq<PacketRecord>  // the rows the store had then
    var nextRow: nat
    var written: nat
    ghost var stored: seq<PacketRecord>   // the rows of the store, flushed or not
    ghost var flushSize: int
    ghost var Repr: set<object>

    ghost predicate Writing()
      reads this, writer, writer.dir
    {
      && writer.Valid()
      && writer.origin == atOpen && stored == atOpen + writer.appended
      && nextRow == |stored| && written == |writer.appended|
      && flushSize == writer.batchSize
    }

    /** The indexes were given every record appended since, each at its position in the store. */
    ghost predicate Indexed()
      reads this, writer, indexes, indexes.Repr, indexes.srcIp, indexes.dstIp, indexes.srcPort, indexes.dstPort, indexes.proto
    {
      && indexes.Valid()
      && indexes.Now() == Indexes.GrownFrom(base, |atOpen|, AllIndexed(writer.appended))
    }

    ghost predicate Apart()
      reads this, writer, indexes
    {
      && {this, writer, writer.dir} !! indexes.Repr
      && {indexes, indexes.srcIp, indexes.dstIp, indexes.srcPort, indexes.dstPort, indexes.proto} <= indexes.Repr
      && Repr == {this, writer, writer.dir} + indexes.Repr
    }

    ghost predicate Valid()
      reads this, Repr
      ensures Valid() ==> this in Repr
    {
      && {this, writer, writer.dir, indexes} <= Repr && indexes.Repr <= Repr
      && Apart() && Writing() && Indexed()
    }

    /** A writer just opened, with any index set. */
    constructor (w: ColumnWriter, existing: Indexes.PacketIndexes)
      requires w.Valid() && w.pending == [] && w.appended == []
      requires existing.Valid() && {w, w.dir} !! existing.Repr
      ensures Valid() && indexes == existing && writer == w && flushSize == w.batchSize
      ensures Repr == {this, w, w.dir} + existing.Repr
      ensures base == existing.Now() && stored == atOpen == w.origin && written == 0
    {
      RowsOfWriter(w);
      IndexObjects(existing);
      assert AllIndexed([]) == [];
      assert Indexes.GrownFrom(existing.Now(), |w.origin|, []) == existing.Now();
      hide Indexes.PacketIndexes.Valid, Indexes.PacketIndexes.Now, ColumnWriter.Valid, AllIndexed, Indexes.GrownFrom;
      writer := w;
      indexes := existing;
      base, atOpen := existing.Now(), w.origin;
      nextRow, written := w.rowCount, 0;
      stored, flushSize := w.origin, w.batchSize;
      assert w.origin + w.appended == w.origin;
      new;
      Repr := {this, writer, writer.dir} + indexes.Repr;
    }

    /** Over a store that opens or a fresh directory, with any index set. */
    static method Open(directory: Directory, size: nat, existing: Indexes.PacketIndexes) returns (s: Sink)
      requires Continues(directory.disk) && existing.Valid() && directory !in existing.Repr
      modifies directory
      ensures s.Valid() && s in s.Repr && s.indexes == existing && s.writer.dir == directory && s.flushSize == size
      ensures s.Repr == {s, s.writer, directory} + existing.Repr && fresh({s, s.writer})
      ensures s.base == old(existing.Now()) && s.stored == s.atOpen == old(Found(directory.disk)) && s.written == 0
    {
      assert |directory.disk.cols| == COLUMNS;
      hide Sink.Valid, Indexes.PacketIndexes.Valid, Indexes.PacketIndexes.Now, ColumnWriter.Valid, ColumnWriter.Ready,
        ColumnWriter.CrashSafe, CanOpen, Continues, Found;
      var w := new ColumnWriter(directory, size, true);
      s := new Sink(w, existing);
    }

    /** Append one record and index it at its row. */
    method Consume(rec: PacketRecord)
      requires Valid() && rec.Fits()
      modifies Repr
      ensures Valid() && fresh(Repr - old(Repr))
      ensures stored == old(stored) + [rec] && written == old(written) + 1 && flushSize == old(flushSize)
    {
      hide Indexes.PacketIndexes.Valid, Indexes.PacketIndexes.Now, ColumnWriter.Valid, AllIndexed, Indexes.GrownFrom;
      ghost var recs := writer.appended;
      AppendOne(rec);
      IndexOne(rec, recs);
      nextRow := nextRow + 1;
      written := written + 1;
      stored := stored + [rec];
      Repr := {this, writer, writer.dir} + indexes.Repr;
    }

    method AppendOne(rec: PacketRecord)
      requires Writing() && rec.Fits()
      modifies writer, writer.dir
      ensures writer.Valid() && writer.origin == atOpen && writer.appended == old(writer.appended) + [rec]
      ensures atOpen + writer.appended == stored + [rec] && writer.batchSize == old(writer.batchSize)
    {
      hide CanOpen, ColumnWriter.CrashSafe;
      writer.Append(rec);
    }

    method IndexOne(rec: PacketRecord, ghost recs: seq<PacketRecord>)
      requires rec.Fits() && indexes.Valid() && nextRow == |atOpen| + |recs|
      requires indexes.Now() == Indexes.GrownFrom(base, |atOpen|, AllIndexed(recs))
      modifies indexes.Repr
      ensures indexes.Valid() && fresh(indexes.Repr - old(indexes.Repr))
      ensures {indexes, indexes.srcIp, indexes.dstIp, indexes.srcPort, indexes.dstPort, indexes.proto} <= indexes.Repr
      ensures indexes.Now() == Indexes.GrownFrom(base, |atOpen|, AllIndexed(recs + [rec]))
    {
      hide Indexes.PacketIndexes.Valid, Indexes.GrownFrom;
      AllIndexedAppend(recs, [rec]);
      assert AllIndexed([rec]) == [IndexedOf(rec)];
      Indexes.GrownPush(base, |atOpen|, AllIndexed(recs), IndexedOf(rec));
      FitsPorts(rec);
      hide AllIndexed;
      indexes.Add(IndexedOf(rec), nextRow);
      IndexObjects(indexes);
    }

    method SetFlushSize(size: int)
      requires Valid()
      modifies Repr
      ensures Valid() && flushSize == size && Repr == old(Repr) && stored == old(stored) && written == old(written)
    {
      hide Indexes.PacketIndexes.Valid;
      hide Indexes.PacketIndexes.Now;
      hide Packed;
      hide Records;
      hide CanOpen;
      hide PacketRecord.Fits;
      hide AllIndexed;
      hide Indexes.GrownFrom;
      writer.batchSize := size;
      flushSize := size;
    }

    /** The records of one batch, in order. */
    method WriteBatch(batch: seq<PacketRecord>)
      requires Valid() && AllFit(batch)
      modifies Repr
      ensures Valid() && fresh(Repr - old(Repr))
      ensures stored == old(stored) + batch && written == old(written) + |batch| && flushSize == old(flushSize)
    {
      hide Valid;
      var i := 0;
      while i < |batch|
        invariant 0 <= i <= |batch|
        invariant Valid() && fresh(Repr - old(Repr))
        invariant stored == old(stored) + batch[..i] && written == old(written) + i && flushSize == old(flushSize)
      {
        Consume(batch[i]);
        assert batch[..i + 1] == batch[..i] + [batch[i]];
        i := i + 1;
      }
      assert batch[..i] == batch;
    }

    /** `_writer.close()`: everything is on disk, and the indexes are those of a bulk build from it exactly when they
        were right for the rows the store was atOpen with. */
    method CloseWriter()
      requires Valid()
      modifies Repr
      ensures CanOpen(writer.dir.disk) && Records(writer.dir.disk) == old(stored) && written == old(written)
      ensures indexes.Valid()
      ensures indexes.Represents(Store.Table(writer.dir.disk), writer.dir.disk.meta.value.rowCount)
        <==> base == Indexes.RecordLogs(AllIndexed(atOpen))
    {
      hide Indexes.PacketIndexes.Valid, Indexes.PacketIndexes.Represents, AllIndexed, ColumnWriter.CrashSafe;
      ghost var recs := writer.appended;
      writer.Close();
      RepresentsWhen(indexes, writer.dir.disk);
      GrownRight(base, atOpen, recs);
    }
  }

  lemma RowsOfWriter(w: ColumnWriter)
    requires w.Valid() && w.pending == [] && w.appended == []
    ensures w.rowCount == |w.origin|
  {
  }

  lemma IndexObjects(ix: Indexes.PacketIndexes)
    requires ix.Valid()
    ensures {ix, ix.srcIp, ix.dstIp, ix.srcPort, ix.dstPort, ix.proto} <= ix.Repr
  {
  }
}
