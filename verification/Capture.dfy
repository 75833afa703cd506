/** The writer thread's loop on the real objects (packetql/capture/pipeline.py): ring, column files and indexes. */
module Capture {
  import opened Columnar
  import opened SinkState
  import Bytes
  import Indexes
  import Packet
  import Pcap
  import Pipeline
  import RingBuffer
  import Store
  import Wrappers

  // ---- Indexes over every interleaving -----------------------------------

  /** What an index set has been given after `add` was called for some (record, row) pairs. */
  function Indexing(base: Indexes.Logs, adds: seq<(PacketRecord, nat)>): Indexes.Logs {
    if adds == [] then base
    else
      var n := |adds| - 1;
      Indexes.Logged(Indexing(base, adds[..n]), IndexedOf(adds[n].0), adds[n].1)
  }

  lemma {:induction false} IndexingRows(base: Indexes.Logs, recs: seq<PacketRecord>, from: nat)
    ensures Indexing(base, Pipeline.Rows(recs, from)) == Indexes.GrownFrom(base, from, AllIndexed(recs))
  {
    if recs != [] {
      var n := |recs| - 1;
      IndexingRows(base, recs[..n], from);
      assert Pipeline.Rows(recs, from)[..n] == Pipeline.Rows(recs[..n], from);
      assert AllIndexed(recs)[..n] == AllIndexed(recs[..n]);
    }
  }

  /** Under every interleaving of producer and writer, an index set given what the writer indexed represents the final
      store exactly when it was right for the rows the store had at first. */
  lemma ExitRepresents(capacity: nat, batchSize: int, origin: seq<PacketRecord>, schedule: seq<Pipeline.Action<PacketRecord>>,
                       base: Indexes.Logs, indexes: Indexes.PacketIndexes, d: Disk)
    requires capacity >= 1 && batchSize >= 1
    requires var s := Pipeline.After(Pipeline.Start(capacity, batchSize, origin), schedule);
      && s.pc == Pipeline.Exited
      && CanOpen(d) && Records(d) == s.store
      && indexes.Valid() && indexes.Now() == Indexing(base, s.indexed)
    ensures indexes.Represents(Store.Table(d), d.meta.value.rowCount) <==> base == Indexes.RecordLogs(AllIndexed(origin))
  {
    hide Indexes.PacketIndexes.Valid, Indexes.PacketIndexes.Represents, AllIndexed, CanOpen, Records;
    Pipeline.ExitConserves(capacity, batchSize, origin, schedule);
    var s := Pipeline.After(Pipeline.Start(capacity, batchSize, origin), schedule);
    var added := s.store[|origin|..];
    assert s.store == origin + added;
    IndexingRows(base, added, |origin|);
    RepresentsWhen(indexes, d);
    GrownRight(base, origin, added);
  }

  // ---- The pipeline object -----------------------------------------------

  class CapturePipeline {
    const ring: RingBuffer.Ring<PacketRecord>
    const sink: Sink
    var batchSize: int
    var lastDropped: int
    var lastEnqueued: int

    ghost predicate Valid()
      reads this, ring, ring.slots, sink, sink.Repr
      ensures Valid() ==> ring.Valid()
    {
      && {this, ring, ring.slots} !! sink.Repr && sink in sink.Repr
      && ring.Valid() && AllFit(ring.Contents())
      && sink.Valid() && 1 <= batchSize == sink.flushSize
    }

    /** On a store that opens or a fresh directory, with any index set. */
    constructor (directory: Directory, capacity: nat, size: nat, existing: Indexes.PacketIndexes)
      requires capacity >= 1 && size >= 1 && Continues(directory.disk) && existing.Valid() && directory !in existing.Repr
      modifies directory
      ensures Valid() && sink.indexes == existing && sink.writer.dir == directory && batchSize == size
      ensures sink.base == old(existing.Now()) && sink.stored == sink.atOpen == old(Found(directory.disk)) && sink.written == 0
      ensures ring.Contents() == [] && ring.capacity == capacity && !ring.closed && ring.dropped == 0
      ensures fresh({this, ring, ring.slots}) && fresh(sink.Repr - existing.Repr - {directory})
    {
      hide Indexes.PacketIndexes.Valid, Sink.Valid, Continues, Found, RingBuffer.Ring.Live, RingBuffer.Ring.Contents;
      var s := Sink.Open(directory, size, existing);
      ring := new RingBuffer.Ring<PacketRecord>(capacity);
      sink := s;
      batchSize, lastDropped, lastEnqueued := size, 0, 0;
    }

    /** The producer's put of one record. */
    method Offer(rec: PacketRecord)
      requires Valid() && rec.Fits()
      modifies ring`head, ring`tail, ring`size, ring`dropped, ring`enqueued, ring.slots
      ensures Valid() && ring.Contents() == RingBuffer.PutQueue(old(ring.Contents()), rec, ring.capacity)
    {
      hide Sink.Valid, PacketRecord.Fits;
      ring.Put(rec);
    }

    method CloseRing()
      requires Valid()
      modifies ring`closed
      ensures Valid() && ring.closed && ring.Contents() == old(ring.Contents())
    {
      hide Sink.Valid;
      ring.Close();
    }

    /** `_adapt` */
    method Adapt()
      requires Valid()
      modifies this, sink.Repr
      ensures Valid() && sink.Repr == old(sink.Repr) && sink.stored == old(sink.stored) && sink.written == old(sink.written)
      ensures batchSize == Pipeline.AdaptedSize(old(batchSize), ring.dropped - old(lastDropped), ring.enqueued - old(lastEnqueued))
      ensures lastDropped == ring.dropped && lastEnqueued == ring.enqueued
    {
      hide Sink.Valid;
      hide RingBuffer.Ring.Valid;
      hide RingBuffer.Ring.Contents;
      var d, e := ring.dropped - lastDropped, ring.enqueued - lastEnqueued;
      lastDropped, lastEnqueued := ring.dropped, ring.enqueued;
      var rate := if e != 0 then d as real / e as real else 0.0;
      if rate > 0.05 && batchSize < Pipeline.BATCH_CAP {
        batchSize := if batchSize * 2 < Pipeline.BATCH_CAP then batchSize * 2 else Pipeline.BATCH_CAP;
        sink.SetFlushSize(batchSize);
      }
    }

    /** `get_batch` */
    method TakeBatch() returns (batch: seq<PacketRecord>)
      requires Valid()
      modifies ring`tail, ring`size, ring.slots
      ensures Valid() && batch == RingBuffer.Taken(old(ring.Contents()), batchSize)
      ensures batch + ring.Contents() == old(ring.Contents()) && AllFit(batch)
    {
      hide Sink.Valid;
      batch := ring.GetBatch(batchSize);
      ghost var rest := ring.Contents();
      assert AllFit(batch + rest);
      assert forall i :: 0 <= i < |rest| ==> rest[i] == (batch + rest)[|batch| + i];
    }

    /** One turn of the writer's loop. */
    method WriterTurn() returns (done: bool)
      requires Valid()
      modifies this, ring`tail, ring`size, ring.slots, sink.Repr
      ensures Valid() && fresh(sink.Repr - old(sink.Repr))
      ensures var taken := RingBuffer.Taken(old(ring.Contents()), old(batchSize));
        && taken + ring.Contents() == old(ring.Contents())
        && sink.stored == old(sink.stored) + taken && sink.written == old(sink.written) + |taken|
        && (done <==> taken == [] && ring.closed)
        && (taken == [] ==> ring.Contents() == [])
    {
      hide Sink.Valid;
      var batch := TakeBatch();
      if batch != [] {
        WriteAndAdapt(batch);
        done := false;
      } else {
        done := ring.closed && ring.size == 0;
      }
    }

    method WriteAndAdapt(batch: seq<PacketRecord>)
      requires Valid() && AllFit(batch)
      modifies this, sink.Repr
      ensures Valid() && fresh(sink.Repr - old(sink.Repr))
      ensures sink.stored == old(sink.stored) + batch && sink.written == old(sink.written) + |batch|
    {
      hide Sink.Valid;
      hide RingBuffer.Ring.Valid;
      hide RingBuffer.Ring.Contents;
      sink.WriteBatch(batch);
      Adapt();
    }

    /** The writer thread from close to its end, without further puts: everything in the ring reaches the store,
        and the indexes are those of a bulk build from it exactly when they were right for the rows it had at first. */
    method RunWriter()
      requires Valid() && ring.closed
      modifies this, ring`tail, ring`size, ring.slots, sink.Repr
      ensures CanOpen(sink.writer.dir.disk)
      ensures Records(sink.writer.dir.disk) == old(sink.stored) + old(ring.Contents())
      ensures sink.written == old(sink.written) + |old(ring.Contents())|
      ensures sink.indexes.Valid()
      ensures sink.indexes.Represents(Store.Table(sink.writer.dir.disk), sink.writer.dir.disk.meta.value.rowCount)
        <==> sink.base == Indexes.RecordLogs(AllIndexed(sink.atOpen))
    {
      hide Sink.Valid, CanOpen, Records, AllIndexed, RingBuffer.Ring.Live, RingBuffer.Ring.Contents;
      var done := false;
      while !done
        invariant Valid() && fresh(sink.Repr - old(sink.Repr))
        invariant sink.stored + ring.Contents() == old(sink.stored) + old(ring.Contents())
        invariant sink.written + |ring.Contents()| == old(sink.written) + |old(ring.Contents())|
        invariant done ==> ring.Contents() == []
        decreases |ring.Contents()|, !done
      {
        ghost var before, taken := sink.stored, RingBuffer.Taken(ring.Contents(), batchSize);
        done := WriterTurn();
        assert before + (taken + ring.Contents()) == sink.stored + ring.Contents();
      }
      sink.CloseWriter();
    }
  }

  // ---- A whole capture ---------------------------------------------------

  lemma MicrosFit(raw: Pcap.RawPacket)
    requires Pcap.Fits(raw)
    ensures Packet.Micros(raw) < Bytes.Pow256(8)
  {
    assert Bytes.Pow256(8) == 0x1_0000_0000_0000_0000 by {
      assert Bytes.Pow256(4) == 0x1_0000_0000;
      assert Bytes.Pow256(6) == 0x1_0000_0000_0000;
    }
  }

  /** The newest items a ring can hold. */
  function Newest(items: seq<PacketRecord>, capacity: nat): seq<PacketRecord> {
    if |items| <= capacity then items else items[|items| - capacity..]
  }

  lemma NewestPush(items: seq<PacketRecord>, item: PacketRecord, capacity: nat)
    requires capacity >= 1
    ensures Newest(items + [item], capacity) == RingBuffer.PutQueue(Newest(items, capacity), item, capacity)
  {
  }

  /** One turn of the producer's loop: a frame that parses is offered to the ring. */
  method OfferFrame(pipe: CapturePipeline, raw: Pcap.RawPacket, ghost recs: seq<PacketRecord>)
    requires pipe.Valid() && pipe.ring.Contents() == Newest(recs, pipe.ring.capacity) && Pcap.Fits(raw)
    modifies pipe.ring`head, pipe.ring`tail, pipe.ring`size, pipe.ring`dropped, pipe.ring`enqueued, pipe.ring.slots
    ensures pipe.Valid()
    ensures var rec := Packet.ParsePacket(raw.data, Packet.Micros(raw), true);
      pipe.ring.Contents() == Newest(if rec.Some? then recs + [rec.value] else recs, pipe.ring.capacity)
  {
    assert pipe.ring.capacity >= 1;
    MicrosFit(raw);
    Packet.ParsedFits(raw.data, Packet.Micros(raw), true);
    hide CapturePipeline.Valid, RingBuffer.Ring.Contents, PacketRecord.Fits, Packet.ParsePacket, Packet.Micros;
    var rec := Packet.ParsePacket(raw.data, Packet.Micros(raw), true);
    if rec.Some? {
      NewestPush(recs, rec.value, pipe.ring.capacity);
      pipe.Offer(rec.value);
    }
  }

  lemma ParseAllPush(raws: seq<Pcap.RawPacket>, i: nat)
    requires i < |raws|
    ensures var rec := Packet.ParsePacket(raws[i].data, Packet.Micros(raws[i]), true);
      Packet.ParseAll(raws[..i + 1])
        == if rec.Some? then Packet.ParseAll(raws[..i]) + [rec.value] else Packet.ParseAll(raws[..i])
  {
    hide Packet.ParsePacket, Packet.Micros;
    assert raws[..i + 1][..i] == raws[..i];
    assert Packet.ParseAll(raws[..i]) + [] == Packet.ParseAll(raws[..i]);
  }

  /** The producer: every frame of the capture file, then close. */
  method Produce(pipe: CapturePipeline, raws: seq<Pcap.RawPacket>)
    requires pipe.Valid() && pipe.ring.Contents() == [] && !pipe.ring.closed
    requires forall i :: 0 <= i < |raws| ==> Pcap.Fits(raws[i])
    modifies pipe.ring`head, pipe.ring`tail, pipe.ring`size, pipe.ring`dropped, pipe.ring`enqueued, pipe.ring`closed, pipe.ring.slots
    ensures pipe.Valid() && pipe.ring.closed
    ensures pipe.ring.Contents() == Newest(Packet.ParseAll(raws), pipe.ring.capacity)
  {
    hide CapturePipeline.Valid, RingBuffer.Ring.Contents, Packet.ParsePacket, Packet.Micros, Pcap.Fits;
    for i := 0 to |raws|
      invariant pipe.Valid() && pipe.ring.Contents() == Newest(Packet.ParseAll(raws[..i]), pipe.ring.capacity)
    {
      hide Newest, Packet.ParseAll;
      ParseAllPush(raws, i);
      OfferFrame(pipe, raws[i], Packet.ParseAll(raws[..i]));
    }
    assert raws[..|raws|] == raws;
    pipe.CloseRing();
  }

  /** `capture_offline` on the schedule in which the producer is done before the writer starts. */
  method CaptureOffline(raws: seq<Pcap.RawPacket>, directory: Directory, capacity: nat, size: nat,
                        existing: Indexes.PacketIndexes) returns (pipe: CapturePipeline)
    requires forall i :: 0 <= i < |raws| ==> Pcap.Fits(raws[i])
    requires capacity >= 1 && size >= 1 && Continues(directory.disk) && existing.Valid() && directory !in existing.Repr
    modifies directory, existing.Repr
    ensures CanOpen(directory.disk)
    ensures Records(directory.disk) == old(Found(directory.disk)) + Newest(Packet.ParseAll(raws), capacity)
    ensures existing.Valid()
    ensures existing.Represents(Store.Table(directory.disk), directory.disk.meta.value.rowCount)
      <==> old(existing.Now()) == Indexes.RecordLogs(AllIndexed(old(Found(directory.disk))))
  {
    hide CapturePipeline.Valid, Indexes.PacketIndexes.Valid, Continues, CanOpen, Records, Found, AllIndexed, Newest;
    pipe := new CapturePipeline(directory, capacity, size, existing);
    Produce(pipe, raws);
    pipe.RunWriter();
  }

  /** A capture into a fresh directory with an empty index set: the store can be queried through it. */
  method CaptureFresh(raws: seq<Pcap.RawPacket>, capacity: nat, size: nat)
      returns (directory: Directory, indexes: Indexes.PacketIndexes)
    requires capacity >= 1 && size >= 1 && forall i :: 0 <= i < |raws| ==> Pcap.Fits(raws[i])
    ensures CanOpen(directory.disk) && Records(directory.disk) == Newest(Packet.ParseAll(raws), capacity)
    ensures indexes.Valid() && indexes.Represents(Store.Table(directory.disk), directory.disk.meta.value.rowCount)
  {
    hide *;
    NothingStored();
    directory := new Directory(EmptyDirectory());
    indexes := Indexes.PacketIndexes.Empty();
    var pipe := CaptureOffline(raws, directory, capacity, size, indexes);
    assert [] + Newest(Packet.ParseAll(raws), capacity) == Newest(Packet.ParseAll(raws), capacity);
  }

  /** Nine files just created, and no metadata. */
  function EmptyDirectory(): Disk {
    Disk(seq(COLUMNS, _ => []), Wrappers.None)
  }

  lemma NothingStored()
    ensures Continues(EmptyDirectory()) && Found(EmptyDirectory()) == []
    ensures Indexes.RecordLogs(AllIndexed([])) == Indexes.NO_LOGS
  {
    ContinuesWhen(EmptyDirectory());
    assert AllIndexed([]) == [];
  }
}
