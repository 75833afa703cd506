/** The capture pipeline: one producer and one writer thread around the ring (packetql/capture/pipeline.py). */
module Pipeline {
  import opened Seqs
  import opened RingBuffer
  import opened Slices

  const BATCH_CAP: nat := 16384

  /** `_adapt`: double the batch when more than 5% of the recent packets were dropped. */
  function AdaptedSize(size: int, dropped: int, enqueued: int): int {
    if enqueued != 0 && dropped as real / enqueued as real > 0.05 && size < BATCH_CAP then
      if size * 2 < BATCH_CAP then size * 2 else BATCH_CAP
    else size
  }

  /** Where the writer thread is in its loop. */
  datatype Pc = Getting | Consuming | SawEmpty | SawClosed | Exited

  /** Ring, writer thread and store, with the history of what was put. */
  datatype Pipe<T> = Pipe(
    capacity: nat, queue: seq<T>, closed: bool, dropped: nat, enqueued: nat,
    pc: Pc, batch: seq<T>, batchSize: int, written: nat, nextRow: nat,
    store: seq<T>, indexed: seq<(T, nat)>,
    puts: seq<T>, kept: seq<nat>)

  datatype Action<T> =
    | Put(item: T)                              // producer
    | Close                                     // producer, after its last put
    | GetBatch                                  // writer: items, or nothing after a timeout or close
    | Consume                                   // writer: append and index one record
    | Adapt(seenDropped: int, seenEnqueued: int) // writer: the counters are read without the lock, so any values
    | CheckClosed
    | CheckEmpty

  predicate Enabled<T>(s: Pipe<T>, a: Action<T>) {
    match a
    case Put(_) => !s.closed
    case Close => !s.closed
    case GetBatch => s.pc == Getting
    case Consume => s.pc == Consuming && s.batch != []
    case Adapt(_, _) => s.pc == Consuming && s.batch == []
    case CheckClosed => s.pc == SawEmpty
    case CheckEmpty => s.pc == SawClosed
  }

  function Step<T>(s: Pipe<T>, a: Action<T>): Pipe<T>
    requires Enabled(s, a) && s.capacity >= 1
  {
    match a
    case Put(item) =>
      var full := |s.queue| == s.capacity;
      s.(queue := PutQueue(s.queue, item, s.capacity),
         dropped := s.dropped + (if full then 1 else 0),
         enqueued := s.enqueued + 1,
         puts := s.puts + [item],
         kept := (if full && |s.queue| <= |s.kept| then Without(s.kept, |s.kept| - |s.queue|) else s.kept) + [|s.puts|])
    case Close => s.(closed := true)
    case GetBatch =>
      var out := Taken(s.queue, s.batchSize);
      s.(batch := out, queue := s.queue[|out|..], pc := if out == [] then SawEmpty else Consuming)
    case Consume =>
      s.(store := s.store + [s.batch[0]], indexed := s.indexed + [(s.batch[0], s.nextRow)],
         nextRow := s.nextRow + 1, written := s.written + 1, batch := s.batch[1..])
    case Adapt(d, e) => s.(batchSize := AdaptedSize(s.batchSize, d, e), pc := Getting)
    case CheckClosed => s.(pc := if s.closed then SawClosed else Getting)
    case CheckEmpty => s.(pc := if s.queue == [] then Exited else Getting)
  }

  function Without<T>(s: seq<T>, i: nat): seq<T> {
    if i < |s| then s[..i] + s[i + 1..] else s
  }

  function Rows<T>(items: seq<T>, from: nat): seq<(T, nat)> {
    seq(|items|, i requires 0 <= i < |items| => (items[i], from + i))
  }

  // ---- The invariant -----------------------------------------------------

  /** `kept` are the ascending positions of the puts that were not dropped, and the newest of them are in the ring. */
  ghost predicate KeptOk<T>(s: Pipe<T>) {
    && StrictlyAscending(s.kept)
    && (forall k :: 0 <= k < |s.kept| ==> s.kept[k] < |s.puts|)
    && |s.kept| + s.dropped == |s.puts| == s.enqueued
    && |s.queue| <= |s.kept|
    && (forall k :: |s.kept| - |s.queue| <= k < |s.kept| ==> s.kept[k] == |s.puts| - (|s.kept| - k))
  }

  /** Conservation and order: old rows, then the kept puts, split between store, writer and ring. */
  ghost predicate Inv<T>(s: Pipe<T>, origin: seq<T>) {
    && 1 <= s.capacity && |s.queue| <= s.capacity && 1 <= s.batchSize
    && KeptOk(s)
    && origin <= s.store && s.written == |s.store| - |origin| && s.nextRow == |s.store|
    && s.store[|origin|..] + s.batch + s.queue == Pick(s.puts, s.kept)
    && s.indexed == Rows(s.store[|origin|..], |origin|)
    && (s.pc != Consuming ==> s.batch == [])
    && (s.pc == SawClosed || s.pc == Exited ==> s.closed)
    && (s.pc == Exited ==> s.queue == [])
  }

  function Start<T>(capacity: nat, batchSize: int, origin: seq<T>): Pipe<T> {
    Pipe(capacity, [], false, 0, 0, Getting, [], batchSize, 0, |origin|, origin, [], [], [])
  }

  lemma StartInv<T>(capacity: nat, batchSize: int, origin: seq<T>)
    requires capacity >= 1 && batchSize >= 1
    ensures Inv(Start(capacity, batchSize, origin), origin)
  {
  }

  lemma WithoutPicks<T>(puts: seq<T>, kept: seq<nat>, i: nat, item: T)
    requires i < |kept| && forall k :: 0 <= k < |kept| ==> kept[k] < |puts|
    ensures Pick(puts + [item], Without(kept, i) + [|puts|]) == Pick(puts, kept)[..i] + Pick(puts, kept)[i + 1..] + [item]
  {
  }

  lemma PutKeeps<T>(s: Pipe<T>, item: T)
    requires KeptOk(s) && s.capacity >= 1 && |s.queue| <= s.capacity && !s.closed
    ensures KeptOk(Step(s, Put(item)))
  {
  }

  lemma PutSplits<T>(done: seq<T>, queue: seq<T>, item: T, capacity: nat)
    requires 1 <= capacity && |queue| <= capacity
    ensures done + PutQueue(queue, item, capacity)
         == (if |queue| == capacity then (done + queue)[..|done|] + (done + queue)[|done| + 1..] else done + queue) + [item]
  {
  }

  /** What was done already is unaffected, and the ring refines the drop-oldest queue. */
  lemma PutPicks<T>(s: Pipe<T>, item: T, done: seq<T>)
    requires KeptOk(s) && 1 <= s.capacity && |s.queue| <= s.capacity && !s.closed
    requires done + s.queue == Pick(s.puts, s.kept)
    ensures KeptOk(Step(s, Put(item)))
    ensures var n := Step(s, Put(item)); done + n.queue == Pick(n.puts, n.kept)
  {
    PutKeeps(s, item);
    PutSplits(done, s.queue, item, s.capacity);
    assert |s.kept| == |done| + |s.queue|;
    if |s.queue| == s.capacity {
      WithoutPicks(s.puts, s.kept, |done|, item);
    } else {
      assert Pick(s.puts + [item], s.kept + [|s.puts|]) == Pick(s.puts, s.kept) + [item];
    }
  }

  lemma PutInv<T>(s: Pipe<T>, item: T, origin: seq<T>)
    requires Inv(s, origin) && Enabled(s, Put(item))
    ensures Inv(Step(s, Put(item)), origin)
  {
    PutPicks(s, item, s.store[|origin|..] + s.batch);
    hide KeptOk;
    hide Pick;
  }

  lemma ConsumeInv<T>(s: Pipe<T>, origin: seq<T>)
    requires Inv(s, origin) && Enabled(s, Consume)
    ensures Inv(Step(s, Consume), origin)
  {
    var n := Step(s, Consume);
    assert n.store[|origin|..] == s.store[|origin|..] + [s.batch[0]];
    assert s.batch == [s.batch[0]] + s.batch[1..];
    assert n.store[|origin|..] + n.batch + n.queue == s.store[|origin|..] + s.batch + s.queue;
    assert KeptOk(n);
    hide KeptOk;
    hide Pick;
  }

  lemma GetBatchInv<T>(s: Pipe<T>, origin: seq<T>)
    requires Inv(s, origin) && Enabled(s, GetBatch)
    ensures Inv(Step(s, GetBatch), origin)
  {
    var out := Taken(s.queue, s.batchSize);
    assert s.queue == out + s.queue[|out|..];
    assert s.store[|origin|..] + [] + s.queue == s.store[|origin|..] + out + s.queue[|out|..];
    assert KeptOk(Step(s, GetBatch));
    hide KeptOk;
    hide Pick;
  }

  /** Every step of producer or writer keeps the invariant. */
  lemma StepKeepsInv<T>(s: Pipe<T>, a: Action<T>, origin: seq<T>)
    requires Inv(s, origin) && Enabled(s, a)
    ensures Inv(Step(s, a), origin)
  {
    match a
    case Put(item) => PutInv(s, item, origin);
    case Close =>
    case GetBatch => GetBatchInv(s, origin);
    case Consume => ConsumeInv(s, origin);
    case Adapt(_, _) =>
    case CheckClosed =>
    case CheckEmpty =>
  }

  // ---- Runs --------------------------------------------------------------

  function After<T>(s: Pipe<T>, schedule: seq<Action<T>>): (n: Pipe<T>)
    requires s.capacity >= 1
    ensures n.capacity == s.capacity
  {
    if schedule == [] then s
    else
      var m, a := After(s, schedule[..|schedule| - 1]), schedule[|schedule| - 1];
      if Enabled(m, a) then Step(m, a) else m
  }

  /** An interleaving: every action in it is possible when its turn comes. */
  ghost predicate Feasible<T>(s: Pipe<T>, schedule: seq<Action<T>>)
    requires s.capacity >= 1
  {
    forall k :: 0 <= k < |schedule| ==> Enabled(After(s, schedule[..k]), schedule[k])
  }

  lemma {:induction false} RunInv<T>(s: Pipe<T>, schedule: seq<Action<T>>, origin: seq<T>)
    requires Inv(s, origin)
    ensures Inv(After(s, schedule), origin)
  {
    if schedule != [] {
      var m, a := After(s, schedule[..|schedule| - 1]), schedule[|schedule| - 1];
      RunInv(s, schedule[..|schedule| - 1], origin);
      if Enabled(m, a) { StepKeepsInv(m, a, origin); }
    }
  }

  /** When the writer has exited, under every interleaving: every put was written or dropped, the store is the old
      rows followed by the kept puts in their order, and every index row is the record's position in the store. */
  lemma ExitConserves<T>(capacity: nat, batchSize: int, origin: seq<T>, schedule: seq<Action<T>>)
    requires capacity >= 1 && batchSize >= 1
    requires After(Start(capacity, batchSize, origin), schedule).pc == Exited
    ensures var s := After(Start(capacity, batchSize, origin), schedule);
      && s.written + s.dropped == |s.puts| == s.enqueued
      && StrictlyAscending(s.kept) && (forall k :: 0 <= k < |s.kept| ==> s.kept[k] < |s.puts|)
      && s.store == origin + Pick(s.puts, s.kept)
      && s.indexed == Rows(s.store[|origin|..], |origin|)
  {
    StartInv(capacity, batchSize, origin);
    RunInv(Start(capacity, batchSize, origin), schedule, origin);
    var s := After(Start(capacity, batchSize, origin), schedule);
    assert s.store == origin + s.store[|origin|..];
    assert s.store[|origin|..] + [] + [] == s.store[|origin|..];
  }

  /** The batch size only grows, and never beyond the cap (or where it started). */
  lemma {:induction false} BatchSizeGrows<T>(s: Pipe<T>, schedule: seq<Action<T>>)
    requires s.capacity >= 1 && s.batchSize >= 1
    ensures s.batchSize <= After(s, schedule).batchSize
    ensures After(s, schedule).batchSize <= (if s.batchSize > BATCH_CAP then s.batchSize else BATCH_CAP)
  {
    if schedule != [] { BatchSizeGrows(s, schedule[..|schedule| - 1]); }
  }

  /** The size is doubled, up to the cap, exactly when more than one packet in twenty was dropped. */
  lemma AdaptsWhen(size: int, dropped: int, enqueued: int)
    requires size >= 1
    ensures AdaptedSize(size, dropped, enqueued) != size <==>
      size < 16384 && ((enqueued > 0 && 20 * dropped > enqueued) || (enqueued < 0 && 20 * dropped < enqueued))
    ensures AdaptedSize(size, dropped, enqueued) != size ==>
      AdaptedSize(size, dropped, enqueued) == if size <= 8192 then 2 * size else 16384
  {
    if enqueued != 0 { RateAbove(dropped as real, enqueued as real); }
  }

  lemma RateAbove(x: real, y: real)
    requires y != 0.0
    ensures x / y > 0.05 <==> (y > 0.0 && x > 0.05 * y) || (y < 0.0 && x < 0.05 * y)
  {
    var rate := x / y;
    assert x == rate * y;
    if y > 0.0 { Scaled(rate - 0.05, y); } else { Scaled(rate - 0.05, -y); }
  }

  lemma Scaled(a: real, y: real)
    requires y > 0.0
    ensures a > 0.0 <==> a * y > 0.0
  {
  }

  // ---- The writer finishes -----------------------------------------------

  function Weight<T>(s: Pipe<T>): nat {
    match s.pc
    case Exited => 0
    case Getting => 3
    case Consuming => 4
    case SawEmpty => if s.queue == [] then 2 else 5
    case SawClosed => if s.queue == [] then 1 else 4
  }

  function Rank<T>(s: Pipe<T>): nat {
    10 * |s.queue| + |s.batch| + Weight(s)
  }

  /** After close every step brings the exit nearer, and until then some step is possible. */
  lemma ClosedFalls<T>(s: Pipe<T>, a: Action<T>, origin: seq<T>)
    requires Inv(s, origin) && s.closed && Enabled(s, a)
    ensures Rank(Step(s, a)) < Rank(s) && Step(s, a).closed
  {
  }

  lemma WriterCanStep<T>(s: Pipe<T>)
    requires s.pc != Exited
    ensures exists a: Action<T> :: Enabled(s, a) && !a.Put? && !a.Close?
  {
    match s.pc
    case Getting => assert Enabled(s, GetBatch);
    case Consuming => if s.batch == [] { assert Enabled(s, Adapt(0, 0)); } else { assert Enabled(s, Consume); }
    case SawEmpty => assert Enabled(s, CheckClosed);
    case SawClosed => assert Enabled(s, CheckEmpty);
  }

  /** No interleaving after close is longer than the rank: the writer thread terminates. */
  lemma {:induction false} WriterTerminates<T>(s: Pipe<T>, schedule: seq<Action<T>>, origin: seq<T>)
    requires Inv(s, origin) && s.closed && Feasible(s, schedule)
    ensures Rank(After(s, schedule)) + |schedule| <= Rank(s)
    ensures After(s, schedule).closed
  {
    if schedule != [] {
      var init := schedule[..|schedule| - 1];
      forall k | 0 <= k < |init| ensures Enabled(After(s, init[..k]), init[k]) {
        assert init[..k] == schedule[..k];
      }
      WriterTerminates(s, init, origin);
      RunInv(s, init, origin);
      assert schedule[..|init|] == init;
      ClosedFalls(After(s, init), schedule[|init|], origin);
    }
  }
}
