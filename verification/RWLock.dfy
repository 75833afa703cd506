/** The writer-preferring readers-writer lock (packetql/server.py), for any number of threads. */
module RWLock {

  // ---- The lock's fields and critical sections ---------------------------

  datatype Counters = Counters(readers: int, writer: bool, writersWaiting: int)
  {
    /** The wait condition of `acquire_read`. */
    predicate ReadBlocked() {
      writer || writersWaiting > 0
    }

    /** The wait condition of `acquire_write`. */
    predicate WriteBlocked() {
      writer || readers > 0
    }

    // The fields after each critical section.

    function CheckedRead(): Counters {
      if ReadBlocked() then this else this.(readers := readers + 1)
    }

    function ReleasedRead(): Counters {
      this.(readers := readers - 1)
    }

    function RecheckedWrite(): Counters {
      if WriteBlocked() then this else this.(writersWaiting := writersWaiting - 1, writer := true)
    }

    function StartedWrite(): Counters {
      this.(writersWaiting := writersWaiting + 1).RecheckedWrite()
    }

    function ReleasedWrite(): Counters {
      this.(writer := false)
    }
  }

  /** Each method is one critical section: what runs between taking the condition's lock and waiting or returning. */
  class Lock {
    var readers: int
    var writer: bool
    var writersWaiting: int

    function Now(): Counters
      reads this
    {
      Counters(readers, writer, writersWaiting)
    }

    constructor ()
      ensures Now() == Counters(0, false, 0)
    {
      readers, writer, writersWaiting := 0, false, 0;
    }

    /** `acquire_read` up to its wait, or from a wake-up to the next wait. */
    method CheckRead() returns (entered: bool)
      modifies this
      ensures entered <==> !old(Now()).ReadBlocked()
      ensures Now() == old(Now()).CheckedRead()
    {
      if writer || writersWaiting > 0 { return false; }
      readers := readers + 1;
      entered := true;
    }

    method ReleaseRead() returns (notifyAll: bool)
      modifies this
      ensures Now() == old(Now()).ReleasedRead()
      ensures notifyAll <==> readers == 0
    {
      readers := readers - 1;
      notifyAll := readers == 0;
    }

    /** `acquire_write` up to its first wait. */
    method StartWrite() returns (entered: bool)
      modifies this
      ensures entered <==> !old(Now()).WriteBlocked()
      ensures Now() == old(Now()).StartedWrite()
    {
      writersWaiting := writersWaiting + 1;
      entered := RecheckWrite();
    }

    /** `acquire_write` from a wake-up to the next wait. */
    method RecheckWrite() returns (entered: bool)
      modifies this
      ensures entered <==> !old(Now()).WriteBlocked()
      ensures Now() == old(Now()).RecheckedWrite()
    {
      if writer || readers > 0 { return false; }
      writersWaiting := writersWaiting - 1;
      writer := true;
      entered := true;
    }

    /** `release_write`, which always notifies. */
    method ReleaseWrite()
      modifies this
      ensures Now() == old(Now()).ReleasedWrite()
    {
      writer := false;
    }
  }

  // ---- Threads -----------------------------------------------------------

  datatype Phase = Idle | ReadSleep | ReadWoken | Reading | WriteSleep | WriteWoken | Writing

  datatype State = State(c: Counters, phase: seq<Phase>)

  datatype Action = CheckRead(t: nat) | ReleaseRead(t: nat) | StartWrite(t: nat) | RecheckWrite(t: nat) | ReleaseWrite(t: nat)

  predicate Enabled(s: State, a: Action) {
    && a.t < |s.phase|
    && match a
       case CheckRead(t) => s.phase[t] in {Idle, ReadWoken}
       case ReleaseRead(t) => s.phase[t] == Reading
       case StartWrite(t) => s.phase[t] == Idle
       case RecheckWrite(t) => s.phase[t] == WriteWoken
       case ReleaseWrite(t) => s.phase[t] == Writing
  }

  function Wake(p: Phase): Phase {
    if p == ReadSleep then ReadWoken else if p == WriteSleep then WriteWoken else p
  }

  /** `notify_all` */
  function WakeAll(phase: seq<Phase>): (r: seq<Phase>)
    ensures |r| == |phase|
  {
    seq(|phase|, i requires 0 <= i < |phase| => Wake(phase[i]))
  }

  /** One critical section of one thread. */
  function Step(s: State, a: Action): (n: State)
    requires Enabled(s, a)
    ensures |n.phase| == |s.phase|
  {
    var c := s.c;
    match a
    case CheckRead(t) =>
      State(c.CheckedRead(), s.phase[t := if c.ReadBlocked() then ReadSleep else Reading])
    case ReleaseRead(t) =>
      var left := s.phase[t := Idle];
      State(c.ReleasedRead(), if c.ReleasedRead().readers == 0 then WakeAll(left) else left)
    case StartWrite(t) =>
      State(c.StartedWrite(), s.phase[t := if c.WriteBlocked() then WriteSleep else Writing])
    case RecheckWrite(t) =>
      State(c.RecheckedWrite(), s.phase[t := if c.WriteBlocked() then WriteSleep else Writing])
    case ReleaseWrite(t) =>
      State(c.ReleasedWrite(), WakeAll(s.phase[t := Idle]))
  }

  // ---- Counting phases ---------------------------------------------------

  function Count(phase: seq<Phase>, p: Phase): nat {
    if phase == [] then 0 else Count(phase[..|phase| - 1], p) + (if phase[|phase| - 1] == p then 1 else 0)
  }

  lemma {:induction false} CountUpdate(phase: seq<Phase>, t: nat, q: Phase, p: Phase)
    requires t < |phase|
    ensures Count(phase[t := q], p) == Count(phase, p) - (if phase[t] == p then 1 else 0) + (if q == p then 1 else 0)
  {
    var n := |phase| - 1;
    if t == n {
      assert phase[t := q][..n] == phase[..n];
    } else {
      assert phase[t := q][..n] == phase[..n][t := q];
      CountUpdate(phase[..n], t, q, p);
    }
  }

  lemma {:induction false} CountWake(phase: seq<Phase>)
    ensures var woken := WakeAll(phase);
      && Count(woken, Reading) == Count(phase, Reading) && Count(woken, Writing) == Count(phase, Writing)
      && Count(woken, WriteSleep) == 0
      && Count(woken, WriteWoken) == Count(phase, WriteWoken) + Count(phase, WriteSleep)
  {
    if phase != [] {
      var n := |phase| - 1;
      assert WakeAll(phase)[..n] == WakeAll(phase[..n]);
      CountWake(phase[..n]);
    }
  }

  lemma {:induction false} CountSome(phase: seq<Phase>, p: Phase)
    ensures Count(phase, p) > 0 <==> exists t :: 0 <= t < |phase| && phase[t] == p
  {
    if phase != [] {
      var n := |phase| - 1;
      CountSome(phase[..n], p);
      if t :| 0 <= t < n && phase[..n][t] == p { assert phase[t] == p; }
      if t :| 0 <= t < |phase| && phase[t] == p { assert t < n ==> phase[..n][t] == p; }
    }
  }

  // ---- The invariant -----------------------------------------------------

  /** The counters count the phases, and a writer excludes everybody. */
  ghost predicate Counted(s: State) {
    && s.c.readers == Count(s.phase, Reading)
    && s.c.writersWaiting == Count(s.phase, WriteSleep) + Count(s.phase, WriteWoken)
    && Count(s.phase, Writing) == (if s.c.writer then 1 else 0)
    && (s.c.writer ==> s.c.readers == 0)
  }

  /** No lost wake-up: whoever sleeps has a wait condition that is still true. */
  ghost predicate NoLostWakeUp(s: State) {
    && (forall t :: 0 <= t < |s.phase| && s.phase[t] == ReadSleep ==> s.c.ReadBlocked())
    && (forall t :: 0 <= t < |s.phase| && s.phase[t] == WriteSleep ==> s.c.WriteBlocked())
  }

  ghost predicate Inv(s: State) {
    Counted(s) && NoLostWakeUp(s)
  }

  function Start(threads: nat): State {
    State(Counters(0, false, 0), seq(threads, _ => Idle))
  }

  lemma {:induction false} StartInv(threads: nat)
    ensures Inv(Start(threads))
  {
    StartCount(threads, Reading);
    StartCount(threads, Writing);
    StartCount(threads, WriteSleep);
    StartCount(threads, WriteWoken);
  }

  lemma {:induction false} StartCount(threads: nat, p: Phase)
    requires p != Idle
    ensures Count(Start(threads).phase, p) == 0
  {
    if threads != 0 {
      assert Start(threads).phase[..threads - 1] == Start(threads - 1).phase;
      StartCount(threads - 1, p);
    }
  }

  lemma CountsAfter(phase: seq<Phase>, t: nat, q: Phase)
    requires t < |phase|
    ensures forall p :: p in {Reading, Writing, WriteSleep, WriteWoken} ==>
      Count(phase[t := q], p) == Count(phase, p) - (if phase[t] == p then 1 else 0) + (if q == p then 1 else 0)
  {
    CountUpdate(phase, t, q, Reading);
    CountUpdate(phase, t, q, Writing);
    CountUpdate(phase, t, q, WriteSleep);
    CountUpdate(phase, t, q, WriteWoken);
  }

  lemma AcquireCounts(s: State, a: Action)
    requires Counted(s) && Enabled(s, a) && !a.ReleaseRead? && !a.ReleaseWrite?
    ensures Counted(Step(s, a))
  {
    match a
    case CheckRead(t) =>
      CountsAfter(s.phase, t, if s.c.ReadBlocked() then ReadSleep else Reading);
    case StartWrite(t) =>
      CountsAfter(s.phase, t, if s.c.WriteBlocked() then WriteSleep else Writing);
    case RecheckWrite(t) =>
      CountsAfter(s.phase, t, if s.c.WriteBlocked() then WriteSleep else Writing);
  }

  lemma ReleaseCounts(s: State, a: Action)
    requires Counted(s) && Enabled(s, a) && (a.ReleaseRead? || a.ReleaseWrite?)
    ensures Counted(Step(s, a))
  {
    CountSome(s.phase, s.phase[a.t]);
    CountsAfter(s.phase, a.t, Idle);
    CountWake(s.phase[a.t := Idle]);
  }

  lemma StepLosesNoWakeUp(s: State, a: Action)
    requires Inv(s) && Enabled(s, a)
    ensures NoLostWakeUp(Step(s, a))
  {
    CountSome(s.phase, Reading);
    hide Count;
  }

  /** Every critical section of every thread keeps the invariant. */
  lemma StepKeepsInv(s: State, a: Action)
    requires Inv(s) && Enabled(s, a)
    ensures Inv(Step(s, a))
  {
    if a.ReleaseRead? || a.ReleaseWrite? { ReleaseCounts(s, a); } else { AcquireCounts(s, a); }
    StepLosesNoWakeUp(s, a);
  }

  // ---- Runs --------------------------------------------------------------

  /** The state after a schedule of critical sections. */
  function After(s: State, schedule: seq<Action>): (n: State)
    ensures |n.phase| == |s.phase|
  {
    if schedule == [] then s
    else
      var m, a := After(s, schedule[..|schedule| - 1]), schedule[|schedule| - 1];
      if Enabled(m, a) then Step(m, a) else m
  }

  /** Every section in the schedule is one its thread can run at that point. */
  ghost predicate Feasible(s: State, schedule: seq<Action>) {
    forall k :: 0 <= k < |schedule| ==> Enabled(After(s, schedule[..k]), schedule[k])
  }

  lemma AfterStep(s: State, schedule: seq<Action>, k: nat)
    requires Feasible(s, schedule) && k < |schedule|
    ensures Enabled(After(s, schedule[..k]), schedule[k])
    ensures After(s, schedule[..k + 1]) == Step(After(s, schedule[..k]), schedule[k])
  {
    assert schedule[..k + 1][..k] == schedule[..k];
  }

  lemma {:induction false} RunInv(s: State, schedule: seq<Action>, k: nat)
    requires Inv(s) && Feasible(s, schedule) && k <= |schedule|
    ensures Inv(After(s, schedule[..k]))
  {
    if k != 0 {
      RunInv(s, schedule, k - 1);
      AfterStep(s, schedule, k - 1);
      StepKeepsInv(After(s, schedule[..k - 1]), schedule[k - 1]);
    }
  }

  /** Mutual exclusion at every point of every run of any number of threads. */
  lemma Exclusion(threads: nat, schedule: seq<Action>, t: nat, u: nat)
    requires Feasible(Start(threads), schedule) && t < threads && u < threads && t != u
    ensures var phase := After(Start(threads), schedule).phase;
      phase[t] == Writing ==> phase[u] != Writing && phase[u] != Reading
  {
    StartInv(threads);
    RunInv(Start(threads), schedule, |schedule|);
    assert schedule[..|schedule|] == schedule;
    var phase := After(Start(threads), schedule).phase;
    CountSome(phase, Reading);
    CountSome(phase, Writing);
    if phase[t] == Writing && phase[u] == Writing { TwoWriters(phase, t, u); }
  }

  lemma {:induction false} TwoWriters(phase: seq<Phase>, t: nat, u: nat)
    requires t < |phase| && u < |phase| && t != u && phase[t] == Writing && phase[u] == Writing
    ensures Count(phase, Writing) >= 2
  {
    CountUpdate(phase, t, Idle, Writing);
    var other := phase[t := Idle];
    CountSome(other, Writing);
    assert other[u] == Writing;
  }

  /** While any thread waits or holds the lock, some thread can leave, or go on after a wake-up. */
  lemma Progress(s: State, t: nat)
    requires Inv(s) && t < |s.phase| && s.phase[t] != Idle
    ensures exists u :: 0 <= u < |s.phase| && s.phase[u] in {Reading, Writing, ReadWoken, WriteWoken}
  {
    CountSome(s.phase, Reading);
    CountSome(s.phase, Writing);
    CountSome(s.phase, WriteSleep);
    CountSome(s.phase, WriteWoken);
  }

  // ---- Writers are preferred ---------------------------------------------

  /** While a writer waits, the reader count does not rise. */
  lemma ReadersDoNotRise(s: State, a: Action)
    requires Inv(s) && Enabled(s, a) && s.c.writersWaiting > 0
    ensures Step(s, a).c.readers <= s.c.readers
  {
  }

  /** Over any stretch of a run in which a writer keeps waiting, the reader count only falls. */
  lemma {:induction false} ReadersFallOverRun(s: State, schedule: seq<Action>, k: nat)
    requires Inv(s) && Feasible(s, schedule) && k <= |schedule|
    requires forall j :: 0 <= j < k ==> After(s, schedule[..j]).c.writersWaiting > 0
    ensures After(s, schedule[..k]).c.readers <= s.c.readers
  {
    if k != 0 {
      ReadersFallOverRun(s, schedule, k - 1);
      RunInv(s, schedule, k - 1);
      AfterStep(s, schedule, k - 1);
      ReadersDoNotRise(After(s, schedule[..k - 1]), schedule[k - 1]);
    }
  }

  /** Steps a phase can still take before some holder leaves. */
  function Potential(p: Phase): nat {
    match p
    case Idle => 2
    case ReadWoken => 1
    case WriteWoken => 1
    case _ => 0
  }

  /** A weight of phases, summed over the threads. */
  function Total(phase: seq<Phase>, weight: Phase -> nat): nat {
    if phase == [] then 0 else Total(phase[..|phase| - 1], weight) + weight(phase[|phase| - 1])
  }

  lemma {:induction false} TotalUpdate(phase: seq<Phase>, t: nat, q: Phase, weight: Phase -> nat)
    requires t < |phase|
    ensures Total(phase[t := q], weight) == Total(phase, weight) - weight(phase[t]) + weight(q)
  {
    var n := |phase| - 1;
    if t == n {
      assert phase[t := q][..n] == phase[..n];
    } else {
      assert phase[t := q][..n] == phase[..n][t := q];
      TotalUpdate(phase[..n], t, q, weight);
    }
  }

  lemma {:induction false} PotentialBound(phase: seq<Phase>)
    ensures Total(phase, Potential) <= 2 * |phase|
  {
    if phase != [] { PotentialBound(phase[..|phase| - 1]); }
  }

  /** What is left until a waiting writer must have entered. */
  ghost function Rank(s: State): nat {
    (Count(s.phase, Reading) + Count(s.phase, Writing)) * (2 * |s.phase| + 1) + Total(s.phase, Potential)
  }

  predicate WriterEnters(s: State, n: State) {
    !s.c.writer && n.c.writer
  }

  lemma FewerHolders(h: nat, h': nat, n: nat, p: nat, p': nat)
    requires h' + 1 == h && p' <= 2 * n
    ensures h' * (2 * n + 1) + p' < h * (2 * n + 1) + p
  {
    assert h * (2 * n + 1) == h' * (2 * n + 1) + (2 * n + 1);
  }

  lemma FellAsleep(s: State, t: nat, q: Phase, c: Counters)
    requires t < |s.phase| && s.phase[t] in {Idle, ReadWoken, WriteWoken} && q in {ReadSleep, WriteSleep}
    ensures Rank(State(c, s.phase[t := q])) < Rank(s)
  {
    CountUpdate(s.phase, t, q, Reading);
    CountUpdate(s.phase, t, q, Writing);
    TotalUpdate(s.phase, t, q, Potential);
  }

  /** While a writer waits, every step brings the entry of a writer nearer. */
  lemma RankFalls(s: State, a: Action)
    requires Inv(s) && Enabled(s, a) && s.c.writersWaiting > 0
    ensures WriterEnters(s, Step(s, a)) || (Rank(Step(s, a)) < Rank(s) && Step(s, a).c.writersWaiting > 0)
  {
    hide Rank;
    var c := Step(s, a).c;
    match a
    case CheckRead(t) => FellAsleep(s, t, ReadSleep, c);
    case StartWrite(t) => FellAsleep(s, t, WriteSleep, c);
    case RecheckWrite(t) => FellAsleep(s, t, WriteSleep, c);
    case ReleaseRead(t) => Released(s, t);
    case ReleaseWrite(t) => Released(s, t);
  }

  lemma OneHolderLess(s: State, n: State)
    requires |n.phase| == |s.phase|
    requires Count(n.phase, Reading) + Count(n.phase, Writing) + 1 == Count(s.phase, Reading) + Count(s.phase, Writing)
    ensures Rank(n) < Rank(s)
  {
    PotentialBound(n.phase);
    hide Count, Total;
    FewerHolders(Count(s.phase, Reading) + Count(s.phase, Writing), Count(n.phase, Reading) + Count(n.phase, Writing),
                 |s.phase|, Total(s.phase, Potential), Total(n.phase, Potential));
  }

  lemma LeaverCounts(phase: seq<Phase>, t: nat)
    requires t < |phase| && phase[t] in {Reading, Writing}
    ensures var left := phase[t := Idle];
      && Count(left, Reading) + Count(left, Writing) + 1 == Count(phase, Reading) + Count(phase, Writing)
      && Count(WakeAll(left), Reading) + Count(WakeAll(left), Writing) == Count(left, Reading) + Count(left, Writing)
  {
    CountsAfter(phase, t, Idle);
    CountWake(phase[t := Idle]);
  }

  lemma Released(s: State, t: nat)
    requires Inv(s) && t < |s.phase| && s.phase[t] in {Reading, Writing}
    ensures var a := if s.phase[t] == Reading then ReleaseRead(t) else ReleaseWrite(t);
      Rank(Step(s, a)) < Rank(s)
  {
    var n := Step(s, if s.phase[t] == Reading then ReleaseRead(t) else ReleaseWrite(t));
    LeaverCounts(s.phase, t);
    hide Rank, Count, WakeAll;
    OneHolderLess(s, n);
  }

  /** The k-th section of a schedule lets a writer in. */
  ghost predicate EntersAt(s: State, schedule: seq<Action>, k: nat)
    requires k < |schedule|
  {
    WriterEnters(After(s, schedule[..k]), After(s, schedule[..k + 1]))
  }

  lemma {:induction false} RankAlongRun(s: State, schedule: seq<Action>, k: nat)
    requires Inv(s) && s.c.writersWaiting > 0 && Feasible(s, schedule) && k <= |schedule|
    requires forall j :: 0 <= j < k ==> !EntersAt(s, schedule, j)
    ensures Rank(After(s, schedule[..k])) + k <= Rank(s)
    ensures After(s, schedule[..k]).c.writersWaiting > 0
  {
    hide Rank;
    if k != 0 {
      RankAlongRun(s, schedule, k - 1);
      RunInv(s, schedule, k - 1);
      AfterStep(s, schedule, k - 1);
      assert !EntersAt(s, schedule, k - 1);
      RankFalls(After(s, schedule[..k - 1]), schedule[k - 1]);
    }
  }

  /** Once a writer waits, every run of more steps than the rank contains the entry of a writer. */
  lemma WriterGetsIn(s: State, schedule: seq<Action>)
    requires Inv(s) && s.c.writersWaiting > 0 && Feasible(s, schedule) && |schedule| > Rank(s)
    ensures exists k :: 0 <= k < |schedule| && EntersAt(s, schedule, k)
  {
    if forall k :: 0 <= k < |schedule| ==> !EntersAt(s, schedule, k) {
      RankAlongRun(s, schedule, |schedule|);
      assert false;
    }
  }

  /** The rank is bounded by the number of threads alone. */
  lemma RankBound(s: State)
    requires Inv(s)
    ensures Rank(s) <= |s.phase| * (2 * |s.phase| + 1) + 2 * |s.phase|
  {
    PotentialBound(s.phase);
    HolderBound(s.phase);
    hide Count, Total;
    MoreHolders(Count(s.phase, Reading) + Count(s.phase, Writing), |s.phase|);
  }

  lemma MoreHolders(h: nat, n: nat)
    requires h <= n
    ensures h * (2 * n + 1) <= n * (2 * n + 1)
  {
  }

  lemma {:induction false} HolderBound(phase: seq<Phase>)
    ensures Count(phase, Reading) + Count(phase, Writing) <= |phase|
  {
    if phase != [] { HolderBound(phase[..|phase| - 1]); }
  }
}
