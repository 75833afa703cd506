/** What the lock gives one particular thread that waits (packetql/server.py): who can keep it out, and for how long. */
module Waiters {
  import opened RWLock

  // ---- Looking in vain ---------------------------------------------------

  predicate Woken(p: Phase) {
    p in {ReadWoken, WriteWoken}
  }

  /** A thread that was woken looks again. */
  predicate LooksAgain(s: State, a: Action, t: nat)
    requires Enabled(s, a) && t < |s.phase|
  {
    a.t == t && Woken(s.phase[t])
  }

  /** ... and has to sleep again. */
  predicate SleepsAgain(s: State, a: Action, t: nat)
    requires Enabled(s, a) && t < |s.phase|
  {
    LooksAgain(s, a, t) && Step(s, a).phase[t] in {ReadSleep, WriteSleep}
  }

  /** How often a thread looks again in vain in a run. */
  function VainLooks(s: State, schedule: seq<Action>, t: nat): nat
    requires t < |s.phase|
  {
    if schedule == [] then 0
    else
      var n := |schedule| - 1;
      var m := After(s, schedule[..n]);
      VainLooks(s, schedule[..n], t) + if Enabled(m, schedule[n]) && SleepsAgain(m, schedule[n], t) then 1 else 0
  }

  /** Writers that arrive in a run. */
  function Arrivals(schedule: seq<Action>): nat {
    if schedule == [] then 0
    else Arrivals(schedule[..|schedule| - 1]) + if schedule[|schedule| - 1].StartWrite? then 1 else 0
  }

  /** Wake-ups a thread may still get before another writer arrives: one from each writer that waits or holds, one
      from the last reader that leaves before them, and the one it has had already. */
  function WakeUps(s: State, t: nat): int
    requires t < |s.phase|
  {
    s.c.writersWaiting + (if s.c.writer then 1 else 0) + (if s.c.readers > 0 && s.c.writersWaiting > 0 then 1 else 0)
    + (if Woken(s.phase[t]) then 1 else 0)
  }

  /** Looking in vain uses up a wake-up, and only an arriving writer makes new ones possible, at most two. */
  lemma VainLookPays(s: State, a: Action, t: nat)
    requires Inv(s) && Enabled(s, a) && t < |s.phase|
    ensures WakeUps(Step(s, a), t) + (if SleepsAgain(s, a, t) then 1 else 0)
         <= WakeUps(s, t) + (if a.StartWrite? then 2 else 0)
  {
    CountSome(s.phase, Writing);
    CountSome(s.phase, Reading);
    CountSome(s.phase, WriteWoken);
    CountSome(s.phase, WriteSleep);
    hide Count;
  }

  /** Over any run a thread is put back to sleep at most about twice for every writer. */
  lemma {:induction false} VainLooksBound(s: State, schedule: seq<Action>, t: nat)
    requires Inv(s) && Feasible(s, schedule) && t < |s.phase|
    ensures VainLooks(s, schedule, t) + WakeUps(After(s, schedule), t) <= WakeUps(s, t) + 2 * Arrivals(schedule)
    ensures VainLooks(s, schedule, t) <= 2 * (s.c.writersWaiting + (if s.c.writer then 1 else 0) + Arrivals(schedule)) + 1
  {
    hide WakeUps;
    if schedule != [] {
      var n := |schedule| - 1;
      FeasiblePrefix(s, schedule, n);
      VainLooksBound(s, schedule[..n], t);
      RunInv(s, schedule, n);
      AfterStep(s, schedule, n);
      VainLookPays(After(s, schedule[..n]), schedule[n], t);
      assert schedule[..n + 1] == schedule;
    }
    RunInv(s, schedule, |schedule|);
    assert schedule[..|schedule|] == schedule;
    WakeUpsFew(s, t);
    WakeUpsFew(After(s, schedule), t);
  }

  lemma WakeUpsFew(s: State, t: nat)
    requires Inv(s) && t < |s.phase|
    ensures 0 <= WakeUps(s, t) <= 2 * (s.c.writersWaiting + (if s.c.writer then 1 else 0)) + 1
  {
    hide Count;
  }

  lemma FeasiblePrefix(s: State, schedule: seq<Action>, n: nat)
    requires Feasible(s, schedule) && n <= |schedule|
    ensures Feasible(s, schedule[..n])
  {
    forall k | 0 <= k < n ensures Enabled(After(s, schedule[..n][..k]), schedule[..n][k]) {
      assert schedule[..n][..k] == schedule[..k];
    }
  }

  // ---- How long a waiting thread can be kept out -------------------------

  predicate WaitsToRead(p: Phase) {
    p in {ReadSleep, ReadWoken}
  }

  predicate WaitsToWrite(p: Phase) {
    p in {WriteSleep, WriteWoken}
  }

  /** The k-th section of a run lets a thread in that was woken. */
  ghost predicate GetsInAt(s: State, schedule: seq<Action>, t: nat, k: nat)
    requires k < |schedule| && t < |s.phase|
  {
    Woken(After(s, schedule[..k]).phase[t]) && After(s, schedule[..k + 1]).phase[t] in {Reading, Writing}
  }

  /** A woken reader that finds the way free whenever it looks. */
  predicate FreeToRead(s: State, t: nat)
    requires t < |s.phase|
  {
    s.phase[t] == ReadWoken && !s.c.ReadBlocked()
  }

  /** What a thread can still do, among n threads, while no reader can enter: an arriving reader falls asleep; a waiting
      writer enters once; whoever holds leaves once, and may wake everybody. */
  function Left(n: nat): Phase -> nat {
    (p: Phase) =>
      match p
      case Idle => 1
      case ReadSleep => 0
      case ReadWoken => 1
      case WriteWoken => n + 3
      case _ => n + 2
  }

  lemma {:induction false} WakeLeft(phase: seq<Phase>, n: nat)
    ensures Total(WakeAll(phase), Left(n)) <= Total(phase, Left(n)) + |phase|
  {
    if phase != [] {
      var m := |phase| - 1;
      assert WakeAll(phase)[..m] == WakeAll(phase[..m]);
      WakeLeft(phase[..m], n);
    }
  }

  lemma {:induction false} LeftBound(phase: seq<Phase>, n: nat)
    ensures Total(phase, Left(n)) <= |phase| * (n + 3)
  {
    if phase != [] {
      var m := |phase| - 1;
      LeftBound(phase[..m], n);
      assert |phase| * (n + 3) == m * (n + 3) + (n + 3);
    }
  }

  /** While a writer waits or holds, every section leaves less to do, unless it brings another writer. */
  lemma LeftFalls(s: State, a: Action)
    requires Inv(s) && Enabled(s, a) && s.c.ReadBlocked()
    ensures var n := |s.phase|;
      Total(Step(s, a).phase, Left(n)) + 1 <= Total(s.phase, Left(n)) + (if a.StartWrite? then n + 2 else 0)
  {
    var n := |s.phase|;
    hide Total;
    match a
    case CheckRead(t) => TotalUpdate(s.phase, t, ReadSleep, Left(n));
    case StartWrite(t) => TotalUpdate(s.phase, t, if s.c.WriteBlocked() then WriteSleep else Writing, Left(n));
    case RecheckWrite(t) => TotalUpdate(s.phase, t, if s.c.WriteBlocked() then WriteSleep else Writing, Left(n));
    case ReleaseRead(t) => LeaverLeft(s.phase, t);
    case ReleaseWrite(t) => LeaverLeft(s.phase, t);
  }

  lemma LeaverLeft(phase: seq<Phase>, t: nat)
    requires t < |phase| && phase[t] in {Reading, Writing}
    ensures var n, left := |phase|, phase[t := Idle];
      && Total(left, Left(n)) + 1 <= Total(phase, Left(n))
      && Total(WakeAll(left), Left(n)) + 1 <= Total(phase, Left(n))
  {
    TotalUpdate(phase, t, Idle, Left(|phase|));
    WakeLeft(phase[t := Idle], |phase|);
  }

  /** A waiting thread goes on waiting until a look of its own lets it in; while it waits, readers are blocked, or it is a
      reader that may go. */
  lemma StillWaits(s: State, a: Action, t: nat)
    requires Inv(s) && Enabled(s, a) && t < |s.phase|
    ensures WaitsToRead(s.phase[t]) ==> WaitsToRead(Step(s, a).phase[t]) || (Woken(s.phase[t]) && Step(s, a).phase[t] == Reading)
    ensures WaitsToWrite(s.phase[t]) ==> WaitsToWrite(Step(s, a).phase[t]) || (Woken(s.phase[t]) && Step(s, a).phase[t] == Writing)
  {
  }

  lemma BlockedOrFree(s: State, t: nat)
    requires Inv(s) && t < |s.phase|
    ensures WaitsToWrite(s.phase[t]) ==> s.c.ReadBlocked()
    ensures WaitsToRead(s.phase[t]) ==> s.c.ReadBlocked() || FreeToRead(s, t)
  {
    CountSome(s.phase, WriteSleep);
    CountSome(s.phase, WriteWoken);
  }

  /** How many sections can go by, among n threads, when so many writers arrive. */
  ghost function Patience(s: State, arrivals: nat): nat {
    Total(s.phase, Left(|s.phase|)) + (|s.phase| + 2) * arrivals
  }

  lemma {:induction false} KeptOut(s: State, schedule: seq<Action>, t: nat, k: nat)
    requires Inv(s) && Feasible(s, schedule) && t < |s.phase| && k <= |schedule|
    requires WaitsToRead(s.phase[t]) || WaitsToWrite(s.phase[t])
    requires forall j :: 0 <= j < k ==> !GetsInAt(s, schedule, t, j)
    requires WaitsToRead(s.phase[t]) ==> forall j :: 0 <= j < k ==> !FreeToRead(After(s, schedule[..j]), t)
    ensures var m := After(s, schedule[..k]);
      && (WaitsToRead(s.phase[t]) ==> WaitsToRead(m.phase[t]))
      && (WaitsToWrite(s.phase[t]) ==> WaitsToWrite(m.phase[t]))
      && k + Total(m.phase, Left(|s.phase|)) <= Patience(s, Arrivals(schedule[..k]))
  {
    hide Total, Step, Enabled, Inv;
    if k != 0 {
      var m, a := After(s, schedule[..k - 1]), schedule[k - 1];
      KeptOut(s, schedule, t, k - 1);
      RunInv(s, schedule, k - 1);
      AfterStep(s, schedule, k - 1);
      StillWaits(m, a, t);
      assert !GetsInAt(s, schedule, t, k - 1);
      assert WaitsToRead(s.phase[t]) ==> !FreeToRead(m, t);
      BlockedOrFree(m, t);
      LeftFalls(m, a);
      assert schedule[..k][..k - 1] == schedule[..k - 1];
      OneArrivalMore(|s.phase|, Arrivals(schedule[..k - 1]));
    }
  }

  lemma OneArrivalMore(n: nat, arrivals: nat)
    ensures (n + 2) * (arrivals + 1) == (n + 2) * arrivals + (n + 2)
  {
  }

  /** Only arriving writers keep a thread waiting: in every run with more sections than its patience, a waiting writer
      gets in, and a waiting reader gets in or is woken and free to go in as soon as it looks. */
  lemma WaiterGetsIn(s: State, schedule: seq<Action>, t: nat)
    requires Inv(s) && Feasible(s, schedule) && t < |s.phase|
    requires WaitsToRead(s.phase[t]) || WaitsToWrite(s.phase[t])
    requires |schedule| > Patience(s, Arrivals(schedule))
    ensures WaitsToWrite(s.phase[t]) ==> exists k :: 0 <= k < |schedule| && GetsInAt(s, schedule, t, k)
    ensures exists k :: 0 <= k < |schedule| && (GetsInAt(s, schedule, t, k) || FreeToRead(After(s, schedule[..k]), t))
  {
    hide Patience, FreeToRead;
    var n := |schedule|;
    assert schedule[..n] == schedule;
    if forall k :: 0 <= k < n ==> !GetsInAt(s, schedule, t, k) {
      if WaitsToRead(s.phase[t]) ==> forall k :: 0 <= k < n ==> !FreeToRead(After(s, schedule[..k]), t) {
        KeptOut(s, schedule, t, n);
        assert false;
      }
    }
  }

  /** The patience depends on the number of threads and of arriving writers alone. */
  lemma PatienceBound(s: State, arrivals: nat)
    ensures Patience(s, arrivals) <= |s.phase| * (|s.phase| + 3) + (|s.phase| + 2) * arrivals
  {
    LeftBound(s.phase, |s.phase|);
  }

  /** No writer arrives. */
  predicate Calm(schedule: seq<Action>) {
    forall a :: a in schedule ==> !a.StartWrite?
  }

  lemma {:induction false} CalmArrivals(schedule: seq<Action>)
    requires Calm(schedule)
    ensures Arrivals(schedule) == 0
  {
    if schedule != [] { CalmArrivals(schedule[..|schedule| - 1]); }
  }

  /** While no writer arrives, a reader that may go goes on being free to until it goes. */
  lemma {:induction false} StaysFree(s: State, schedule: seq<Action>, t: nat, j: nat, k: nat)
    requires Inv(s) && Feasible(s, schedule) && Calm(schedule) && t < |s.phase| && j <= k <= |schedule|
    requires FreeToRead(After(s, schedule[..j]), t)
    requires forall i :: 0 <= i < k ==> !GetsInAt(s, schedule, t, i)
    ensures FreeToRead(After(s, schedule[..k]), t)
    decreases k
  {
    if j < k {
      StaysFree(s, schedule, t, j, k - 1);
      AfterStep(s, schedule, k - 1);
      RunInv(s, schedule, k - 1);
      assert !GetsInAt(s, schedule, t, k - 1);
      assert schedule[k - 1] in schedule;
      StaysFreeOnce(After(s, schedule[..k - 1]), schedule[k - 1], t);
    }
  }

  lemma StaysFreeOnce(s: State, a: Action, t: nat)
    requires Inv(s) && Enabled(s, a) && !a.StartWrite? && t < |s.phase| && FreeToRead(s, t)
    ensures FreeToRead(Step(s, a), t) || Step(s, a).phase[t] == Reading
  {
    CountSome(s.phase, WriteWoken);
    hide Count;
  }

  /** When no writer arrives, any thread that looks after its patience has run out gets in with that look, if not
      before, whatever the other threads do. */
  lemma NextLookSucceeds(s: State, schedule: seq<Action>, t: nat, k: nat)
    requires Inv(s) && Feasible(s, schedule) && Calm(schedule) && t < |s.phase|
    requires WaitsToRead(s.phase[t]) || WaitsToWrite(s.phase[t])
    requires Patience(s, 0) < k < |schedule| && schedule[k].t == t
    ensures exists j :: 0 <= j <= k && GetsInAt(s, schedule, t, j)
  {
    hide Patience, FreeToRead, Inv;
    if forall i :: 0 <= i < k ==> !GetsInAt(s, schedule, t, i) {
      forall a | a in schedule[..k] ensures a in schedule { }
      CalmArrivals(schedule[..k]);
      var i := FreeAt(s, schedule, t, k);
      StaysFree(s, schedule, t, i, k);
      AfterStep(s, schedule, k);
      LookOfFree(After(s, schedule[..k]), schedule[k], t);
      assert GetsInAt(s, schedule, t, k);
    }
  }

  lemma FreeAt(s: State, schedule: seq<Action>, t: nat, k: nat) returns (i: nat)
    requires Inv(s) && Feasible(s, schedule) && t < |s.phase|
    requires WaitsToRead(s.phase[t]) || WaitsToWrite(s.phase[t])
    requires k <= |schedule| && Arrivals(schedule[..k]) == 0 && Patience(s, 0) < k
    requires forall j :: 0 <= j < k ==> !GetsInAt(s, schedule, t, j)
    ensures i < k && FreeToRead(After(s, schedule[..i]), t)
  {
    hide Patience, FreeToRead, Inv;
    if WaitsToRead(s.phase[t]) ==> forall j :: 0 <= j < k ==> !FreeToRead(After(s, schedule[..j]), t) {
      KeptOut(s, schedule, t, k);
      assert false;
    }
    i :| 0 <= i < k && FreeToRead(After(s, schedule[..i]), t);
  }

  lemma LookOfFree(s: State, a: Action, t: nat)
    requires Enabled(s, a) && a.t == t && FreeToRead(s, t)
    ensures s.phase[t] == ReadWoken && Step(s, a).phase[t] == Reading
  {
  }

  // ---- Runs that keep a thread out ---------------------------------------

  /** A writer takes the lock again before the woken thread looks, n times; the other thread reads or writes. */
  function Laps(n: nat, reader: bool): seq<Action> {
    if n == 0 then [StartWrite(1), if reader then CheckRead(0) else StartWrite(0)]
    else Laps(n - 1, reader) + [ReleaseWrite(1)] + [StartWrite(1)] + [if reader then CheckRead(0) else RecheckWrite(0)]
  }

  function Held(reader: bool): State {
    State(Counters(0, true, if reader then 0 else 1), [if reader then ReadSleep else WriteSleep, Writing])
  }

  lemma OneMore(s: State, schedule: seq<Action>, a: Action, t: nat)
    requires Feasible(s, schedule) && Enabled(After(s, schedule), a) && t < |s.phase|
    ensures Feasible(s, schedule + [a])
    ensures After(s, schedule + [a]) == Step(After(s, schedule), a)
    ensures VainLooks(s, schedule + [a], t)
         == VainLooks(s, schedule, t) + if SleepsAgain(After(s, schedule), a, t) then 1 else 0
    ensures Arrivals(schedule + [a]) == Arrivals(schedule) + if a.StartWrite? then 1 else 0
  {
    var longer := schedule + [a];
    assert longer[..|schedule|] == schedule;
    forall k | 0 <= k < |longer| ensures Enabled(After(s, longer[..k]), longer[k]) {
      assert longer[..k] == schedule[..k];
      if k == |schedule| { assert longer[..k] == schedule; }
    }
  }

  lemma LapSteps(reader: bool)
    ensures var w, woken, look := if reader then 0 else 1, if reader then ReadWoken else WriteWoken,
                                  if reader then CheckRead(0) else RecheckWrite(0);
      var free, again := State(Counters(0, false, w), [woken, Idle]), State(Counters(0, true, w), [woken, Writing]);
      && Enabled(Held(reader), ReleaseWrite(1)) && Step(Held(reader), ReleaseWrite(1)) == free
      && Enabled(free, StartWrite(1)) && Step(free, StartWrite(1)) == again
      && Enabled(again, look) && SleepsAgain(again, look, 0) && Step(again, look) == Held(reader)
  {
    var asleep, woken := if reader then ReadSleep else WriteSleep, if reader then ReadWoken else WriteWoken;
    assert [asleep, Writing][1 := Idle] == [asleep, Idle];
    assert WakeAll([asleep, Idle]) == [woken, Idle];
    assert [woken, Idle][1 := Writing] == [woken, Writing];
    assert [woken, Writing][0 := asleep] == [asleep, Writing];
  }

  lemma FirstLap(reader: bool)
    ensures Feasible(Start(2), Laps(0, reader)) && After(Start(2), Laps(0, reader)) == Held(reader)
    ensures VainLooks(Start(2), Laps(0, reader), 0) == 0 && Arrivals(Laps(0, reader)) == if reader then 1 else 2
  {
    var first := if reader then CheckRead(0) else StartWrite(0);
    assert [] + [StartWrite(1)] + [first] == Laps(0, reader);
    hide Step, Enabled, After, Feasible, VainLooks, Arrivals, Laps, Start;
    FirstSteps(reader);
    NoSteps(Start(2));
    OneMore(Start(2), [], StartWrite(1), 0);
    OneMore(Start(2), [] + [StartWrite(1)], first, 0);
  }

  lemma NoSteps(s: State)
    requires |s.phase| > 0
    ensures Feasible(s, []) && After(s, []) == s && VainLooks(s, [], 0) == 0 && Arrivals([]) == 0
  {
  }

  lemma FirstSteps(reader: bool)
    ensures var s, first := Start(2), if reader then CheckRead(0) else StartWrite(0);
      var m := State(Counters(0, true, 0), [Idle, Writing]);
      && |s.phase| == 2
      && Enabled(s, StartWrite(1)) && !SleepsAgain(s, StartWrite(1), 0) && Step(s, StartWrite(1)) == m
      && Enabled(m, first) && !SleepsAgain(m, first, 0) && Step(m, first) == Held(reader)
  {
    var asleep := if reader then ReadSleep else WriteSleep;
    assert Start(2).phase == [Idle, Idle];
    assert [Idle, Idle][1 := Writing] == [Idle, Writing];
    assert [Idle, Writing][0 := asleep] == [asleep, Writing];
  }

  /** Writers that keep arriving do starve a thread, a waiting writer like a reader: for every n there is a run from
      the start in which n + 1 other writers arrive and the same thread is put back to sleep n times. */
  lemma {:induction false} WaiterCanStarve(n: nat, reader: bool)
    ensures Feasible(Start(2), Laps(n, reader)) && After(Start(2), Laps(n, reader)) == Held(reader)
    ensures VainLooks(Start(2), Laps(n, reader), 0) == n
    ensures Arrivals(Laps(n, reader)) == if reader then n + 1 else n + 2
  {
    hide Step, Enabled, After, Feasible, VainLooks, Arrivals;
    if n == 0 {
      FirstLap(reader);
    } else {
      WaiterCanStarve(n - 1, reader);
      OneLap(Laps(n - 1, reader), reader);
    }
  }

  lemma OneLap(schedule: seq<Action>, reader: bool)
    requires Feasible(Start(2), schedule) && After(Start(2), schedule) == Held(reader)
    ensures var longer := schedule + [ReleaseWrite(1)] + [StartWrite(1)] + [if reader then CheckRead(0) else RecheckWrite(0)];
      && Feasible(Start(2), longer) && After(Start(2), longer) == Held(reader)
      && VainLooks(Start(2), longer, 0) == VainLooks(Start(2), schedule, 0) + 1
      && Arrivals(longer) == Arrivals(schedule) + 1
  {
    LapSteps(reader);
    hide Step, Enabled, After, Feasible, VainLooks, Arrivals;
    var s, one := Start(2), schedule + [ReleaseWrite(1)];
    OneMore(s, schedule, ReleaseWrite(1), 0);
    OneMore(s, one, StartWrite(1), 0);
    OneMore(s, one + [StartWrite(1)], if reader then CheckRead(0) else RecheckWrite(0), 0);
  }

  // ---- Runs that let it in -----------------------------------------------

  /** The lock is free; the reader has not looked yet, or the writer has been and gone. */
  function Freed(reader: bool): State {
    State(Counters(0, false, 0), [if reader then ReadWoken else Idle, Idle])
  }

  /** The holder leaves, a waiting writer enters and leaves, and then a reader comes and goes n times. */
  function Visits(n: nat, reader: bool): seq<Action> {
    if n == 0 then if reader then [ReleaseWrite(1)] else [ReleaseWrite(1), RecheckWrite(0), ReleaseWrite(0)]
    else Visits(n - 1, reader) + [CheckRead(1)] + [ReleaseRead(1)]
  }

  lemma WriterVisit()
    ensures var woken, inside := State(Counters(0, false, 1), [WriteWoken, Idle]), State(Counters(0, true, 0), [Writing, Idle]);
      && Enabled(Held(false), ReleaseWrite(1)) && Step(Held(false), ReleaseWrite(1)) == woken
      && Enabled(woken, RecheckWrite(0)) && Step(woken, RecheckWrite(0)) == inside
      && Enabled(inside, ReleaseWrite(0)) && Step(inside, ReleaseWrite(0)) == Freed(false)
  {
    LapSteps(false);
    assert [WriteWoken, Idle][0 := Writing] == [Writing, Idle];
    assert [Writing, Idle][0 := Idle] == [Idle, Idle] && WakeAll([Idle, Idle]) == [Idle, Idle];
  }

  lemma ReaderVisit(reader: bool)
    ensures var p := if reader then ReadWoken else Idle;
      var busy := State(Counters(1, false, 0), [p, Reading]);
      && Enabled(Freed(reader), CheckRead(1)) && Step(Freed(reader), CheckRead(1)) == busy
      && Enabled(busy, ReleaseRead(1)) && Step(busy, ReleaseRead(1)) == Freed(reader)
  {
    var p := if reader then ReadWoken else Idle;
    assert [p, Idle][1 := Reading] == [p, Reading];
    assert [p, Reading][1 := Idle] == [p, Idle] && WakeAll([p, Idle]) == [p, Idle];
  }

  lemma CalmPush(schedule: seq<Action>, a: Action)
    requires Calm(schedule) && !a.StartWrite?
    ensures Calm(schedule + [a])
  {
  }

  lemma FirstVisit(reader: bool)
    ensures Feasible(Held(reader), Visits(0, reader)) && After(Held(reader), Visits(0, reader)) == Freed(reader)
  {
    var s, one := Held(reader), [ReleaseWrite(1)];
    assert [] + one == one && |s.phase| == 2;
    assert !reader ==> one + [RecheckWrite(0)] + [ReleaseWrite(0)] == Visits(0, reader);
    LapSteps(reader);
    WriterVisit();
    hide Step, Enabled, After, Feasible, VainLooks, Arrivals, Held;
    NoSteps(s);
    OneMore(s, [], ReleaseWrite(1), 0);
    if !reader {
      OneMore(s, one, RecheckWrite(0), 0);
      OneMore(s, one + [RecheckWrite(0)], ReleaseWrite(0), 0);
    }
  }

  lemma {:induction false} VisitsRun(n: nat, reader: bool)
    ensures Feasible(Held(reader), Visits(n, reader)) && After(Held(reader), Visits(n, reader)) == Freed(reader)
    ensures Calm(Visits(n, reader)) && |Visits(n, reader)| == 2 * n + (if reader then 1 else 3)
  {
    hide Step, Enabled, After, Feasible, VainLooks, Arrivals;
    if n == 0 {
      FirstVisit(reader);
    } else {
      var s, before := Held(reader), Visits(n - 1, reader);
      VisitsRun(n - 1, reader);
      ReaderVisit(reader);
      hide Calm;
      OneMore(s, before, CheckRead(1), 0);
      OneMore(s, before + [CheckRead(1)], ReleaseRead(1), 0);
      CalmPush(before, CheckRead(1));
      CalmPush(before + [CheckRead(1)], ReleaseRead(1));
    }
  }

  lemma HeldInv(reader: bool)
    ensures Inv(Held(reader)) && After(Start(2), Laps(0, reader)) == Held(reader)
  {
    FirstLap(reader);
    StartInv(2);
    hide Inv, Laps;
    RunInv(Start(2), Laps(0, reader), |Laps(0, reader)|);
    assert Laps(0, reader)[..|Laps(0, reader)|] == Laps(0, reader);
  }

  lemma HeldPatience(reader: bool)
    ensures Patience(Held(reader), 0) <= 8
  {
    var phase := Held(reader).phase;
    assert phase[..1] == [phase[0]] && phase[..1][..0] == [];
    assert Total(phase, Left(2)) == Total(phase[..1], Left(2)) + Left(2)(phase[1]);
    assert Total(phase[..1], Left(2)) == Left(2)(phase[0]);
  }

  /** Such runs exist, of any length, for a waiting reader and for a waiting writer, from a state that the start reaches.
      The reader may look as late as it likes. */
  lemma PatienceRunsOut(n: nat, reader: bool)
    requires n >= 4
    ensures Inv(Held(reader)) && After(Start(2), Laps(0, reader)) == Held(reader)
    ensures if reader then WaitsToRead(Held(reader).phase[0]) else WaitsToWrite(Held(reader).phase[0])
    ensures Feasible(Held(reader), Visits(n, reader)) && Calm(Visits(n, reader))
    ensures |Visits(n, reader)| > Patience(Held(reader), Arrivals(Visits(n, reader)))
    ensures reader ==> FreeToRead(After(Held(reader), Visits(n, reader)), 0)
    ensures reader ==> Feasible(Held(reader), Visits(n, reader) + [CheckRead(0)])
  {
    HeldInv(reader);
    VisitsRun(n, reader);
    CalmArrivals(Visits(n, reader));
    HeldPatience(reader);
    hide After, Feasible, Visits, Laps, Inv, Calm, Patience, VainLooks, Arrivals, Step;
    if reader { OneMore(Held(reader), Visits(n, reader), CheckRead(0), 0); }
  }
}
