/** Where index plans and scans part (packetql/index/indexes.py, packetql/index/trie.py): exactly which WHERE clauses are
    planned with the scan's meaning on every store. */
module IndexLimits {
  import opened Wrappers
  import opened Seqs
  import opened Bits
  import opened Text
  import opened Ast
  import opened Predicate
  import opened IndexPlan

  // ---- Addresses the trie cannot tell apart ------------------------------

  /** A descent to any depth sees only the low 32 bits. */
  lemma {:induction false} SharedTop(v: int, w: int, d: nat, e: nat)
    requires d <= e <= 32 && Top(v, e) == Top(w, e)
    ensures Top(v, d) == Top(w, d)
  {
    if d < e {
      assert Top(v, e - 1) == Top(v, e) / 2 && Top(w, e - 1) == Top(w, e) / 2;
      SharedTop(v, w, d, e - 1);
    }
  }

  /** The address with the first bit flipped. */
  function Opposite(v: nat): (w: nat)
    requires v < 0x1_0000_0000
    ensures w < 0x1_0000_0000
  {
    if v < 0x8000_0000 then v + 0x8000_0000 else v - 0x8000_0000
  }

  lemma OppositeTop(v: nat, d: nat)
    requires v < 0x1_0000_0000 && 1 <= d <= 32
    ensures Top(v, d) != Top(Opposite(v), d)
  {
    hide Top;
    hide Pow2;
    SmallPowers();
    Pow2Add(1, 31);
    assert Pow2(1) == 2 by { Doubles(); }
    TopOfWord(v, 1);
    TopOfWord(Opposite(v), 1);
    if Top(v, d) == Top(Opposite(v), d) { SharedTop(v, Opposite(v), 1, d); }
  }

  lemma Doubles()
    ensures Pow2(1) == 2
  {
    assert Pow2(0) == 1;
  }

  /** The trie finds a row under every prefix of an address equal to the row's modulo 2^32, and fails below 32 bits. */
  lemma AliasFound(prefix: int, bits: nat)
    ensures LookUnder(prefix % 0x1_0000_0000, prefix, bits) == if bits <= 32 then Finds else Fails
  {
    hide Top;
    LowWord(prefix);
    LowWord(prefix % 0x1_0000_0000);
    SharedTop(prefix % 0x1_0000_0000, prefix, if bits <= 32 then bits else 32, 32);
  }

  // ---- Literals outside the domain ---------------------------------------

  /** No row satisfies a conjunct outside the domain, unless its lookup fails on that row. */
  lemma MisfitNeverHolds(t: Columns, n: nat, conj: Expr, i: nat)
    requires StoreColumns(t, n) && i < n && Typed(conj) && Sargable(conj) && !Fits(conj)
    requires !LookAt(conj, t[LookupColumn(conj)][i]).Fails?
    ensures !Holds(conj, t, i)
  {
    hide LowOf, HighOf, Top;
    StoreRowsAre(t, n, conj);
    if conj.op == Eq {
      EqMeans(conj, t, n, i);
    } else {
      var known := LikeOctets(conj.right.value.s).value;
      if |known| > 4 { SameKnown(known, 4); }
    }
  }

  lemma NoOctets(known: seq<nat>)
    requires |known| == 0
    ensures LowOf(known, 4) == 0
  {
    assert LowOf(known, 1) == 0;
    assert LowOf(known, 2) == 0;
    assert LowOf(known, 3) == 0;
  }

  /** For a conjunct outside the domain there is a value on which its lookup fails, or which it finds. */
  lemma MisfitValue(conj: Expr) returns (v: nat)
    requires Typed(conj) && Sargable(conj) && !Fits(conj)
    ensures LookupColumn(conj) in TRIE_COLS + HASH_COLS && v < (if LookupColumn(conj) in TRIE_COLS then 0x1_0000_0000 else 0x1_0000)
    ensures !LookAt(conj, v).Misses?
  {
    hide LowOf, Top, LookUnder;
    v := 0;
    if conj.op == Eq {
      var (col, lit) := ColLit(conj.left, conj.right).value;
      if col in TRIE_COLS && lit.IntV? {
        v := lit.i % 0x1_0000_0000;
        LowWord(v);
        LowWord(lit.i);
      }
    } else {
      var known := LikeOctets(conj.right.value.s).value;
      v := LowOf(known, 4) % 0x1_0000_0000;
      AliasFound(LowOf(known, 4), 8 * |known|);
    }
  }

  /** What a lookup outside the domain finds, it does not find under the opposite address. */
  lemma OppositeMissed(conj: Expr, v: nat)
    requires Typed(conj) && Sargable(conj) && !Fits(conj) && v < 0x1_0000_0000 && LookAt(conj, v).Finds?
    ensures LookupColumn(conj) in TRIE_COLS && !LookAt(conj, Opposite(v)).Finds?
  {
    hide LowOf, Top, Opposite;
    if conj.op == Eq {
      OppositeTop(v, 32);
    } else {
      var known := LikeOctets(conj.right.value.s).value;
      if |known| == 0 { NoOctets(known); } else { OppositeTop(v, 8 * |known|); }
    }
  }

  // ---- Records that deceive a plan ---------------------------------------

  /** Row i of a store, alone. */
  function RowAlone(t: Columns, i: nat): (r: Columns)
    requires t.Keys == NAMES && forall c :: c in NAMES ==> i < |t[c]|
    ensures r.Keys == NAMES && forall c :: c in NAMES ==> r[c] == [t[c][i]]
  {
    map c | c in NAMES :: [t[c][i]]
  }

  /** A record, and beside it the same one with another value in one column. */
  function Beside(r: Columns, col: string, v: int): (t: Columns)
    requires r.Keys == NAMES && forall c :: c in NAMES ==> |r[c]| == 1
    ensures t.Keys == NAMES && forall c :: c in NAMES ==> t[c] == [r[c][0], if c == col then v else r[c][0]]
  {
    map c | c in NAMES :: [r[c][0], if c == col then v else r[c][0]]
  }

  lemma HoldsAlike(e: Expr, t: Columns, i: nat, u: Columns, j: nat)
    requires Typed(e) && HasRow(t, ColumnsIn(e), i) && HasRow(u, ColumnsIn(e), j)
    requires forall c :: c in ColumnsIn(e) ==> t[c][i] == u[c][j]
    ensures Holds(e, t, i) == Holds(e, u, j) && EvalAt(e, t, i) == EvalAt(e, u, j)
  {
    EvalAgrees(e, t, i, u, j);
  }

  /** Does a record deceive the planner? A lookup fails on it, or its lookups and its residual let it through although it
      does not satisfy WHERE. */
  ghost predicate Deceives(r: Columns, where: Expr)
    requires StoreColumns(r, 1) && Typed(where) && ColumnsIn(where) <= NAMES
  {
    var cs := Conjuncts(where);
    || (exists c :: c in cs && Sargable(c) && LookAt(c, r[LookupColumn(c)][0]).Fails?)
    || (FoundByAll(cs, r, 0) && RestHolds(cs, r, 0) && !EvalAt(where, r, 0))
  }

  lemma SameRow(where: Expr, t: Columns, n: nat, i: nat, u: Columns, m: nat, j: nat)
    requires StoreColumns(t, n) && StoreColumns(u, m) && i < n && j < m && Typed(where) && ColumnsIn(where) <= NAMES
    requires forall c :: c in NAMES ==> t[c][i] == u[c][j]
    ensures FoundByAll(Conjuncts(where), t, i) == FoundByAll(Conjuncts(where), u, j)
    ensures RestHolds(Conjuncts(where), t, i) == RestHolds(Conjuncts(where), u, j)
    ensures EvalAt(where, t, i) == EvalAt(where, u, j)
  {
    hide LookAt, Sargable, Holds;
    ConjunctsMean(where, t, i);
    HoldsAlike(where, t, i, u, j);
    forall c | c in Conjuncts(where) ensures Holds(c, t, i) == Holds(c, u, j) { HoldsAlike(c, t, i, u, j); }
  }

  // ---- No such record: the plan is exact ---------------------------------

  lemma LookupsSucceed(where: Expr, t: Columns, n: nat)
    requires StoreColumns(t, n) && Typed(where) && ColumnsIn(where) <= NAMES
    requires forall r :: StoreColumns(r, 1) ==> !Deceives(r, where)
    ensures Gather(t, Conjuncts(where)).Ok?
  {
    hide LookAt, Sargable, ResolveRows;
    var zeros := map name | name in NAMES :: [0];
    assert StoreColumns(zeros, 1);
    forall c | c in Conjuncts(where) && Sargable(c) ensures ResolveRows(t, c).Ok? {
      ResolveByRow(t, c);
      assert !LookAt(c, zeros[LookupColumn(c)][0]).Fails?;
      forall i | 0 <= i < n ensures !LookAt(c, t[LookupColumn(c)][i]).Fails? {
        assert StoreColumns(RowAlone(t, i), 1);
        assert !LookAt(c, RowAlone(t, i)[LookupColumn(c)][0]).Fails?;
      }
    }
    GatherSees(t, n, Conjuncts(where), 0);
  }

  lemma RowUndeceiving(where: Expr, t: Columns, n: nat, i: nat)
    requires StoreColumns(t, n) && i < n && Typed(where) && ColumnsIn(where) <= NAMES
    requires !Deceives(RowAlone(t, i), where)
    ensures EvalAt(where, t, i) <==> FoundByAll(Conjuncts(where), t, i) && RestHolds(Conjuncts(where), t, i)
  {
    hide LookAt, Sargable, Fits;
    var cs := Conjuncts(where);
    SameRow(where, t, n, i, RowAlone(t, i), 1, 0);
    ConjunctsMean(where, t, i);
    if EvalAt(where, t, i) {
      forall c | c in cs && Sargable(c) ensures LookAt(c, t[LookupColumn(c)][i]).Finds? {
        assert !LookAt(c, RowAlone(t, i)[LookupColumn(c)][0]).Fails?;
        if Fits(c) { FitsFinds(t, n, c, i); } else { MisfitNeverHolds(t, n, c, i); }
      }
    }
  }

  lemma UndeceivedEverywhere(where: Expr, t: Columns, n: nat)
    requires StoreColumns(t, n) && Typed(where) && ColumnsIn(where) <= NAMES
    requires forall r :: StoreColumns(r, 1) ==> !Deceives(r, where)
    ensures PlanExact(t, n, where)
  {
    hide PlanExact, Gather, FoundByAll, RestHolds, Deceives;
    LookupsSucceed(where, t, n);
    forall i | 0 <= i < n ensures EvalAt(where, t, i) <==> FoundByAll(Conjuncts(where), t, i) && RestHolds(Conjuncts(where), t, i) {
      assert StoreColumns(RowAlone(t, i), 1);
      RowUndeceiving(where, t, n, i);
    }
    UndeceivedExact(t, n, where);
  }

  // ---- Such a record: a store where the plan is not exact ----------------

  /** Only the first of two rows is found: it is the one candidate. */
  lemma OneCandidate(where: Expr, t: Columns)
    requires StoreColumns(t, 2) && Typed(where) && ColumnsIn(where) <= NAMES && Gather(t, Conjuncts(where)).Ok?
    requires FoundByAll(Conjuncts(where), t, 0) && !FoundByAll(Conjuncts(where), t, 1)
    ensures Choose(t, 2, where).Ok? && Choose(t, 2, where).value.Some?
    ensures Choose(t, 2, where).value.value.candidates == [0]
  {
    assert t.Keys == NAMES;
    hide *;
    var cs := Conjuncts(where);
    GatherSees(t, 2, cs, 0);
    GatherSees(t, 2, cs, 1);
    OnlyFirst(Gather(t, cs).value.rowsets);
    FewCandidates(t, 2, where);
  }

  lemma FewCandidates(t: Columns, n: nat, where: Expr)
    requires t.Keys == NAMES && Gather(t, Conjuncts(where)).Ok? && Gather(t, Conjuncts(where)).value.rowsets != []
    requires |SortedSet(Intersection(Gather(t, Conjuncts(where)).value.rowsets))| < n
    ensures Choose(t, n, where).Ok? && Choose(t, n, where).value.Some?
    ensures Choose(t, n, where).value.value.candidates == SortedSet(Intersection(Gather(t, Conjuncts(where)).value.rowsets))
  {
    hide Gather, Conjuncts, SortedSet, Intersection, RebuildAnd;
  }

  lemma OnlyFirst(rowsets: seq<seq<nat>>)
    requires InEvery(rowsets, 0) && !InEvery(rowsets, 1)
    requires forall k, j :: 0 <= k < |rowsets| && j in rowsets[k] ==> j < 2
    ensures rowsets != [] && SortedSet(Intersection(rowsets)) == [0]
  {
    var all := Intersection(rowsets);
    forall j: nat ensures j in all <==> j == 0 {
      IntersectionIs(rowsets, j);
      if j in all { assert j in rowsets[0]; }
    }
    AscendingUnique(SortedSet(all), [0]);
  }

  lemma LetThrough(where: Expr, t: Columns)
    requires StoreColumns(t, 2) && Typed(where) && ColumnsIn(where) <= NAMES
    requires FoundByAll(Conjuncts(where), t, 0) && !FoundByAll(Conjuncts(where), t, 1)
    requires RestHolds(Conjuncts(where), t, 0) && !EvalAt(where, t, 0)
    ensures !PlanExact(t, 2, where)
  {
    hide FoundByAll, RestHolds, Gather;
    if Gather(t, Conjuncts(where)).Ok? {
      OneCandidate(where, t);
      ChooseSees(t, 2, where, 0);
      hide Choose;
      var plan := Choose(t, 2, where).value.value;
      KeepExact(plan.candidates, plan.residual, t);
      MatchingExact(where, t, 2);
      hide Keep, Matching;
      assert 0 in Keep(plan.candidates, plan.residual, t);
    }
  }

  /** From a record that deceives the planner, a store of at most two rows on which the plan fails or is wrong. */
  lemma DeceivedSomewhere(where: Expr, r: Columns) returns (t: Columns, n: nat)
    requires StoreColumns(r, 1) && Typed(where) && ColumnsIn(where) <= NAMES && Deceives(r, where)
    ensures 1 <= n <= 2 && StoreColumns(t, n) && !PlanExact(t, n, where)
  {
    hide LookAt, Sargable, ResolveRows, Fits, Holds, Keep;
    var cs := Conjuncts(where);
    if c :| c in cs && Sargable(c) && LookAt(c, r[LookupColumn(c)][0]).Fails? {
      t, n := r, 1;
      ResolveByRow(r, c);
      GatherSees(r, 1, cs, 0);
    } else {
      ConjunctsMean(where, r, 0);
      var c :| c in cs && !Holds(c, r, 0);
      assert Sargable(c);
      if Fits(c) { FitsFinds(r, 1, c, 0); }
      n := 2;
      t := Misled(where, r, c);
    }
  }

  lemma Misled(where: Expr, r: Columns, c: Expr) returns (t: Columns)
    requires StoreColumns(r, 1) && Typed(where) && ColumnsIn(where) <= NAMES
    requires c in Conjuncts(where) && Typed(c) && Sargable(c) && !Fits(c)
    requires FoundByAll(Conjuncts(where), r, 0) && RestHolds(Conjuncts(where), r, 0) && !EvalAt(where, r, 0)
    ensures StoreColumns(t, 2) && !PlanExact(t, 2, where)
  {
    hide LookAt, Sargable, Fits, PlanExact, RestHolds, Opposite;
    var col := LookupColumn(c);
    assert LookAt(c, r[col][0]).Finds?;
    FoundIsAddress(c, r[col][0]);
    OppositeMissed(c, r[col][0]);
    t := Beside(r, col, Opposite(r[col][0]));
    assert StoreColumns(t, 2);
    SameRow(where, r, 1, 0, t, 2, 0);
    assert !FoundByAll(Conjuncts(where), t, 1) by { assert t[col][1] == Opposite(r[col][0]); }
    hide FoundByAll;
    LetThrough(where, t);
  }

  lemma FoundIsAddress(conj: Expr, v: int)
    requires Sargable(conj) && !Fits(conj) && LookAt(conj, v).Finds?
    ensures LookupColumn(conj) in TRIE_COLS
  {
  }

  // ---- Exactly when ------------------------------------------------------

  /** A WHERE is planned with the scan's meaning on every store exactly when no single record deceives the planner. */
  lemma PlanExactIff(where: Expr)
    requires Typed(where) && ColumnsIn(where) <= NAMES
    ensures (forall t: Columns, n: nat {:trigger StoreColumns(t, n)} :: StoreColumns(t, n) ==> PlanExact(t, n, where))
      <==> forall r :: StoreColumns(r, 1) ==> !Deceives(r, where)
  {
    hide PlanExact, Deceives, StoreColumns;
    if forall r :: StoreColumns(r, 1) ==> !Deceives(r, where) {
      forall t: Columns, n: nat | StoreColumns(t, n) ensures PlanExact(t, n, where) {
        UndeceivedEverywhere(where, t, n);
      }
    } else {
      var r :| StoreColumns(r, 1) && Deceives(r, where);
      var t, n := DeceivedSomewhere(where, r);
    }
  }

  lemma DeceivingRecord(where: Expr, c: Expr, r: Columns) returns (t: Columns)
    requires Typed(where) && ColumnsIn(where) <= NAMES && StoreColumns(r, 1)
    requires c in Conjuncts(where) && Sargable(c) && Typed(c) && !Fits(c)
    requires forall d :: d in Conjuncts(where) && d != c ==>
      LookupColumn(c) !in ColumnsIn(d) && Holds(d, r, 0) && (Sargable(d) ==> Fits(d))
    ensures StoreColumns(t, 1) && Deceives(t, where)
  {
    hide LookAt, Sargable, Fits;
    var v := MisfitValue(c);
    t := r[LookupColumn(c) := [v]];
    assert StoreColumns(t, 1) by { OneValueChanged(r, LookupColumn(c), v); }
    ConjunctsMean(where, t, 0);
    if LookAt(c, v).Finds? {
      MisfitNeverHolds(t, 1, c, 0);
      forall d | d in Conjuncts(where) && d != c
        ensures Holds(d, t, 0) && (Sargable(d) ==> LookAt(d, t[LookupColumn(d)][0]).Finds?)
      {
        StillHolds(d, r, LookupColumn(c), v);
      }
      hide Holds;
    }
  }

  lemma OneValueChanged(r: Columns, col: string, v: nat)
    requires StoreColumns(r, 1) && col in TRIE_COLS + HASH_COLS
    requires v < (if col in TRIE_COLS then 0x1_0000_0000 else 0x1_0000)
    ensures StoreColumns(r[col := [v]], 1)
  {
  }

  lemma StillHolds(d: Expr, r: Columns, col: string, v: int)
    requires StoreColumns(r, 1) && StoreColumns(r[col := [v]], 1)
    requires col !in ColumnsIn(d) && Holds(d, r, 0) && (Sargable(d) ==> Fits(d))
    ensures Holds(d, r[col := [v]], 0)
    ensures Sargable(d) ==> LookAt(d, r[col := [v]][LookupColumn(d)][0]).Finds?
  {
    hide LookAt, Sargable, Fits;
    HoldsAlike(d, r, 0, r[col := [v]], 0);
    if Sargable(d) { FitsFinds(r[col := [v]], 1, d, 0); }
  }

  /** A literal outside the domain matters as soon as the other conjuncts do not mention its column, are in the domain,
      and hold together of some record. */
  lemma MisfitAmong(where: Expr, c: Expr, r: Columns) returns (t: Columns, n: nat)
    requires Typed(where) && ColumnsIn(where) <= NAMES && StoreColumns(r, 1)
    requires c in Conjuncts(where) && Sargable(c) && Typed(c) && !Fits(c)
    requires forall d :: d in Conjuncts(where) && d != c ==>
      LookupColumn(c) !in ColumnsIn(d) && Holds(d, r, 0) && (Sargable(d) ==> Fits(d))
    ensures 1 <= n <= 2 && StoreColumns(t, n) && !PlanExact(t, n, where)
  {
    hide *;
    var s := DeceivingRecord(where, c, r);
    t, n := DeceivedSomewhere(where, s);
  }

  /** One lookup alone is planned with the scan's meaning on every store exactly for the literals of `Fits`. */
  lemma LookupExactIff(conj: Expr)
    requires Typed(conj) && Sargable(conj)
    ensures ColumnsIn(conj) <= NAMES
    ensures Fits(conj) <==>
      forall t: Columns, n: nat {:trigger StoreColumns(t, n)} :: StoreColumns(t, n) ==> PlanExact(t, n, conj)
  {
    SargableColumns(conj);
    hide PlanExact, LookAt, Fits;
    assert Conjuncts(conj) == [conj];
    if Fits(conj) {
      forall t: Columns, n: nat | StoreColumns(t, n) ensures PlanExact(t, n, conj) { ChooseExact(t, n, conj); }
    } else {
      var zeros := map name | name in NAMES :: [0];
      assert StoreColumns(zeros, 1);
      var t, n := MisfitAmong(conj, conj, zeros);
    }
  }
}
