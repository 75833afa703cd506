/** What has been inserted into an index: one entry per (value, row), in order. */
module IndexLog {
  import opened Seqs

  datatype Entry = Entry(value: int, row: nat)

  /** The log of a bulk build: row i holds the i-th value. */
  function Enumerate(values: seq<int>): seq<Entry> {
    seq(|values|, i requires 0 <= i < |values| => Entry(values[i], i))
  }

  lemma EnumeratePush(values: seq<int>, v: int)
    ensures Enumerate(values + [v]) == Enumerate(values) + [Entry(v, |values|)]
  {
  }

  /** Rows inserted with exactly this value, in insertion order. */
  function RowsOf(log: seq<Entry>, value: int): seq<nat> {
    if log == [] then []
    else
      var n := |log| - 1;
      var rest := RowsOf(log[..n], value);
      if log[n].value == value then rest + [log[n].row] else rest
  }

  lemma RowsOfPush(log: seq<Entry>, e: Entry, value: int)
    ensures RowsOf(log + [e], value)
         == if e.value == value then RowsOf(log, value) + [e.row] else RowsOf(log, value)
  {
    assert (log + [e])[..|log|] == log;
  }

  /** For consecutive rows this is the ascending list of matching rows. */
  lemma {:induction false} RowsOfEnumerate(values: seq<int>, value: int)
    ensures RowsOf(Enumerate(values), value) == RowsWhere(values, v => v == value)
  {
    if values != [] {
      var n := |values| - 1;
      RowsOfEnumerate(values[..n], value);
      assert values == values[..n] + [values[n]];
      EnumeratePush(values[..n], values[n]);
      RowsOfPush(Enumerate(values[..n]), Entry(values[n], n), value);
    }
  }

  /** One more than the largest row inserted. */
  function RowBound(log: seq<Entry>): nat {
    if log == [] then 0
    else
      var n := |log| - 1;
      var rest := RowBound(log[..n]);
      if log[n].row + 1 > rest then log[n].row + 1 else rest
  }

  lemma RowBoundPush(log: seq<Entry>, e: Entry)
    ensures RowBound(log + [e]) == if e.row + 1 > RowBound(log) then e.row + 1 else RowBound(log)
  {
    assert (log + [e])[..|log|] == log;
  }

  lemma {:induction false} RowBoundEnumerate(values: seq<int>)
    ensures RowBound(Enumerate(values)) == |values|
  {
    if values != [] {
      var n := |values| - 1;
      RowBoundEnumerate(values[..n]);
      assert Enumerate(values)[..n] == Enumerate(values[..n]);
    }
  }
}
