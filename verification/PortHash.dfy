/** The direct-address table over ports (packetql/index/hash_index.py). */
module PortHash {
  import opened Wrappers
  import opened IndexLog

  const NUM_PORTS := 65536

  class PortTable {
    const table: array<Option<seq<nat>>>
    ghost var log: seq<Entry>

    ghost predicate Valid()
      reads this, table
    {
      && table.Length == NUM_PORTS
      && (forall i :: 0 <= i < |log| ==> 0 <= log[i].value < NUM_PORTS)
      && (forall p :: 0 <= p < NUM_PORTS ==>
            table[p] == if RowsOf(log, p) == [] then None else Some(RowsOf(log, p)))
    }

    constructor (values: seq<int>)
      requires forall i :: 0 <= i < |values| ==> 0 <= values[i] < NUM_PORTS
      ensures Valid() && fresh(table) && log == Enumerate(values)
    {
      table := new Option<seq<nat>>[NUM_PORTS](_ => None);
      log := [];
      new;
      var row := 0;
      while row < |values|
        invariant 0 <= row <= |values|
        invariant Valid() && fresh(table) && log == Enumerate(values[..row])
      {
        Add(values[row], row);
        assert values[..row + 1] == values[..row] + [values[row]];
        EnumeratePush(values[..row], values[row]);
        row := row + 1;
      }
      assert values[..row] == values;
    }

    method Add(port: int, row: nat)
      requires Valid() && 0 <= port < NUM_PORTS
      modifies this`log, table
      ensures Valid() && log == old(log) + [Entry(port, row)]
    {
      forall p
        ensures RowsOf(log + [Entry(port, row)], p) == if p == port then RowsOf(log, p) + [row] else RowsOf(log, p)
      {
        RowsOfPush(log, Entry(port, row), p);
      }
      var bucket := table[port];
      if bucket == None {
        bucket := Some([]);
      }
      table[port] := Some(bucket.value + [row]);
      log := log + [Entry(port, row)];
    }

    method Lookup(port: int) returns (rows: seq<nat>)
      requires Valid()
      ensures rows == RowsOf(log, port)
    {
      if !(0 <= port < NUM_PORTS) {
        NoSuchPort(log, port);
        return [];
      }
      var bucket := table[port];
      rows := if bucket == None then [] else bucket.value;
    }

    method Count(port: int) returns (n: nat)
      requires Valid()
      ensures n == |RowsOf(log, port)|
    {
      if !(0 <= port < NUM_PORTS) {
        NoSuchPort(log, port);
        return 0;
      }
      var bucket := table[port];
      n := if bucket == None then 0 else |bucket.value|;
    }
  }

  lemma {:induction false} NoSuchPort(log: seq<Entry>, port: int)
    requires forall i :: 0 <= i < |log| ==> log[i].value != port
    ensures RowsOf(log, port) == []
  {
    if log != [] { NoSuchPort(log[..|log| - 1], port); }
  }
}
