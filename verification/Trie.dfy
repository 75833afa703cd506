/** The bit trie over 32-bit addresses (packetql/index/trie.py). */
module Trie {
  import opened Wrappers
  import opened Seqs
  import opened Bits
  import opened IndexLog

  datatype TrieError = NegativeShift

  // ---- What the trie stands for ------------------------------------------

  /** Rows of the entries whose address starts with the `d` bits `p`, in insertion order. */
  function Under(log: seq<Entry>, d: nat, p: nat): seq<nat>
    requires d <= 32
  {
    if log == [] then []
    else
      var n := |log| - 1;
      Under(log[..n], d, p) + (if Top(log[n].value, d) == p then [log[n].row] else [])
  }

  /** What `prefix_rows` answers: sorted rows, or Python's error for a negative shift. */
  function PrefixAnswer(log: seq<Entry>, prefixValue: int, prefixBits: nat): Result<seq<nat>, TrieError> {
    if prefixBits <= 32 then
      Ok(SortBy(Under(log, prefixBits, Top(prefixValue, prefixBits)), RowKey, false))
    else if Under(log, 32, Top(prefixValue, 32)) == [] then Ok([])
    else Err(NegativeShift)
  }

  lemma UnderPush(log: seq<Entry>, e: Entry, d: nat, p: nat)
    requires d <= 32
    ensures Under(log + [e], d, p) == Under(log, d, p) + (if Top(e.value, d) == p then [e.row] else [])
  {
    assert (log + [e])[..|log|] == log;
  }

  /** For a log of consecutive rows, `Under` is the ascending list of matching rows. */
  lemma {:induction false} UnderEnumerate(values: seq<int>, d: nat, p: nat)
    requires d <= 32
    ensures Under(Enumerate(values), d, p) == RowsWhere(values, v => Top(v, d) == p)
  {
    if values != [] {
      var n := |values| - 1;
      UnderEnumerate(values[..n], d, p);
      assert values == values[..n] + [values[n]];
      EnumeratePush(values[..n], values[n]);
      UnderPush(Enumerate(values[..n]), Entry(values[n], n), d, p);
    }
  }

  /** Over a store's column, a prefix lookup is exactly the ascending list of rows sharing the prefix. */
  lemma PrefixAnswerExact(values: seq<int>, prefixValue: int, prefixBits: nat)
    requires prefixBits <= 32
    ensures PrefixAnswer(Enumerate(values), prefixValue, prefixBits)
         == Ok(RowsWhere(values, v => Top(v, prefixBits) == Top(prefixValue, prefixBits)))
  {
    var p := Top(prefixValue, prefixBits);
    UnderEnumerate(values, prefixBits, p);
    RowsWhereCongruent(values, v => Top(v, prefixBits) == p,
                       values, v => Top(v, prefixBits) == Top(prefixValue, prefixBits));
    var rows := RowsWhere(values, v => Top(v, prefixBits) == p);
    RowsWhereExact(values, v => Top(v, prefixBits) == p);
    SortAscending(rows, rows);
  }

  // ---- Which prefixes have a node ----------------------------------------

  /** A position in the trie: the bits consumed so far, the latest outermost. */
  datatype Key = Root | Ext(up: Key, one: bool) {
    function Depth(): nat {
      match this
      case Root => 0
      case Ext(up, _) => up.Depth() + 1
    }
  }

  /** Bit `b` of an address, as the descent tests it. */
  predicate TestBit(v: int, b: nat) {
    Shr(v, b) % 2 == 1
  }

  /** Where the descent for `v` stands after `d` bits. */
  function Path(v: int, d: nat): (k: Key)
    requires d <= 32
    ensures k.Depth() == d
  {
    if d == 0 then Root else Ext(Path(v, d - 1), TestBit(v, 32 - d))
  }

  predicate Passes(v: int, k: Key) {
    k.Depth() <= 32 && k == Path(v, k.Depth())
  }

  /** Two descents meet at a depth exactly when the addresses share that many bits. */
  lemma {:induction false} SamePath(v: int, w: int, d: nat)
    requires d <= 32
    ensures Path(v, d) == Path(w, d) <==> Top(v, d) == Top(w, d)
  {
    if d != 0 { SamePath(v, w, d - 1); }
  }

  /** The positions a descent for `v` visits in its first `d` steps. */
  ghost function PathSet(v: int, d: nat): set<Key>
    requires d <= 32
  {
    {Path(v, d)} + if d == 0 then {} else PathSet(v, d - 1)
  }

  /** The root and every prefix of an inserted address. */
  ghost function Prefixes(log: seq<Entry>): set<Key> {
    if log == [] then {Root} else Prefixes(log[..|log| - 1]) + PathSet(log[|log| - 1].value, 32)
  }

  /** The rows inserted through a position, in order. */
  ghost function RowsAt(log: seq<Entry>, k: Key): seq<nat> {
    if log == [] then []
    else
      var e := log[|log| - 1];
      RowsAt(log[..|log| - 1], k) + (if Passes(e.value, k) then [e.row] else [])
  }

  lemma {:induction false} RowsAtIsUnder(log: seq<Entry>, v: int, d: nat)
    requires d <= 32
    ensures RowsAt(log, Path(v, d)) == Under(log, d, Top(v, d))
  {
    if log != [] {
      RowsAtIsUnder(log[..|log| - 1], v, d);
      SamePath(log[|log| - 1].value, v, d);
    }
  }

  /** The rows at a position as a bag: what is left to collect, in no order. */
  ghost function Bag(log: seq<Entry>, k: Key): multiset<nat> {
    if log == [] then multiset{}
    else
      var e := log[|log| - 1];
      Bag(log[..|log| - 1], k) + (if Passes(e.value, k) then multiset{e.row} else multiset{})
  }

  lemma {:induction false} BagIs(log: seq<Entry>, k: Key)
    ensures Bag(log, k) == multiset(RowsAt(log, k))
  {
    if log != [] {
      BagIs(log[..|log| - 1], k);
    }
  }

  /** Rows of an inner position are those of its two extensions. */
  lemma {:induction false} BagSplit(log: seq<Entry>, k: Key)
    requires k.Depth() < 32
    ensures Bag(log, k) == Bag(log, Ext(k, false)) + Bag(log, Ext(k, true))
  {
    if log != [] {
      BagSplit(log[..|log| - 1], k);
      PathStep(log[|log| - 1].value, k);
    }
  }

  /** A descent through `k` goes on to exactly one of its two extensions. */
  lemma PathStep(v: int, k: Key)
    requires k.Depth() < 32
    ensures Passes(v, k) <==> Passes(v, Ext(k, false)) || Passes(v, Ext(k, true))
    ensures !(Passes(v, Ext(k, false)) && Passes(v, Ext(k, true)))
  {
  }

  lemma {:induction false} PathSetIs(v: int, d: nat, k: Key)
    requires d <= 32
    ensures k in PathSet(v, d) <==> k.Depth() <= d && k == Path(v, k.Depth())
  {
    if d != 0 { PathSetIs(v, d - 1, k); }
  }

  lemma LastOnPath(v: int)
    ensures forall k :: k in PathSet(v, 32) && k.Depth() == 32 ==> k == Path(v, 32)
    ensures Path(v, 32) in PathSet(v, 32)
  {
    forall k | k in PathSet(v, 32) && k.Depth() == 32 ensures k == Path(v, 32) { PathSetIs(v, 32, k); }
  }

  /** A prefix has a node exactly when some inserted address starts with it. */
  lemma {:induction false} PrefixesAre(log: seq<Entry>, k: Key)
    ensures k in Prefixes(log) <==> k == Root || RowsAt(log, k) != []
  {
    if log != [] {
      var n := |log| - 1;
      PrefixesAre(log[..n], k);
      PathSetIs(log[n].value, 32, k);
    }
  }

  /** A prefix without a node has no extension with a node. */
  lemma {:induction false} PrefixesClosed(log: seq<Entry>, k: Key, one: bool)
    requires Ext(k, one) in Prefixes(log)
    ensures k in Prefixes(log) && k.Depth() < 32
  {
    if log != [] {
      var n := |log| - 1;
      PathSetIs(log[n].value, 32, Ext(k, one));
      PathSetIs(log[n].value, 32, k);
      if Ext(k, one) in Prefixes(log[..n]) {
        PrefixesClosed(log[..n], k, one);
      }
    }
  }

  lemma PrefixesPush(log: seq<Entry>, e: Entry)
    ensures Prefixes(log + [e]) == Prefixes(log) + PathSet(e.value, 32)
  {
    assert (log + [e])[..|log|] == log;
  }

  lemma RowsAtPush(log: seq<Entry>, e: Entry, k: Key)
    ensures RowsAt(log + [e], k) == RowsAt(log, k) + (if Passes(e.value, k) then [e.row] else [])
  {
    assert (log + [e])[..|log|] == log;
  }

  // ---- The pointer structure ---------------------------------------------

  class Node {
    var child0: Node?
    var child1: Node?
    var rows: Option<seq<nat>>
    var count: nat
    ghost const key: Key
    ghost var below: seq<nat>          // every row inserted through this node, in order

    constructor (ghost k: Key)
      ensures child0 == null && child1 == null && rows == None && count == 0 && key == k && below == []
    {
      child0, child1, rows, count, key, below := null, null, None, 0, k, [];
    }

    /** The node's own list, empty when it has none. */
    function Listed(): seq<nat>
      reads this
    {
      if rows == None then [] else rows.value
    }

    function Child(bit: bool): Node?
      reads this
    {
      if !bit then child0 else child1
    }

  }

  ghost function NodeAt(at: map<Key, Node>, k: Key): Node? {
    if k in at then at[k] else null
  }

  /** The rows below a node once `row` is counted in the nodes of `on`. */
  function Gained(was: map<Key, seq<nat>>, on: set<Key>, row: nat, k: Key): seq<nat> {
    var before := if k in was then was[k] else [];
    if k in on then before + [row] else before
  }

  function ListOption(k: Key, rows: seq<nat>): Option<seq<nat>> {
    if k.Depth() < 32 || rows == [] then None else Some(rows)
  }

  /** Counting the row along its path is exactly what the longer log describes. */
  lemma Grown(log: seq<Entry>, e: Entry, was: map<Key, seq<nat>>, on: set<Key>, k: Key)
    requires was.Keys == Prefixes(log) && (k in was ==> was[k] == RowsAt(log, k))
    requires on == PathSet(e.value, 32) && k in was.Keys + on
    ensures Gained(was, on, e.row, k) == RowsAt(log + [e], k)
  {
    RowsAtPush(log, e, k);
    PathSetIs(e.value, 32, k);
    NoNodeNoRows(log, k);
  }

  lemma GrownAll(log: seq<Entry>, e: Entry, was: map<Key, seq<nat>>, on: set<Key>)
    requires was.Keys == Prefixes(log) && forall k {:trigger was[k]} :: k in was ==> was[k] == RowsAt(log, k)
    requires on == PathSet(e.value, 32)
    ensures was.Keys + on == Prefixes(log + [e])
    ensures forall k {:trigger Gained(was, on, e.row, k)} :: k in was.Keys + on ==>
      Gained(was, on, e.row, k) == RowsAt(log + [e], k)
  {
    PrefixesPush(log, e);
    forall k {:trigger Gained(was, on, e.row, k)} | k in was.Keys + on
      ensures Gained(was, on, e.row, k) == RowsAt(log + [e], k)
    {
      Grown(log, e, was, on, k);
    }
  }

  class BitTrie {
    var root: Node
    ghost var log: seq<Entry>          // everything inserted so far
    ghost var at: map<Key, Node>       // the node of each prefix that occurs
    ghost var Repr: set<Node>

    /** A node's children are the nodes of its two extensions, where these occur. */
    ghost predicate Linked(k: Key)
      reads this`at, this`Repr, Repr`child0, Repr`child1
    {
      k in at && at[k] in Repr ==>
        at[k].child0 == NodeAt(at, Ext(k, false)) && at[k].child1 == NodeAt(at, Ext(k, true))
    }

    /** Every prefix that occurs has its own node, in its place. */
    ghost predicate Links()
      reads this`root, this`at, this`Repr, Repr`child0, Repr`child1
    {
      && Root in at && at[Root] == root
      && (forall k {:trigger at[k]} :: k in at ==> k.Depth() <= 32 && at[k] in Repr && at[k].key == k)
      && (forall k {:trigger Linked(k)} :: k in at ==> Linked(k))
    }

    ghost predicate Counts()
      reads this`at, this`Repr, Repr`count, Repr`below
    {
      forall k {:trigger at[k].count} :: k in at ==> at[k] in Repr && at[k].count == |at[k].below|
    }

    ghost predicate Shape()
      reads this`root, this`at, this`Repr, Repr`child0, Repr`child1, Repr`count, Repr`below
    {
      Links() && Counts()
    }

    /** Leaves list the rows inserted through them; inner nodes list none. */
    ghost predicate Lists()
      reads this`at, this`Repr, Repr`rows, Repr`below
    {
      forall k {:trigger at[k].rows} :: k in at ==> at[k] in Repr && at[k].rows == ListOption(k, at[k].below)
    }

    ghost predicate Holds(l: seq<Entry>)
      reads this`at, this`Repr, Repr`below
    {
      forall k {:trigger at[k].below} :: k in at ==> at[k] in Repr && at[k].below == RowsAt(l, k)
    }

    ghost predicate Valid()
      reads this, Repr
    {
      Shape() && Lists() && Holds(log) && at.Keys == Prefixes(log)
    }

    constructor (values: seq<int>)
      ensures Valid() && fresh(Repr)
      ensures log == Enumerate(values)
    {
      var top := new Node(Root);
      root, log, at, Repr := top, [], map[Root := top], {top};
      new;
      var row := 0;
      while row < |values|
        invariant 0 <= row <= |values|
        invariant Valid() && fresh(Repr)
        invariant log == Enumerate(values[..row])
      {
        Add(values[row], row);
        assert values[..row + 1] == values[..row] + [values[row]];
        EnumeratePush(values[..row], values[row]);
        row := row + 1;
      }
      assert values[..row] == values;
    }

    /** Insert one (address, row). */
    method Add(value: int, row: nat)
      requires Valid()
      modifies this, Repr
      ensures Valid() && fresh(Repr - old(Repr))
      ensures log == old(log) + [Entry(value, row)]
    {
      ghost var e := Entry(value, row);
      ghost var was := map k | k in at :: at[k].below;
      ghost var on := PathSet(value, 32);
      var node := Pave(value, row, was);
      LastOnPath(value);
      AddRow(node, was, on, row);
      SetLog(e, was, on);
    }

    /** Ghost: the longer log now describes every node. */
    ghost method SetLog(e: Entry, was: map<Key, seq<nat>>, on: set<Key>)
      requires Shape() && Lists() && on == PathSet(e.value, 32)
      requires at.Keys == was.Keys + on && was.Keys == Prefixes(log)
      requires forall k {:trigger was[k]} :: k in was ==> was[k] == RowsAt(log, k)
      requires forall k {:trigger at[k].below} :: k in at ==> at[k].below == Gained(was, on, e.row, k)
      modifies this`log
      ensures Valid() && log == old(log) + [e]
    {
      GrownAll(log, e, was, on);
      log := log + [e];
    }

    /** The nodes are those of `keys`; the ones in `on` have counted `row` on top of what `was` says. */
    ghost predicate Paved(was: map<Key, seq<nat>>, keys: set<Key>, on: set<Key>, row: nat)
      reads this, Repr
    {
      && Shape()
      && at.Keys == keys
      && (forall k {:trigger at[k].below} :: k in at ==> at[k].below == Gained(was, on, row, k))
      && (forall k {:trigger at[k].rows} :: k in at ==> at[k].rows == ListOption(k, Gained(was, {}, row, k)))
    }

    lemma StartPaved(was: map<Key, seq<nat>>, row: nat)
      requires Valid() && was.Keys == at.Keys && forall k :: k in was ==> was[k] == at[k].below
      ensures Paved(was, at.Keys, {}, row)
    {
      hide Prefixes, RowsAt;
    }

    /** Count one more row in every node on the way down, creating the missing ones. */
    method Pave(value: int, ghost row: nat, ghost was: map<Key, seq<nat>>) returns (node: Node)
      requires Valid() && was.Keys == at.Keys && forall k :: k in was ==> was[k] == at[k].below
      modifies this`at, this`Repr, Repr`count, Repr`below, Repr`child0, Repr`child1
      ensures Paved(was, was.Keys + PathSet(value, 32), PathSet(value, 32), row) && fresh(Repr - old(Repr))
      ensures Path(value, 32) in at && node == at[Path(value, 32)]
    {
      node := root;
      StartPaved(was, row);
      assert Root in at && at[Root] == node && node.key == Root;
      hide Valid, Paved, Prefixes;
      CountIn(node, row, was, at.Keys, {});
      assert Path(value, 0) == Root && PathSet(value, 0) == {Root} && {} + {Root} == {Root};
      assert was.Keys == was.Keys + {Root};
      hide PathSet, Path;
      ghost var d := 0;
      var b := 31;
      while b >= 0
        invariant -1 <= b <= 31 && d == 31 - b
        invariant Paved(was, was.Keys + PathSet(value, d), PathSet(value, d), row) && fresh(Repr - old(Repr))
        invariant Path(value, d) in at && node == at[Path(value, d)]
      {
        node := StepDown(node, value, b, row, was);
        b, d := b - 1, d + 1;
      }
    }

    method StepDown(node: Node, value: int, b: nat, ghost row: nat, ghost was: map<Key, seq<nat>>) returns (nxt: Node)
      requires b < 32 && was.Keys == Prefixes(log)
      requires Paved(was, was.Keys + PathSet(value, 31 - b), PathSet(value, 31 - b), row)
      requires Path(value, 31 - b) in at && node == at[Path(value, 31 - b)]
      modifies this`at, this`Repr, Repr`count, Repr`below, Repr`child0, Repr`child1
      ensures Paved(was, was.Keys + PathSet(value, 32 - b), PathSet(value, 32 - b), row)
      ensures fresh(Repr - old(Repr)) && old(Repr) <= Repr
      ensures Path(value, 32 - b) in at && nxt == at[Path(value, 32 - b)]
    {
      hide PathSet;
      hide Prefixes;
      hide Path;
      var bit := TestBit(value, b);
      ghost var on := PathSet(value, 31 - b);
      NextOnPath(log, value, 31 - b, bit);
      nxt := ChildFor(node, bit, row, was, was.Keys + on, on);
      assert was.Keys + on + {nxt.key} == was.Keys + (on + {nxt.key});
      CountIn(nxt, row, was, was.Keys + on + {nxt.key}, on);
    }

    /** Make sure the next node of the path exists; a new one has counted nothing yet. */
    method ChildFor(node: Node, bit: bool, ghost row: nat, ghost was: map<Key, seq<nat>>, ghost keys: set<Key>, ghost on: set<Key>)
        returns (nxt: Node)
      requires Paved(was, keys, on, row) && was.Keys <= keys
      requires node.key in at && at[node.key] == node && node.key.Depth() < 32
      requires Ext(node.key, bit) !in on
      requires Ext(node.key, bit) !in at ==>
        Ext(Ext(node.key, bit), false) !in at && Ext(Ext(node.key, bit), true) !in at
      modifies this`at, this`Repr, node`child0, node`child1
      ensures Paved(was, keys + {Ext(node.key, bit)}, on, row) && fresh(Repr - old(Repr)) && old(Repr) <= Repr
      ensures Ext(node.key, bit) in at && nxt == at[Ext(node.key, bit)]
    {
      nxt := ChildOf(node, bit);
    }

    method CountIn(node: Node, ghost row: nat, ghost was: map<Key, seq<nat>>, ghost keys: set<Key>, ghost on: set<Key>)
      requires Paved(was, keys, on, row)
      requires node.key in at && at[node.key] == node && node.key !in on
      modifies node`count, node`below
      ensures Paved(was, keys, on + {node.key}, row)
    {
      node.count, node.below := node.count + 1, node.below + [row];
    }

    method AddRow(node: Node, ghost was: map<Key, seq<nat>>, ghost on: set<Key>, row: nat)
      requires Paved(was, was.Keys + on, on, row)
      requires node.key in at && at[node.key] == node && node.key.Depth() == 32 && node.key in on
      requires forall k :: k in on && k.Depth() == 32 ==> k == node.key
      modifies node`rows
      ensures Shape() && Lists()
      ensures forall k {:trigger at[k].below} :: k in at ==> at[k].below == Gained(was, on, row, k)
    {
      if node.rows == None {
        node.rows := Some([]);
      }
      node.rows := Some(node.rows.value + [row]);
      assert node.rows == Some(node.below);
    }

    /** The child for one more bit, created if this prefix is new. */
    method ChildOf(node: Node, bit: bool) returns (nxt: Node)
      requires Shape()
      requires node.key in at && at[node.key] == node && node.key.Depth() < 32
      requires Ext(node.key, bit) !in at ==>
        Ext(Ext(node.key, bit), false) !in at && Ext(Ext(node.key, bit), true) !in at
      modifies this`at, this`Repr, node`child0, node`child1
      ensures Shape() && fresh(Repr - old(Repr)) && old(Repr) <= Repr
      ensures Ext(node.key, bit) in old(at) ==> at == old(at) && nxt == at[Ext(node.key, bit)]
      ensures Ext(node.key, bit) !in old(at) ==>
        at == old(at)[Ext(node.key, bit) := nxt] && fresh(nxt) && nxt.below == [] && nxt.rows == None
    {
      assert Linked(node.key);
      var child := node.Child(bit);
      if child != null {
        return child;
      }
      nxt := new Node(Ext(node.key, bit));
      Attach(node, bit, nxt);
    }

    method Attach(node: Node, bit: bool, child: Node)
      requires Shape()
      requires node.key in at && at[node.key] == node && node.key.Depth() < 32
      requires child.key == Ext(node.key, bit) && child.key !in at && child !in Repr
      requires child.child0 == null && child.child1 == null && child.count == 0 && child.below == []
      requires Ext(child.key, false) !in at && Ext(child.key, true) !in at
      modifies this`at, this`Repr, node`child0, node`child1
      ensures Shape() && Repr == old(Repr) + {child}
      ensures at == old(at)[child.key := child]
    {
      if !bit { node.child0 := child; } else { node.child1 := child; }
      at, Repr := at[child.key := child], Repr + {child};
      forall k {:trigger Linked(k)} | k in at ensures Linked(k) {
        assert old(Linked(k));
      }
    }

    /** The node of a prefix, or null. Shifting by a negative amount is an error in Python. */
    method Descend(prefixValue: int, prefixBits: nat) returns (r: Result<Node?, TrieError>)
      requires Valid()
      ensures prefixBits <= 32 ==> r == Ok(NodeAt(at, Path(prefixValue, prefixBits)))
      ensures prefixBits > 32 ==> r == if Path(prefixValue, 32) in at then Err(NegativeShift) else Ok(null)
    {
      var node := root;
      ghost var d := 0;
      var b := 31;
      while b > 31 - prefixBits
        invariant 31 - prefixBits <= b <= 31 && -1 <= b && d == 31 - b
        invariant Path(prefixValue, d) in at && node == at[Path(prefixValue, d)]
      {
        if b < 0 {
          return Err(NegativeShift);
        }
        var bit := TestBit(prefixValue, b);
        assert Linked(Path(prefixValue, d));
        assert Ext(Path(prefixValue, d), bit) == Path(prefixValue, d + 1);
        var nxt := node.Child(bit);
        if nxt == null {
          NoDeeper(log, prefixValue, d + 1, if prefixBits <= 32 then prefixBits else 32);
          return Ok(null);
        }
        node := nxt;
        b, d := b - 1, d + 1;
      }
      return Ok(node);
    }

    ghost predicate InTrie(x: Node)
      reads this
    {
      x.key in at && at[x.key] == x && x.key.Depth() <= 32
    }

    ghost predicate IsChild(x: Node, c: Node?)
      reads this
    {
      c != null ==> InTrie(c) && c.key.Depth() == x.key.Depth() + 1
    }

    /** The rows below a node, each once, in the order an explicit stack meets them. */
    method Gather(node: Node) returns (out: seq<nat>)
      requires Valid() && InTrie(node)
      ensures multiset(out) == Bag(log, node.key)
    {
      out := [];
      var stack: seq<Node> := [node];
      assert StackRows(log, stack[..0]) == multiset{} && stack[0] == node;
      hide Valid, Bag;
      while stack != []
        invariant forall i :: 0 <= i < |stack| ==> InTrie(stack[i])
        invariant multiset(out) + StackRows(log, stack) == ChildRows(log, node)
        decreases StackWeight(stack)
      {
        var x := stack[|stack| - 1];
        OneVisit(out, stack);
        out, stack := out + x.Listed(), Pushed(Pushed(stack[..|stack| - 1], x.child0), x.child1);
      }
    }

    /** One turn of the loop loses no row and repeats none, and leaves less to do. */
    lemma OneVisit(out: seq<nat>, stack: seq<Node>)
      requires Valid() && stack != [] && forall i :: 0 <= i < |stack| ==> InTrie(stack[i])
      ensures var x := stack[|stack| - 1];
        var next := Pushed(Pushed(stack[..|stack| - 1], x.child0), x.child1);
        && (forall i :: 0 <= i < |next| ==> InTrie(next[i]))
        && multiset(out + x.Listed()) + StackRows(log, next) == multiset(out) + StackRows(log, stack)
        && StackWeight(next) < StackWeight(stack)
    {
      var x := stack[|stack| - 1];
      NodeRows(x);
      var rest := stack[..|stack| - 1];
      Visit(log, stack, x.child0, x.child1);
      AllPushed(rest, x.child0, x.child1);
      assert multiset(out + x.Listed()) == multiset(out) + multiset(x.Listed());
      MoveOut(multiset(out), multiset(x.Listed()), StackRows(log, rest), ChildRows(log, x.child0), ChildRows(log, x.child1));
    }

    lemma AllPushed(stack: seq<Node>, left: Node?, right: Node?)
      requires forall i :: 0 <= i < |stack| ==> InTrie(stack[i])
      requires (left != null ==> InTrie(left)) && (right != null ==> InTrie(right))
      ensures var s := Pushed(Pushed(stack, left), right); forall i :: 0 <= i < |s| ==> InTrie(s[i])
    {
    }

    /** The rows below a node are its own list and those below its children. */
    lemma NodeRows(x: Node)
      requires Valid() && InTrie(x)
      ensures IsChild(x, x.child0) && IsChild(x, x.child1)
      ensures ChildRows(log, x) == multiset(x.Listed()) + ChildRows(log, x.child0) + ChildRows(log, x.child1)
    {
      ListedRows(x);
      ChildrenAre(x);
      hide Valid, Bag, RowsAt, Prefixes;
      if x.key.Depth() < 32 {
        InnerBag(log, x.key);
      } else {
        LeafBag(log, x.key);
      }
    }

    lemma ChildrenAre(x: Node)
      requires Valid() && InTrie(x)
      ensures IsChild(x, x.child0) && IsChild(x, x.child1)
      ensures ChildRows(log, x.child0)
           == if Ext(x.key, false) in Prefixes(log) then Bag(log, Ext(x.key, false)) else multiset{}
      ensures ChildRows(log, x.child1)
           == if Ext(x.key, true) in Prefixes(log) then Bag(log, Ext(x.key, true)) else multiset{}
    {
      hide Bag, RowsAt, Prefixes;
      assert Linked(x.key);
    }

    lemma ListedRows(x: Node)
      requires Valid() && InTrie(x)
      ensures x.Listed() == if x.key.Depth() < 32 then [] else RowsAt(log, x.key)
    {
      assert at[x.key].rows == x.rows && at[x.key].below == x.below;
    }

    /** All rows below a prefix, gathered and sorted. */
    method PrefixRows(prefixValue: int, prefixBits: nat) returns (r: Result<seq<nat>, TrieError>)
      requires Valid()
      ensures r == PrefixAnswer(log, prefixValue, prefixBits)
    {
      ghost var d := if prefixBits <= 32 then prefixBits else 32;
      PrefixesAre(log, Path(prefixValue, d));
      RowsAtIsUnder(log, prefixValue, d);
      var found := Descend(prefixValue, prefixBits);
      if found.Err? {
        return Err(found.error);
      }
      if found.value == null {
        return Ok([]);
      }
      var out := Gather(found.value);
      BagIs(log, found.value.key);
      SortRearranged(out, Under(log, prefixBits, Top(prefixValue, prefixBits)));
      r := Ok(SortBy(out, RowKey, false));
    }

    /** The subtree count of a prefix, read without walking it. */
    method PrefixCount(prefixValue: int, prefixBits: nat) returns (r: Result<nat, TrieError>)
      requires Valid()
      ensures PrefixAnswer(log, prefixValue, prefixBits).Ok? ==>
        r == Ok(|PrefixAnswer(log, prefixValue, prefixBits).value|)
      ensures PrefixAnswer(log, prefixValue, prefixBits).Err? ==> r.Err?
    {
      ghost var d := if prefixBits <= 32 then prefixBits else 32;
      PrefixesAre(log, Path(prefixValue, d));
      RowsAtIsUnder(log, prefixValue, d);
      SortBySorts(Under(log, d, Top(prefixValue, d)), RowKey, false);
      var found := Descend(prefixValue, prefixBits);
      if found.Err? {
        return Err(found.error);
      }
      r := Ok(if found.value != null then found.value.count else 0);
    }

    method ExactRows(value: int) returns (r: Result<seq<nat>, TrieError>)
      requires Valid()
      ensures r == PrefixAnswer(log, value, 32)
    {
      r := PrefixRows(value, 32);
    }
  }

  /** The next step of the path: not visited before, and without extensions if it is new. */
  lemma NextOnPath(log: seq<Entry>, v: int, d: nat, bit: bool)
    requires d < 32 && bit == TestBit(v, 31 - d)
    ensures var next := Ext(Path(v, d), bit);
      && next == Path(v, d + 1)
      && next !in PathSet(v, d)
      && PathSet(v, d + 1) == PathSet(v, d) + {next}
      && (next !in Prefixes(log) + PathSet(v, d) ==>
            && Ext(next, false) !in Prefixes(log) + PathSet(v, d)
            && Ext(next, true) !in Prefixes(log) + PathSet(v, d))
  {
    var next := Ext(Path(v, d), bit);
    PathSetIs(v, d, next);
    PathSetIs(v, d, Ext(next, false));
    PathSetIs(v, d, Ext(next, true));
    if Ext(next, false) in Prefixes(log) { PrefixesClosed(log, next, false); }
    if Ext(next, true) in Prefixes(log) { PrefixesClosed(log, next, true); }
  }

  /** At an inner position everything is below the extensions that have a node. */
  lemma InnerBag(log: seq<Entry>, k: Key)
    requires k.Depth() < 32
    ensures Bag(log, k)
         == (if Ext(k, false) in Prefixes(log) then Bag(log, Ext(k, false)) else multiset{})
          + (if Ext(k, true) in Prefixes(log) then Bag(log, Ext(k, true)) else multiset{})
  {
    BagSplit(log, k);
    NoNodeNoRows(log, Ext(k, false));
    NoNodeNoRows(log, Ext(k, true));
  }

  /** A leaf has no extensions, only its own list. */
  lemma LeafBag(log: seq<Entry>, k: Key)
    requires k.Depth() == 32
    ensures Bag(log, k) == multiset(RowsAt(log, k))
    ensures Ext(k, false) !in Prefixes(log) && Ext(k, true) !in Prefixes(log)
  {
    BagIs(log, k);
    if Ext(k, false) in Prefixes(log) { PrefixesClosed(log, k, false); }
    if Ext(k, true) in Prefixes(log) { PrefixesClosed(log, k, true); }
  }

  lemma NoNodeNoRows(log: seq<Entry>, k: Key)
    ensures k !in Prefixes(log) ==> RowsAt(log, k) == [] && Bag(log, k) == multiset{}
  {
    PrefixesAre(log, k);
    BagIs(log, k);
  }

  lemma {:induction false} NoDeeper(log: seq<Entry>, v: int, d: nat, e: nat)
    requires d <= e <= 32 && Path(v, d) !in Prefixes(log)
    ensures Path(v, e) !in Prefixes(log)
    decreases e
  {
    if d < e {
      NoDeeper(log, v, d, e - 1);
      var b := TestBit(v, 32 - e);
      assert Ext(Path(v, e - 1), b) == Path(v, e);
      if Path(v, e) in Prefixes(log) { PrefixesClosed(log, Path(v, e - 1), b); }
    }
  }

  // ---- The traversal's bookkeeping ---------------------------------------

  ghost function ChildRows(log: seq<Entry>, x: Node?): multiset<nat> {
    if x == null then multiset{} else Bag(log, x.key)
  }

  /** The rows still to be collected from the nodes on the stack. */
  ghost function StackRows(log: seq<Entry>, stack: seq<Node>): multiset<nat> {
    if stack == [] then multiset{}
    else StackRows(log, stack[..|stack| - 1]) + ChildRows(log, stack[|stack| - 1])
  }

  /** `stack.append(c)` unless the child is missing. */
  function Pushed(stack: seq<Node>, c: Node?): seq<Node> {
    if c == null then stack else var n: Node := c; stack + [n]
  }

  lemma MoveOut(out: multiset<nat>, own: multiset<nat>, rest: multiset<nat>, left: multiset<nat>, right: multiset<nat>)
    ensures (out + own) + (rest + left + right) == out + (rest + (own + left + right))
  {
  }

  lemma PushedRows(log: seq<Entry>, stack: seq<Node>, c: Node?)
    ensures StackRows(log, Pushed(stack, c)) == StackRows(log, stack) + ChildRows(log, c)
    ensures StackWeight(Pushed(stack, c)) == StackWeight(stack) + NodeWeight(c)
  {
    if c != null {
      assert Pushed(stack, c)[..|stack|] == stack;
    }
  }

  /** Replacing the top of the stack by its children. */
  lemma Visit(log: seq<Entry>, stack: seq<Node>, left: Node?, right: Node?)
    requires stack != []
    requires var x := stack[|stack| - 1];
      && (x.key.Depth() < 32 || (left == null && right == null))
      && (left != null ==> left.key.Depth() == x.key.Depth() + 1)
      && (right != null ==> right.key.Depth() == x.key.Depth() + 1)
    ensures var rest := stack[..|stack| - 1];
      && StackRows(log, stack) == StackRows(log, rest) + ChildRows(log, stack[|stack| - 1])
      && StackRows(log, Pushed(Pushed(rest, left), right)) == StackRows(log, rest) + ChildRows(log, left) + ChildRows(log, right)
      && StackWeight(Pushed(Pushed(rest, left), right)) < StackWeight(stack)
  {
    var rest := stack[..|stack| - 1];
    PushedRows(log, rest, left);
    PushedRows(log, Pushed(rest, left), right);
    WeightStep(stack[|stack| - 1], left, right);
  }

  /** A bound on the nodes of a subtree. */
  ghost function Weight(depth: nat): (w: nat)
    ensures w > 0
    decreases 32 - depth
  {
    if depth >= 32 then 1 else 1 + 2 * Weight(depth + 1)
  }

  ghost function NodeWeight(x: Node?): nat {
    if x == null then 0 else Weight(x.key.Depth())
  }

  ghost function StackWeight(stack: seq<Node>): nat {
    if stack == [] then 0 else StackWeight(stack[..|stack| - 1]) + NodeWeight(stack[|stack| - 1])
  }

  lemma WeightStep(x: Node, left: Node?, right: Node?)
    requires x.key.Depth() < 32 || (left == null && right == null)
    requires left != null ==> left.key.Depth() == x.key.Depth() + 1
    requires right != null ==> right.key.Depth() == x.key.Depth() + 1
    ensures NodeWeight(left) + NodeWeight(right) < NodeWeight(x)
  {
  }

  /** Sorting forgets the order in which the traversal met the rows. */
  lemma SortRearranged(a: seq<nat>, b: seq<nat>)
    requires multiset(a) == multiset(b)
    ensures SortBy(a, RowKey, false) == SortBy(b, RowKey, false)
  {
    var x, y := SortBy(a, RowKey, false), SortBy(b, RowKey, false);
    SortBySorts(a, RowKey, false);
    SortBySorts(b, RowKey, false);
    MultisetMap(x, y);
    OrderedKeysUnique(x, y, RowKey, false);
    forall i | 0 <= i < |x| ensures x[i] == y[i] {
      assert Map(RowKey, x)[i] == Map(RowKey, y)[i];
    }
  }
}
