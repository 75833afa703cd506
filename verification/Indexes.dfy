/** The index set of a store: built in bulk or grown record by record (packetql/index/indexes.py). */
module Indexes {
  import opened Wrappers
  import opened Seqs
  import opened Text
  import opened Ast
  import opened Predicate
  import opened IndexLog
  import opened IndexPlan
  import Trie
  import Bitmap
  import PortHash

  /** The five indexed fields of a record. */
  datatype Indexed = Indexed(srcIp: nat, dstIp: nat, srcPort: nat, dstPort: nat, protocol: nat)

  function IndexedField(r: Indexed, col: string): nat {
    if col == "src_ip" then r.srcIp else if col == "dst_ip" then r.dstIp
    else if col == "src_port" then r.srcPort else if col == "dst_port" then r.dstPort else r.protocol
  }

  function IndexedColumn(recs: seq<Indexed>, col: string): (s: seq<int>)
    ensures |s| == |recs|
  {
    seq(|recs|, i requires 0 <= i < |recs| => IndexedField(recs[i], col))
  }

  /** Adding the record that follows `recs` extends every bulk log by one entry. */
  lemma IndexedPush(recs: seq<Indexed>, r: Indexed, col: string)
    ensures Enumerate(IndexedColumn(recs + [r], col))
         == Enumerate(IndexedColumn(recs, col)) + [Entry(IndexedField(r, col), |recs|)]
  {
    assert IndexedColumn(recs + [r], col) == IndexedColumn(recs, col) + [IndexedField(r, col)];
    EnumeratePush(IndexedColumn(recs, col), IndexedField(r, col));
  }

  /** What the five indexes have been given so far. */
  datatype Logs = Logs(srcIp: seq<Entry>, dstIp: seq<Entry>, srcPort: seq<Entry>, dstPort: seq<Entry>, proto: seq<Entry>)

  /** One record more, in every index. */
  function Logged(l: Logs, rec: Indexed, row: nat): Logs {
    Logs(l.srcIp + [Entry(rec.srcIp, row)], l.dstIp + [Entry(rec.dstIp, row)],
         l.srcPort + [Entry(rec.srcPort, row)], l.dstPort + [Entry(rec.dstPort, row)],
         l.proto + [Entry(rec.protocol, row)])
  }

  /** The logs of a bulk build from these columns. */
  function BuiltLogs(t: Columns): Logs
    requires t.Keys == NAMES
  {
    Logs(Enumerate(t["src_ip"]), Enumerate(t["dst_ip"]), Enumerate(t["src_port"]), Enumerate(t["dst_port"]),
         Enumerate(t["proto"]))
  }

  const NO_LOGS: Logs := Logs([], [], [], [], [])

  /** The logs after records were added to some earlier logs, at consecutive rows. */
  function GrownFrom(base: Logs, row: nat, recs: seq<Indexed>): Logs {
    if recs == [] then base
    else
      var n := |recs| - 1;
      Logged(GrownFrom(base, row, recs[..n]), recs[n], row + n)
  }

  lemma GrownPush(base: Logs, row: nat, recs: seq<Indexed>, rec: Indexed)
    ensures GrownFrom(base, row, recs + [rec]) == Logged(GrownFrom(base, row, recs), rec, row + |recs|)
  {
    assert (recs + [rec])[..|recs|] == recs;
  }

  /** The columns that are indexed. */
  const INDEXED: set<string> := {"src_ip", "dst_ip", "src_port", "dst_port", "proto"}

  /** The logs of a bulk build from columns that hold these records. */
  function RecordLogs(recs: seq<Indexed>): Logs {
    Logs(Enumerate(IndexedColumn(recs, "src_ip")), Enumerate(IndexedColumn(recs, "dst_ip")),
         Enumerate(IndexedColumn(recs, "src_port")), Enumerate(IndexedColumn(recs, "dst_port")),
         Enumerate(IndexedColumn(recs, "proto")))
  }

  lemma RecordLogsPush(recs: seq<Indexed>, rec: Indexed)
    ensures RecordLogs(recs + [rec]) == Logged(RecordLogs(recs), rec, |recs|)
  {
    IndexedPush(recs, rec, "src_ip");
    IndexedPush(recs, rec, "dst_ip");
    IndexedPush(recs, rec, "src_port");
    IndexedPush(recs, rec, "dst_port");
    IndexedPush(recs, rec, "proto");
  }

  lemma LoggedInjective(a: Logs, b: Logs, rec: Indexed, row: nat)
    ensures Logged(a, rec, row) == Logged(b, rec, row) <==> a == b
  {
    LastCancels(a.srcIp, b.srcIp, Entry(rec.srcIp, row));
    LastCancels(a.dstIp, b.dstIp, Entry(rec.dstIp, row));
    LastCancels(a.srcPort, b.srcPort, Entry(rec.srcPort, row));
    LastCancels(a.dstPort, b.dstPort, Entry(rec.dstPort, row));
    LastCancels(a.proto, b.proto, Entry(rec.protocol, row));
  }

  lemma LastCancels(a: seq<Entry>, b: seq<Entry>, e: Entry)
    ensures a + [e] == b + [e] <==> a == b
  {
    assert (a + [e])[..|a + [e]| - 1] == a && (b + [e])[..|b + [e]| - 1] == b;
  }

  /** Growing an index set by the records that follow `before` gives a bulk build from all of them exactly when it
      started as a bulk build from `before`. */
  lemma {:induction false} GrownIsBuilt(base: Logs, before: seq<Indexed>, recs: seq<Indexed>)
    ensures GrownFrom(base, |before|, recs) == RecordLogs(before + recs) <==> base == RecordLogs(before)
  {
    if recs == [] {
      assert before + recs == before;
    } else {
      var n := |recs| - 1;
      GrownIsBuilt(base, before, recs[..n]);
      assert before + recs == (before + recs[..n]) + [recs[n]];
      RecordLogsPush(before + recs[..n], recs[n]);
      LoggedInjective(GrownFrom(base, |before|, recs[..n]), RecordLogs(before + recs[..n]), recs[n], |before| + n);
    }
  }

  class PacketIndexes {
    const srcIp: Trie.BitTrie
    const dstIp: Trie.BitTrie
    const srcPort: PortHash.PortTable
    const dstPort: PortHash.PortTable
    const proto: Bitmap.BitmapIndex
    var rowCount: nat

    ghost var Repr: set<object>        // every object of the five indexes

    ghost predicate Valid()
      reads this, Repr
    {
      && {this, srcIp, dstIp, srcPort, srcPort.table, dstPort, dstPort.table, proto} <= Repr
      && srcIp.Repr <= Repr && dstIp.Repr <= Repr
      && srcIp != dstIp && srcIp.Repr !! dstIp.Repr && srcPort != dstPort && srcPort.table != dstPort.table
      && srcIp.Valid() && dstIp.Valid() && srcPort.Valid() && dstPort.Valid() && proto.Valid()
      && rowCount == RowBound(proto.log)
    }

    ghost method TrackObjects()
      modifies this`Repr
      ensures Repr == {this, srcIp, dstIp, srcPort, srcPort.table, dstPort, dstPort.table, proto} + srcIp.Repr + dstIp.Repr
    {
      Repr := {this, srcIp, dstIp, srcPort, srcPort.table, dstPort, dstPort.table, proto} + srcIp.Repr + dstIp.Repr;
    }

    ghost function Now(): Logs
      reads this, srcIp, dstIp, srcPort, dstPort, proto
    {
      Logs(srcIp.log, dstIp.log, srcPort.log, dstPort.log, proto.log)
    }

    /** The indexes are those of a bulk build from a store's columns. */
    ghost predicate Represents(t: Columns, n: nat)
      reads this, srcIp, dstIp, srcPort, dstPort, proto
    {
      StoreColumns(t, n) && rowCount == n && Now() == BuiltLogs(t)
    }

    /** The five indexes, built elsewhere. */
    constructor (src: Trie.BitTrie, dst: Trie.BitTrie, srcPorts: PortHash.PortTable, dstPorts: PortHash.PortTable,
                 protos: Bitmap.BitmapIndex, n: nat)
      requires src.Valid() && dst.Valid() && srcPorts.Valid() && dstPorts.Valid() && protos.Valid()
      requires src != dst && src.Repr !! dst.Repr && srcPorts != dstPorts && srcPorts.table != dstPorts.table
      requires n == RowBound(protos.log)
      ensures Valid() && rowCount == n
      ensures Now() == Logs(src.log, dst.log, srcPorts.log, dstPorts.log, protos.log)
      ensures Repr == {this, src, srcPorts, srcPorts.table, dst, dstPorts, dstPorts.table, protos} + src.Repr + dst.Repr
    {
      srcIp, dstIp, srcPort, dstPort, proto, rowCount := src, dst, srcPorts, dstPorts, protos, n;
      hide Trie.BitTrie.Valid, PortHash.PortTable.Valid, Bitmap.BitmapIndex.Valid, RowBound;
      new;
      TrackObjects();
    }

    /** `build` */
    static method Build(t: Columns, n: nat) returns (ix: PacketIndexes)
      requires StoreColumns(t, n)
      ensures ix.Valid() && ix.Represents(t, n)
      ensures fresh(ix.Repr)
    {
      RowBoundEnumerate(t["proto"]);
      ix := Bulk(t["src_ip"], t["dst_ip"], t["src_port"], t["dst_port"], t["proto"], n);
    }

    /** `empty` */
    static method Empty() returns (ix: PacketIndexes)
      ensures ix.Valid() && ix.Now() == NO_LOGS && ix.rowCount == 0
      ensures fresh(ix.Repr)
    {
      assert Enumerate([]) == [];
      ix := Bulk([], [], [], [], [], 0);
    }

    static method Bulk(src: seq<int>, dst: seq<int>, srcPorts: seq<int>, dstPorts: seq<int>, protos: seq<int>, n: nat)
        returns (ix: PacketIndexes)
      requires forall i :: 0 <= i < |srcPorts| ==> 0 <= srcPorts[i] < PortHash.NUM_PORTS
      requires forall i :: 0 <= i < |dstPorts| ==> 0 <= dstPorts[i] < PortHash.NUM_PORTS
      requires n == RowBound(Enumerate(protos))
      ensures ix.Valid() && ix.rowCount == n && fresh(ix.Repr)
      ensures ix.Now() ==
        Logs(Enumerate(src), Enumerate(dst), Enumerate(srcPorts), Enumerate(dstPorts), Enumerate(protos))
    {
      hide Trie.BitTrie.Valid, PortHash.PortTable.Valid, Bitmap.BitmapIndex.Valid, Enumerate, RowBound;
      var srcTrie, dstTrie := NewTries(src, dst);
      var srcTable, dstTable := NewTables(srcPorts, dstPorts);
      var bitmap := new Bitmap.BitmapIndex(protos);
      ghost var parts: set<object> :=
        {srcTrie, dstTrie, srcTable, srcTable.table, dstTable, dstTable.table, bitmap} + srcTrie.Repr + dstTrie.Repr;
      assert fresh(parts);
      ix := new PacketIndexes(srcTrie, dstTrie, srcTable, dstTable, bitmap, n);
      assert ix.Repr == {ix} + parts;
    }

    static method NewTries(src: seq<int>, dst: seq<int>) returns (a: Trie.BitTrie, b: Trie.BitTrie)
      ensures a.Valid() && b.Valid() && a.log == Enumerate(src) && b.log == Enumerate(dst)
      ensures fresh(a.Repr) && fresh(b.Repr) && fresh({a, b}) && a != b && a.Repr !! b.Repr
    {
      hide Trie.BitTrie.Valid, Enumerate;
      a := new Trie.BitTrie(src);
      b := new Trie.BitTrie(dst);
    }

    static method NewTables(src: seq<int>, dst: seq<int>) returns (a: PortHash.PortTable, b: PortHash.PortTable)
      requires forall i :: 0 <= i < |src| ==> 0 <= src[i] < PortHash.NUM_PORTS
      requires forall i :: 0 <= i < |dst| ==> 0 <= dst[i] < PortHash.NUM_PORTS
      ensures a.Valid() && b.Valid() && a.log == Enumerate(src) && b.log == Enumerate(dst)
      ensures fresh({a, b, a.table, b.table}) && a != b && a.table != b.table
    {
      hide PortHash.PortTable.Valid, Enumerate;
      a := new PortHash.PortTable(src);
      b := new PortHash.PortTable(dst);
    }

    /** Index one record at a row. */
    method Add(rec: Indexed, row: nat)
      requires Valid()
      requires rec.srcPort < PortHash.NUM_PORTS && rec.dstPort < PortHash.NUM_PORTS
      modifies Repr
      ensures Valid() && fresh(Repr - old(Repr))
      ensures Now() == Logged(old(Now()), rec, row)
      ensures rowCount == if row + 1 > old(rowCount) then row + 1 else old(rowCount)
    {
      hide Trie.BitTrie.Valid;
      hide PortHash.PortTable.Valid;
      hide Bitmap.BitmapIndex.Valid;
      hide RowBound;
      RowBoundPush(proto.log, Entry(rec.protocol, row));
      AddAddresses(rec, row);
      AddPorts(rec, row);
      proto.Add(rec.protocol, row);
      rowCount := if row + 1 > rowCount then row + 1 else rowCount;
      TrackObjects();
    }

    method AddPorts(rec: Indexed, row: nat)
      requires srcPort.Valid() && dstPort.Valid() && srcPort != dstPort && srcPort.table != dstPort.table
      requires rec.srcPort < PortHash.NUM_PORTS && rec.dstPort < PortHash.NUM_PORTS
      modifies srcPort`log, srcPort.table, dstPort`log, dstPort.table
      ensures srcPort.Valid() && dstPort.Valid()
      ensures srcPort.log == old(srcPort.log) + [Entry(rec.srcPort, row)] && dstPort.log == old(dstPort.log) + [Entry(rec.dstPort, row)]
    {
      hide PortHash.PortTable.Valid;
      srcPort.Add(rec.srcPort, row);
      dstPort.Add(rec.dstPort, row);
    }

    method AddAddresses(rec: Indexed, row: nat)
      requires Valid()
      modifies srcIp, srcIp.Repr, dstIp, dstIp.Repr
      ensures srcIp.Valid() && dstIp.Valid() && srcIp.Repr !! dstIp.Repr
      ensures fresh(srcIp.Repr - old(srcIp.Repr)) && fresh(dstIp.Repr - old(dstIp.Repr))
      ensures srcIp.log == old(srcIp.log) + [Entry(rec.srcIp, row)] && dstIp.log == old(dstIp.log) + [Entry(rec.dstIp, row)]
    {
      hide Trie.BitTrie.Valid;
      hide PortHash.PortTable.Valid;
      hide Bitmap.BitmapIndex.Valid;
      srcIp.Add(rec.srcIp, row);
      dstIp.Add(rec.dstIp, row);
    }

    method ResolveEq(col: string, lit: Value, ghost t: Columns, ghost n: nat) returns (r: Result<seq<nat>, IndexError>)
      requires Valid() && Represents(t, n) && col in {"proto"} + HASH_COLS + TRIE_COLS
      ensures r == (if col == "proto" then Ok(BitmapRows(t[col], lit))
                    else if col in HASH_COLS then PortRows(t[col], lit) else AddressRows(t[col], lit))
    {
      hide Trie.BitTrie.Valid;
      hide PortHash.PortTable.Valid;
      hide Bitmap.BitmapIndex.Valid;
      if col == "proto" {
        if LookupKey(lit) == None { return Ok([]); }
        var rows := proto.RowsFor(LookupKey(lit).value);
        r := Ok(rows);
      } else if col in HASH_COLS {
        if lit.IntV? {
          var rows;
          if col == "src_port" { rows := srcPort.Lookup(lit.i); } else { rows := dstPort.Lookup(lit.i); }
          r := Ok(rows);
        } else {
          r := if IsNumber(lit) && !(0.0 <= NumberOf(lit) < 65536.0) then Ok([]) else Err(IndexError.TypeError);
        }
      } else {
        if !lit.IntV? { return Err(IndexError.TypeError); }
        var rows;
        if col == "src_ip" { rows := srcIp.ExactRows(lit.i); } else { rows := dstIp.ExactRows(lit.i); }
        r := if rows.Ok? then Ok(rows.value) else Err(IndexError.ValueError);
      }
    }

    /** `_resolve` */
    method Resolve(conj: Expr, ghost t: Columns, ghost n: nat) returns (r: Result<Option<seq<nat>>, IndexError>)
      requires Valid() && Represents(t, n)
      ensures !Sargable(conj) ==> r == Ok(None)
      ensures Sargable(conj) && ResolveRows(t, conj).Ok? ==> r == Ok(Some(ResolveRows(t, conj).value))
      ensures Sargable(conj) && ResolveRows(t, conj).Err? ==> r == Err(ResolveRows(t, conj).error)
    {
      hide Trie.BitTrie.Valid;
      hide PortHash.PortTable.Valid;
      hide Bitmap.BitmapIndex.Valid;
      if !Sargable(conj) { return Ok(None); }
      var rows: Result<seq<nat>, IndexError>;
      if conj.op == Eq {
        var (col, lit) := ColLit(conj.left, conj.right).value;
        rows := ResolveEq(col, lit, t, n);
      } else {
        var range := LikeToPrefix(conj.right.value.s);
        if range.Err? { return Err(IndexError.ValueError); }
        var (value, bits) := range.value;
        var found;
        if conj.left.name == "src_ip" { found := srcIp.PrefixRows(value, bits); }
        else { found := dstIp.PrefixRows(value, bits); }
        rows := if found.Ok? then Ok(found.value) else Err(IndexError.ValueError);
      }
      r := if rows.Ok? then Ok(Some(rows.value)) else Err(rows.error);
    }

    /** One conjunct more: its rows, or one more residual conjunct. */
    method GatherOne(c: Expr, before: Gathered, ghost t: Columns, ghost n: nat, ghost cs: seq<Expr>)
        returns (r: Result<Gathered, IndexError>)
      requires Valid() && Represents(t, n) && t.Keys == NAMES && Gather(t, cs) == Ok(before)
      ensures r == Gather(t, cs + [c])
    {
      assert (cs + [c])[..|cs|] == cs;
      var resolved := Resolve(c, t, n);
      if resolved.Err? { return Err(resolved.error); }
      if resolved.value == None {
        r := Ok(before.(residual := before.residual + [c]));
      } else {
        r := Ok(before.(rowsets := before.rowsets + [resolved.value.value]));
      }
    }

    /** The loop of `choose` over the conjuncts. */
    method GatherAll(cs: seq<Expr>, ghost t: Columns, ghost n: nat) returns (r: Result<Gathered, IndexError>)
      requires Valid() && Represents(t, n) && t.Keys == NAMES
      ensures r == Gather(t, cs)
    {
      hide Valid;
      hide Represents;
      var g := Gathered([], []);
      for i := 0 to |cs|
        invariant Gather(t, cs[..i]) == Ok(g)
      {
        assert cs[..i + 1] == cs[..i] + [cs[i]];
        var one := GatherOne(cs[i], g, t, n, cs[..i]);
        if one.Err? {
          GatherFails(t, cs, i + 1);
          return one;
        }
        g := one.value;
      }
      assert cs[..|cs|] == cs;
      r := Ok(g);
    }

    /** `choose` */
    method ChoosePlan(where: Expr, storeRows: nat, ghost t: Columns, ghost n: nat)
        returns (r: Result<Option<Choice>, IndexError>)
      requires Valid() && Represents(t, n) && t.Keys == NAMES
      ensures r == Choose(t, storeRows, where)
    {
      var gathered := GatherAll(Conjuncts(where), t, n);
      if gathered.Err? { return Err(gathered.error); }
      var g := gathered.value;
      if g.rowsets == [] { return Ok(None); }
      var common := IntersectAll(g.rowsets);
      var candidates := SortedSet(common);
      r := Ok(if |candidates| >= storeRows then None else Some(Choice(candidates, RebuildAnd(g.residual))));
    }
  }

  /** Compound pushdown: intersect the row sets one after another. */
  method IntersectAll(rowsets: seq<seq<nat>>) returns (candidates: set<nat>)
    requires rowsets != []
    ensures candidates == Intersection(rowsets)
  {
    candidates := RowSet(rowsets[0]);
    var k := 1;
    while k < |rowsets|
      invariant 1 <= k <= |rowsets|
      invariant candidates == Intersection(rowsets[..k])
    {
      assert rowsets[..k + 1][..k] == rowsets[..k];
      candidates := candidates * RowSet(rowsets[k]);
      k := k + 1;
    }
    assert rowsets[..k] == rowsets;
  }

  /** The first failing conjunct decides. */
  lemma {:induction false} GatherFails(t: Columns, cs: seq<Expr>, k: nat)
    requires t.Keys == NAMES && k <= |cs| && Gather(t, cs[..k]).Err?
    ensures Gather(t, cs) == Gather(t, cs[..k])
  {
    if k < |cs| {
      assert cs[..|cs| - 1][..k] == cs[..k];
      GatherFails(t, cs[..|cs| - 1], k);
    } else {
      assert cs[..k] == cs;
    }
  }
}
