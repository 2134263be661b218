/** The graph store as the synchronisation sees it: a list of node records
    and a list of relationship records, changed in place by MERGE and SET.
    `View` reads the lists as the maps of `Graph.GraphView`, and every
    operation is proved to do to that view what the Cypher semantics of
    module Graph says. */
module GraphStore {
  import opened Common
  import opened Graph

  /** One stored node or relationship: its identity and its properties. */
  datatype Entry<K> = Entry(key: K, props: Props)

  /** At most one record per key. */
  ghost predicate UniqueKeys<K>(s: seq<Entry<K>>)
  {
    forall i, j :: 0 <= i < j < |s| ==> s[i].key != s[j].key
  }

  /** The records read as a map from key to properties. */
  function ToMap<K(==)>(s: seq<Entry<K>>): map<K, Props>
    decreases |s|
  {
    if s == [] then map[] else ToMap(s[..|s| - 1])[s[|s| - 1].key := s[|s| - 1].props]
  }

  lemma {:induction false} ToMapKeys<K>(s: seq<Entry<K>>, k: K)
    ensures k in ToMap(s) <==> exists i :: 0 <= i < |s| && s[i].key == k
    decreases |s|
  {
    if s != [] {
      var init := s[..|s| - 1];
      ToMapKeys(init, k);
      if exists i :: 0 <= i < |s| && s[i].key == k {
        var i :| 0 <= i < |s| && s[i].key == k;
        if i < |init| {
          assert init[i].key == k;
        }
      }
    }
  }

  lemma {:induction false} ToMapAt<K>(s: seq<Entry<K>>, i: nat)
    requires UniqueKeys(s) && i < |s|
    ensures s[i].key in ToMap(s) && ToMap(s)[s[i].key] == s[i].props
    decreases |s|
  {
    if i < |s| - 1 {
      ToMapAt(s[..|s| - 1], i);
    }
  }

  lemma {:induction false} ToMapReplace<K>(s: seq<Entry<K>>, i: nat, e: Entry<K>)
    requires UniqueKeys(s) && i < |s| && s[i].key == e.key
    ensures UniqueKeys(s[i := e])
    ensures ToMap(s[i := e]) == ToMap(s)[e.key := e.props]
    decreases |s|
  {
    var t := s[i := e];
    if i == |s| - 1 {
      assert t[..|t| - 1] == s[..|s| - 1];
    } else {
      var init := s[..|s| - 1];
      ToMapReplace(init, i, e);
      assert t[..|t| - 1] == init[i := e];
    }
  }

  /** The position of the record with key `k`, or -1 when there is none. */
  method Find<K(==)>(s: seq<Entry<K>>, k: K) returns (i: int)
    ensures -1 <= i < |s|
    ensures i == -1 <==> forall j :: 0 <= j < |s| ==> s[j].key != k
    ensures 0 <= i ==> s[i].key == k
  {
    i := 0;
    while i < |s|
      invariant 0 <= i <= |s|
      invariant forall j :: 0 <= j < i ==> s[j].key != k
    {
      if s[i].key == k {
        return;
      }
      i := i + 1;
    }
    i := -1;
  }

  /** MERGE then SET on a list of records: update the record with the key in
      place, or append a new one with only the SET properties. */
  method Upsert<K(==)>(s: seq<Entry<K>>, w: Write<K>) returns (t: seq<Entry<K>>)
    requires UniqueKeys(s)
    ensures UniqueKeys(t)
    ensures ToMap(t) == ApplyWrites(ToMap(s), [w])
  {
    assert [w][..0] == [];
    var i := Find(s, w.key);
    if i >= 0 {
      ToMapAt(s, i);
      t := s[i := Entry(w.key, SetProps(s[i].props, w.props))];
      ToMapReplace(s, i, Entry(w.key, SetProps(s[i].props, w.props)));
    } else {
      ToMapKeys(s, w.key);
      t := s + [Entry(w.key, SetProps(map[], w.props))];
      assert t[..|t| - 1] == s;
    }
  }

  class GraphStore {
    var nodes: seq<Entry<NodeKey>>
    var edges: seq<Entry<EdgeKey>>

    /** MERGE never creates a second node or relationship with a key that
        is already stored. */
    ghost predicate Valid()
      reads this
    {
      UniqueKeys(nodes) && UniqueKeys(edges)
    }

    function View(): GraphView
      reads this
    {
      GraphView(ToMap(nodes), ToMap(edges))
    }

    constructor ()
      ensures Valid()
      ensures View() == GraphView(map[], map[])
    {
      nodes := [];
      edges := [];
    }

    /** Whether every MATCH of the row finds its node. */
    method RowMatched(op: RowOp) returns (b: bool)
      ensures b == Matched(View(), op)
    {
      var j := 0;
      while j < |op.matches|
        invariant 0 <= j <= |op.matches|
        invariant forall l :: 0 <= l < j ==> op.matches[l] in View().nodes
      {
        var f := Find(nodes, op.matches[j]);
        ToMapKeys(nodes, op.matches[j]);
        if f < 0 {
          return false;
        }
        j := j + 1;
      }
      return true;
    }

    /** One UNWIND iteration: nothing when a MATCH fails, otherwise MERGE and
        SET the node, then MERGE and SET each relationship in turn. */
    method RunRow(op: RowOp)
      requires Valid()
      modifies this
      ensures Valid()
      ensures View() == Step(old(View()), op)
    {
      var matched := RowMatched(op);
      if !matched {
        return;
      }
      if op.node.Some? {
        nodes := Upsert(nodes, op.node.value);
      }
      ghost var e0 := ToMap(edges);
      var t := 0;
      while t < |op.edges|
        invariant 0 <= t <= |op.edges|
        invariant Valid()
        invariant ToMap(nodes) == ApplyWrites(old(ToMap(nodes)), NodeWrites(op))
        invariant ToMap(edges) == ApplyWrites(e0, op.edges[..t])
      {
        edges := Upsert(edges, op.edges[t]);
        ApplyWritesAppend(e0, op.edges[..t], [op.edges[t]]);
        assert op.edges[..t + 1] == op.edges[..t] + [op.edges[t]];
        t := t + 1;
      }
      assert op.edges[..|op.edges|] == op.edges;
    }

    /** `session.run(cypher, rows=rows)` for a statement `UNWIND $rows AS row
        ...`: the rows one after another. */
    method Run(ops: seq<RowOp>)
      requires Valid()
      modifies this
      ensures Valid()
      ensures View() == Apply(old(View()), ops)
    {
      var i := 0;
      while i < |ops|
        invariant 0 <= i <= |ops|
        invariant Valid()
        invariant View() == Apply(old(View()), ops[..i])
      {
        RunRow(ops[i]);
        assert ops[..i + 1][..i] == ops[..i];
        i := i + 1;
      }
      assert ops[..|ops|] == ops;
    }
  }

  /** The store never holds two records for one node or relationship. */
  lemma AtMostOneNodePerKey(store: GraphStore, i: nat, j: nat)
    requires store.Valid()
    requires i < |store.nodes| && j < |store.nodes| && store.nodes[i].key == store.nodes[j].key
    ensures i == j
  {
  }
}
