/** The graph store as a value, and the meaning of the synchronisation
    queries run against it.

    Every stage of the graph synchronisation is one Cypher statement of the
    shape

        UNWIND $rows AS row
        MATCH (p1:L1 {postgres_id: ...}), (p2:L2 {postgres_id: ...})
        MERGE (n:L {postgres_id: row.id})
        SET n.a = row.a, ...
        MERGE (p1)-[:R]->(n)
        [SET on the relationship]

    A `RowOp` is one iteration of the UNWIND: the node keys the MATCH clauses
    look up, the node the MERGE finds or creates together with the properties
    its SET writes, and the relationships the later MERGE clauses find or
    create together with the properties set on them. When any MATCH finds
    nothing the row produces no result and the rest of the statement is
    skipped for that row. */
module Graph {
  import opened Common

  datatype Label =
    | University | Institute | Department | Specialty | Group | Course | Lecture
    | Student | ScheduleEvent | Material | StudentGroup

  datatype Rel =
    | HasInstitute | HasDepartment | HasSpecialty | HasGroup | OffersCourse
    | IncludesLecture | MemberOf | ScheduledFor | OfLecture | Attended
    | UsesMaterial | TakesCourse

  /** A property value as the driver hands it to the store; `Null` is a SQL
      NULL (Python `None`). Dates are day numbers. */
  datatype Value = Null | IntV(i: int) | StrV(s: string) | BoolV(b: bool) | DateV(day: int)

  type Props = map<string, Value>

  /** Row columns as the driver passes them: a NULL column becomes `Null`. */
  function TextValue(o: Option<string>): Value
  {
    if o.Some? then StrV(o.value) else Null
  }

  function IntValue(o: Option<int>): Value
  {
    if o.Some? then IntV(o.value) else Null
  }

  function BoolValue(o: Option<bool>): Value
  {
    if o.Some? then BoolV(o.value) else Null
  }

  /** Cypher `date(x)`, which is NULL for a NULL argument. */
  function DateValue(o: Option<int>): Value
  {
    if o.Some? then DateV(o.value) else Null
  }

  /** Nodes are identified by their label and their `postgres_id` property. */
  datatype NodeKey = NodeKey(kind: Label, pid: int)

  /** A relationship is identified by its endpoints and its type. */
  datatype EdgeKey = EdgeKey(src: NodeKey, rel: Rel, dst: NodeKey)

  datatype GraphView = GraphView(nodes: map<NodeKey, Props>, edges: map<EdgeKey, Props>)

  /** One MERGE-then-SET on the entity with key `key`. */
  datatype Write<K> = Write(key: K, props: Props)

  // ---------------------------------------------------------------------------
  // SET
  // ---------------------------------------------------------------------------

  /** `SET x.p = v, ...`: each listed property takes its new value, and a
      NULL value removes the property; unlisted properties are kept. */
  function SetProps(a: Props, u: Props): (r: Props)
    ensures forall p :: p in u ==> (p in r <==> u[p] != Null)
    ensures forall p :: p in u && p in r ==> r[p] == u[p]
    ensures forall p :: p !in u ==> (p in r <==> p in a)
    ensures forall p :: p !in u && p in r ==> r[p] == a[p]
  {
    map p | p in a.Keys + u.Keys && (p in u ==> u[p] != Null) :: if p in u then u[p] else a[p]
  }

  /** Two SETs in a row are one SET of their union, the later one winning. */
  lemma SetPropsCompose(a: Props, u1: Props, u2: Props)
    ensures SetProps(SetProps(a, u1), u2) == SetProps(a, u1 + u2)
  {
    var l, r := SetProps(SetProps(a, u1), u2), SetProps(a, u1 + u2);
    assert forall p :: p in l <==> p in r;
    assert forall p :: p in l ==> l[p] == r[p];
  }

  lemma SetPropsIdempotent(a: Props, u: Props)
    ensures SetProps(SetProps(a, u), u) == SetProps(a, u)
  {
    SetPropsCompose(a, u, u);
    assert u + u == u;
  }

  // ---------------------------------------------------------------------------
  // Sequences of MERGE-then-SET writes on one kind of entity
  // ---------------------------------------------------------------------------

  function Get<K(==)>(m: map<K, Props>, k: K): Props
  {
    if k in m then m[k] else map[]
  }

  /** MERGE finds the entity with the key or creates it with no properties;
      SET then updates it. Applied to the writes in order. */
  function ApplyWrites<K(==)>(m: map<K, Props>, ws: seq<Write<K>>): map<K, Props>
    decreases |ws|
  {
    if ws == [] then m
    else
      var before := ApplyWrites(m, ws[..|ws| - 1]);
      var w := ws[|ws| - 1];
      before[w.key := SetProps(Get(before, w.key), w.props)]
  }

  function KeysOf<K(==)>(ws: seq<Write<K>>): set<K>
    decreases |ws|
  {
    if ws == [] then {} else KeysOf(ws[..|ws| - 1]) + {ws[|ws| - 1].key}
  }

  /** The combined SET of all writes to `k`, later writes winning. */
  function Combined<K(==)>(ws: seq<Write<K>>, k: K): Props
    decreases |ws|
  {
    if ws == [] then map[]
    else
      var w := ws[|ws| - 1];
      Combined(ws[..|ws| - 1], k) + (if w.key == k then w.props else map[])
  }

  /** What a run of writes leaves at each key: the keys written are present
      and carry the combined SET applied to what was there; every other key
      is untouched. */
  lemma {:induction false} ApplyWritesAt<K>(m: map<K, Props>, ws: seq<Write<K>>, k: K)
    ensures k in ApplyWrites(m, ws) <==> k in m || k in KeysOf(ws)
    ensures k in KeysOf(ws) ==> ApplyWrites(m, ws)[k] == SetProps(Get(m, k), Combined(ws, k))
    ensures k !in KeysOf(ws) && k in m ==> ApplyWrites(m, ws)[k] == m[k]
    decreases |ws|
  {
    if ws != [] {
      var init := ws[..|ws| - 1];
      var w := ws[|ws| - 1];
      ApplyWritesAt(m, init, k);
      if w.key == k {
        if k in KeysOf(init) {
          SetPropsCompose(Get(m, k), Combined(init, k), w.props);
        } else {
          assert Combined(init, k) == map[] by { CombinedUnwritten(init, k); }
          assert map[] + w.props == w.props;
          assert Get(ApplyWrites(m, init), k) == Get(m, k);
          SetPropsCompose(Get(m, k), map[], w.props);
          assert SetProps(Get(m, k), map[]) == Get(m, k);
        }
      } else {
        assert Combined(ws, k) == Combined(init, k) + map[];
        assert Combined(init, k) + map[] == Combined(init, k);
      }
    }
  }

  lemma {:induction false} CombinedUnwritten<K>(ws: seq<Write<K>>, k: K)
    requires k !in KeysOf(ws)
    ensures Combined(ws, k) == map[]
    decreases |ws|
  {
    if ws != [] {
      CombinedUnwritten(ws[..|ws| - 1], k);
    }
  }

  lemma {:induction false} ApplyWritesAppend<K>(m: map<K, Props>, a: seq<Write<K>>, b: seq<Write<K>>)
    ensures ApplyWrites(m, a + b) == ApplyWrites(ApplyWrites(m, a), b)
    decreases |b|
  {
    if b == [] {
      assert a + b == a;
    } else {
      assert (a + b)[..|a + b| - 1] == a + b[..|b| - 1];
      ApplyWritesAppend(m, a, b[..|b| - 1]);
    }
  }

  /** Replaying the same writes changes nothing: every key they touch already
      carries the combined SET, and applying it again is a no-op. */
  lemma ApplyWritesIdempotent<K>(m: map<K, Props>, ws: seq<Write<K>>)
    ensures ApplyWrites(ApplyWrites(m, ws), ws) == ApplyWrites(m, ws)
  {
    var m1 := ApplyWrites(m, ws);
    var m2 := ApplyWrites(m1, ws);
    forall k | k in m1.Keys + m2.Keys
      ensures k in m1 && k in m2 && m2[k] == m1[k]
    {
      ApplyWritesAt(m, ws, k);
      ApplyWritesAt(m1, ws, k);
      if k in KeysOf(ws) {
        SetPropsIdempotent(Get(m, k), Combined(ws, k));
      }
    }
    assert m2.Keys == m1.Keys;
  }

  /** Last write wins: the value at a key is what the last write to that key
      made of the state just before it. */
  lemma {:induction false} ApplyWritesLastWins<K>(m: map<K, Props>, ws: seq<Write<K>>, i: nat)
    requires i < |ws|
    requires forall j :: i < j < |ws| ==> ws[j].key != ws[i].key
    ensures ws[i].key in ApplyWrites(m, ws)
    ensures ApplyWrites(m, ws)[ws[i].key] == SetProps(Get(ApplyWrites(m, ws[..i]), ws[i].key), ws[i].props)
    decreases |ws|
  {
    if i < |ws| - 1 {
      var init := ws[..|ws| - 1];
      assert init[..i] == ws[..i];
      ApplyWritesLastWins(m, init, i);
    } else {
      assert ws[..|ws| - 1] == ws[..i];
    }
  }

  // ---------------------------------------------------------------------------
  // One UNWIND iteration of a MERGE statement
  // ---------------------------------------------------------------------------

  datatype RowOp = RowOp(matches: seq<NodeKey>, node: Option<Write<NodeKey>>, edges: seq<Write<EdgeKey>>)

  /** Every MATCH clause of the row finds its node. */
  predicate Matched(g: GraphView, op: RowOp)
  {
    forall i :: 0 <= i < |op.matches| ==> op.matches[i] in g.nodes
  }

  function NodeWrites(op: RowOp): seq<Write<NodeKey>>
  {
    if op.node.Some? then [op.node.value] else []
  }

  /** A relationship of the row only joins nodes the row matched or merged. */
  predicate Endpoint(op: RowOp, k: NodeKey)
  {
    k in op.matches || (op.node.Some? && op.node.value.key == k)
  }

  predicate WellFormed(op: RowOp)
  {
    forall i :: 0 <= i < |op.edges| ==> Endpoint(op, op.edges[i].key.src) && Endpoint(op, op.edges[i].key.dst)
  }

  /** One row: skipped when a MATCH fails, otherwise MERGE/SET the node and
      then MERGE/SET each relationship. */
  function Step(g: GraphView, op: RowOp): GraphView
  {
    if !Matched(g, op) then g
    else GraphView(ApplyWrites(g.nodes, NodeWrites(op)), ApplyWrites(g.edges, op.edges))
  }

  /** A whole statement: the rows in the order the UNWIND produces them. */
  function Apply(g: GraphView, ops: seq<RowOp>): GraphView
    decreases |ops|
  {
    if ops == [] then g else Step(Apply(g, ops[..|ops| - 1]), ops[|ops| - 1])
  }

  predicate NoDangling(g: GraphView)
  {
    forall e :: e in g.edges ==> e.src in g.nodes && e.dst in g.nodes
  }

  predicate AllWellFormed(ops: seq<RowOp>)
  {
    forall i :: 0 <= i < |ops| ==> WellFormed(ops[i])
  }

  // ---------------------------------------------------------------------------
  // What a statement reads and writes
  // ---------------------------------------------------------------------------

  function LabelsOf(ks: seq<NodeKey>): set<Label>
  {
    set i | 0 <= i < |ks| :: ks[i].kind
  }

  function RelsOf(ws: seq<Write<EdgeKey>>): set<Rel>
  {
    set i | 0 <= i < |ws| :: ws[i].key.rel
  }

  function ReadLabels(ops: seq<RowOp>): set<Label>
    decreases |ops|
  {
    if ops == [] then {} else ReadLabels(ops[..|ops| - 1]) + LabelsOf(ops[|ops| - 1].matches)
  }

  function WrittenLabels(ops: seq<RowOp>): set<Label>
    decreases |ops|
  {
    if ops == [] then {}
    else
      var op := ops[|ops| - 1];
      WrittenLabels(ops[..|ops| - 1]) + (if op.node.Some? then {op.node.value.key.kind} else {})
  }

  function WrittenRels(ops: seq<RowOp>): set<Rel>
    decreases |ops|
  {
    if ops == [] then {} else WrittenRels(ops[..|ops| - 1]) + RelsOf(ops[|ops| - 1].edges)
  }

  /** A statement never MATCHes on a label it MERGEs, so whether a row is
      skipped does not depend on the rows before it. */
  predicate SelfIndependent(ops: seq<RowOp>)
  {
    ReadLabels(ops) !! WrittenLabels(ops)
  }

  lemma {:induction false} ReadWrittenPrefix(ops: seq<RowOp>, k: nat)
    requires k <= |ops|
    ensures ReadLabels(ops[..k]) <= ReadLabels(ops)
    ensures WrittenLabels(ops[..k]) <= WrittenLabels(ops)
    ensures WrittenRels(ops[..k]) <= WrittenRels(ops)
    decreases |ops|
  {
    if k < |ops| {
      assert ops[..|ops| - 1][..k] == ops[..k];
      ReadWrittenPrefix(ops[..|ops| - 1], k);
    } else {
      assert ops[..k] == ops;
    }
  }

  lemma {:induction false} OpLabelsIn(ops: seq<RowOp>, i: nat)
    requires i < |ops|
    ensures LabelsOf(ops[i].matches) <= ReadLabels(ops)
    ensures ops[i].node.Some? ==> ops[i].node.value.key.kind in WrittenLabels(ops)
    ensures RelsOf(ops[i].edges) <= WrittenRels(ops)
    decreases |ops|
  {
    if i < |ops| - 1 {
      OpLabelsIn(ops[..|ops| - 1], i);
    }
  }

  // ---------------------------------------------------------------------------
  // Frame: nothing is deleted, and only the written labels/types change
  // ---------------------------------------------------------------------------

  /** No stage deletes anything: every node and relationship survives. */
  lemma {:induction false} ApplyMonotone(g: GraphView, ops: seq<RowOp>)
    ensures g.nodes.Keys <= Apply(g, ops).nodes.Keys
    ensures g.edges.Keys <= Apply(g, ops).edges.Keys
    decreases |ops|
  {
    if ops != [] {
      var before := Apply(g, ops[..|ops| - 1]);
      ApplyMonotone(g, ops[..|ops| - 1]);
      var op := ops[|ops| - 1];
      forall k | k in before.nodes ensures k in Step(before, op).nodes {
        ApplyWritesAt(before.nodes, NodeWrites(op), k);
      }
      forall e | e in before.edges ensures e in Step(before, op).edges {
        ApplyWritesAt(before.edges, op.edges, e);
      }
    }
  }

  lemma NodeWritesKeys(op: RowOp, k: NodeKey)
    ensures k in KeysOf(NodeWrites(op)) <==> op.node.Some? && op.node.value.key == k
  {
    if op.node.Some? {
      assert NodeWrites(op)[..0] == [];
    }
  }

  lemma {:induction false} KeysOfMember<K>(ws: seq<Write<K>>, k: K)
    ensures k in KeysOf(ws) <==> exists t :: 0 <= t < |ws| && ws[t].key == k
    decreases |ws|
  {
    if ws != [] {
      var init := ws[..|ws| - 1];
      KeysOfMember(init, k);
      if exists t :: 0 <= t < |ws| && ws[t].key == k {
        var t :| 0 <= t < |ws| && ws[t].key == k;
        if t < |init| {
          assert init[t].key == k;
        }
      }
    }
  }

  lemma EdgeKeysRels(ws: seq<Write<EdgeKey>>, e: EdgeKey)
    ensures e in KeysOf(ws) ==> e.rel in RelsOf(ws)
  {
    KeysOfMember(ws, e);
  }

  /** A node or relationship whose label or type the statement does not write
      is exactly as it was before. */
  lemma {:induction false} ApplyFrame(g: GraphView, ops: seq<RowOp>)
    ensures AgreeOff(g, Apply(g, ops), WrittenLabels(ops), WrittenRels(ops))
    decreases |ops|
  {
    if ops != [] {
      var init := ops[..|ops| - 1];
      var op := ops[|ops| - 1];
      var before := Apply(g, init);
      ApplyFrame(g, init);
      var after := Step(before, op);
      forall k: NodeKey | k.kind !in WrittenLabels(ops)
        ensures (k in before.nodes <==> k in after.nodes) && (k in before.nodes ==> before.nodes[k] == after.nodes[k])
      {
        ApplyWritesAt(before.nodes, NodeWrites(op), k);
        NodeWritesKeys(op, k);
      }
      forall e: EdgeKey | e.rel !in WrittenRels(ops)
        ensures (e in before.edges <==> e in after.edges) && (e in before.edges ==> before.edges[e] == after.edges[e])
      {
        ApplyWritesAt(before.edges, op.edges, e);
        EdgeKeysRels(op.edges, e);
      }
    }
  }

  /** The two graphs agree on every node whose label is not in `ls` and every
      relationship whose type is not in `rs`. */
  ghost predicate AgreeOff(g: GraphView, h: GraphView, ls: set<Label>, rs: set<Rel>)
  {
    && (forall k: NodeKey :: k.kind !in ls ==> (k in g.nodes <==> k in h.nodes) && (k in g.nodes ==> g.nodes[k] == h.nodes[k]))
    && (forall e: EdgeKey :: e.rel !in rs ==> (e in g.edges <==> e in h.edges) && (e in g.edges ==> g.edges[e] == h.edges[e]))
  }

  /** The two graphs agree on every node whose label is in `ls` and every
      relationship whose type is in `rs`. */
  ghost predicate AgreeOn(g: GraphView, h: GraphView, ls: set<Label>, rs: set<Rel>)
  {
    && (forall k: NodeKey :: k.kind in ls ==> (k in g.nodes <==> k in h.nodes) && (k in g.nodes ==> g.nodes[k] == h.nodes[k]))
    && (forall e: EdgeKey :: e.rel in rs ==> (e in g.edges <==> e in h.edges) && (e in g.edges ==> g.edges[e] == h.edges[e]))
  }

  // ---------------------------------------------------------------------------
  // Rows are independent of each other within one statement
  // ---------------------------------------------------------------------------

  /** Whether a row is skipped is decided by the graph before the statement. */
  lemma MatchedStable(g: GraphView, ops: seq<RowOp>, op: RowOp)
    requires LabelsOf(op.matches) !! WrittenLabels(ops)
    ensures Matched(Apply(g, ops), op) <==> Matched(g, op)
  {
    ApplyMonotone(g, ops);
    ApplyFrame(g, ops);
    forall i | 0 <= i < |op.matches|
      ensures op.matches[i] in Apply(g, ops).nodes <==> op.matches[i] in g.nodes
    {
      assert op.matches[i].kind in LabelsOf(op.matches);
    }
  }

  /** The node writes of the rows that are not skipped, in row order. */
  function EffectiveNodeWrites(g: GraphView, ops: seq<RowOp>): seq<Write<NodeKey>>
    decreases |ops|
  {
    if ops == [] then []
    else
      var op := ops[|ops| - 1];
      EffectiveNodeWrites(g, ops[..|ops| - 1]) + (if Matched(g, op) then NodeWrites(op) else [])
  }

  /** The relationship writes of the rows that are not skipped, in row order. */
  function EffectiveEdgeWrites(g: GraphView, ops: seq<RowOp>): seq<Write<EdgeKey>>
    decreases |ops|
  {
    if ops == [] then []
    else
      var op := ops[|ops| - 1];
      EffectiveEdgeWrites(g, ops[..|ops| - 1]) + (if Matched(g, op) then op.edges else [])
  }

  /** A statement that never MATCHes what it MERGEs is one batch of node
      writes and one batch of relationship writes, namely those of the rows
      whose MATCHes succeed in the graph it starts from. */
  lemma {:induction false} ApplyDecomposed(g: GraphView, ops: seq<RowOp>)
    requires SelfIndependent(ops)
    ensures Apply(g, ops) == GraphView(ApplyWrites(g.nodes, EffectiveNodeWrites(g, ops)),
                                       ApplyWrites(g.edges, EffectiveEdgeWrites(g, ops)))
    decreases |ops|
  {
    if ops != [] {
      var init := ops[..|ops| - 1];
      var op := ops[|ops| - 1];
      ReadWrittenPrefix(ops, |ops| - 1);
      ApplyDecomposed(g, init);
      OpLabelsIn(ops, |ops| - 1);
      MatchedStable(g, init, op);
      ApplyWritesAppend(g.nodes, EffectiveNodeWrites(g, init), if Matched(g, op) then NodeWrites(op) else []);
      ApplyWritesAppend(g.edges, EffectiveEdgeWrites(g, init), if Matched(g, op) then op.edges else []);
    }
  }

  lemma {:induction false} EffectiveWritesCongruent(g: GraphView, h: GraphView, ops: seq<RowOp>)
    requires forall i :: 0 <= i < |ops| ==> (Matched(g, ops[i]) <==> Matched(h, ops[i]))
    ensures EffectiveNodeWrites(g, ops) == EffectiveNodeWrites(h, ops)
    ensures EffectiveEdgeWrites(g, ops) == EffectiveEdgeWrites(h, ops)
    decreases |ops|
  {
    if ops != [] {
      EffectiveWritesCongruent(g, h, ops[..|ops| - 1]);
    }
  }

  lemma {:induction false} EffectiveWritesLabels(g: GraphView, ops: seq<RowOp>, k: NodeKey, e: EdgeKey)
    ensures k in KeysOf(EffectiveNodeWrites(g, ops)) ==> k.kind in WrittenLabels(ops)
    ensures e in KeysOf(EffectiveEdgeWrites(g, ops)) ==> e.rel in WrittenRels(ops)
    decreases |ops|
  {
    if ops != [] {
      var init := ops[..|ops| - 1];
      var op := ops[|ops| - 1];
      EffectiveWritesLabels(g, init, k, e);
      var nw := if Matched(g, op) then NodeWrites(op) else [];
      var ew := if Matched(g, op) then op.edges else [];
      KeysOfConcat(EffectiveNodeWrites(g, init), nw, k);
      KeysOfConcat(EffectiveEdgeWrites(g, init), ew, e);
      if k in KeysOf(nw) {
        KeysOfMember(nw, k);
      }
      if e in KeysOf(ew) {
        KeysOfMember(ew, e);
        var t :| 0 <= t < |ew| && ew[t].key == e;
        assert e.rel in RelsOf(op.edges);
      }
    }
  }

  lemma {:induction false} KeysOfConcat<K>(a: seq<Write<K>>, b: seq<Write<K>>, k: K)
    ensures k in KeysOf(a + b) <==> k in KeysOf(a) || k in KeysOf(b)
    decreases |b|
  {
    if b == [] {
      assert a + b == a;
    } else {
      assert (a + b)[..|a + b| - 1] == a + b[..|b| - 1];
      KeysOfConcat(a, b[..|b| - 1], k);
    }
  }

  // ---------------------------------------------------------------------------
  // The invariants of one stage
  // ---------------------------------------------------------------------------

  /** Re-running a stage on the same rows leaves every node, relationship and
      property as the first run left them. */
  lemma StageIdempotent(g: GraphView, ops: seq<RowOp>)
    requires SelfIndependent(ops)
    ensures Apply(Apply(g, ops), ops) == Apply(g, ops)
  {
    var g1 := Apply(g, ops);
    ApplyDecomposed(g, ops);
    ApplyDecomposed(g1, ops);
    forall i | 0 <= i < |ops| ensures Matched(g1, ops[i]) <==> Matched(g, ops[i]) {
      OpLabelsIn(ops, i);
      MatchedStable(g, ops, ops[i]);
    }
    EffectiveWritesCongruent(g1, g, ops);
    ApplyWritesIdempotent(g.nodes, EffectiveNodeWrites(g, ops));
    ApplyWritesIdempotent(g.edges, EffectiveEdgeWrites(g, ops));
  }

  /** No relationship ever has a missing endpoint: a row whose MATCH fails
      creates nothing, and a row that runs only joins nodes it matched or
      merged. */
  lemma {:induction false} StagePreservesNoDangling(g: GraphView, ops: seq<RowOp>)
    requires NoDangling(g) && AllWellFormed(ops)
    ensures NoDangling(Apply(g, ops))
    decreases |ops|
  {
    if ops != [] {
      var init := ops[..|ops| - 1];
      var op := ops[|ops| - 1];
      var before := Apply(g, init);
      StagePreservesNoDangling(g, init);
      if Matched(before, op) {
        var after := Step(before, op);
        forall e | e in after.edges ensures e.src in after.nodes && e.dst in after.nodes {
          ApplyWritesAt(before.edges, op.edges, e);
          ApplyWritesAt(before.nodes, NodeWrites(op), e.src);
          ApplyWritesAt(before.nodes, NodeWrites(op), e.dst);
          NodeWritesKeys(op, e.src);
          NodeWritesKeys(op, e.dst);
          if e !in before.edges {
            KeysOfMember(op.edges, e);
            var t :| 0 <= t < |op.edges| && op.edges[t].key == e;
            assert Endpoint(op, e.src) && Endpoint(op, e.dst);
          }
        }
      }
    }
  }

  /** Every node a stage adds is the MERGE of a row whose MATCHes all
      succeeded, and every relationship it adds belongs to such a row. */
  lemma {:induction false} StageAddsOnlyMatchedRows(g: GraphView, ops: seq<RowOp>, k: NodeKey, e: EdgeKey)
    requires SelfIndependent(ops)
    ensures k in Apply(g, ops).nodes && k !in g.nodes ==>
      exists i :: 0 <= i < |ops| && Matched(g, ops[i]) && ops[i].node.Some? && ops[i].node.value.key == k
    ensures e in Apply(g, ops).edges && e !in g.edges ==>
      exists i, t :: 0 <= i < |ops| && Matched(g, ops[i]) && 0 <= t < |ops[i].edges| && ops[i].edges[t].key == e
  {
    ApplyDecomposed(g, ops);
    ApplyWritesAt(g.nodes, EffectiveNodeWrites(g, ops), k);
    ApplyWritesAt(g.edges, EffectiveEdgeWrites(g, ops), e);
    if k in Apply(g, ops).nodes && k !in g.nodes {
      EffectiveNodeSource(g, ops, k);
    }
    if e in Apply(g, ops).edges && e !in g.edges {
      EffectiveEdgeSource(g, ops, e);
    }
  }

  lemma {:induction false} EffectiveNodeSource(g: GraphView, ops: seq<RowOp>, k: NodeKey)
    requires k in KeysOf(EffectiveNodeWrites(g, ops))
    ensures exists i :: 0 <= i < |ops| && Matched(g, ops[i]) && ops[i].node.Some? && ops[i].node.value.key == k
    decreases |ops|
  {
    var init := ops[..|ops| - 1];
    var op := ops[|ops| - 1];
    var nw := if Matched(g, op) then NodeWrites(op) else [];
    KeysOfConcat(EffectiveNodeWrites(g, init), nw, k);
    if k in KeysOf(nw) {
      NodeWritesKeys(op, k);
      assert ops[|ops| - 1] == op;
    } else {
      EffectiveNodeSource(g, init, k);
      var i :| 0 <= i < |init| && Matched(g, init[i]) && init[i].node.Some? && init[i].node.value.key == k;
      assert ops[i] == init[i];
    }
  }

  lemma {:induction false} EffectiveEdgeSource(g: GraphView, ops: seq<RowOp>, e: EdgeKey)
    requires e in KeysOf(EffectiveEdgeWrites(g, ops))
    ensures exists i, t :: 0 <= i < |ops| && Matched(g, ops[i]) && 0 <= t < |ops[i].edges| && ops[i].edges[t].key == e
    decreases |ops|
  {
    var init := ops[..|ops| - 1];
    var op := ops[|ops| - 1];
    var ew := if Matched(g, op) then op.edges else [];
    KeysOfConcat(EffectiveEdgeWrites(g, init), ew, e);
    if e in KeysOf(ew) {
      KeysOfMember(ew, e);
      var t :| 0 <= t < |ew| && ew[t].key == e;
      assert ops[|ops| - 1] == op;
    } else {
      EffectiveEdgeSource(g, init, e);
      var i, t :| 0 <= i < |init| && Matched(g, init[i]) && 0 <= t < |init[i].edges| && init[i].edges[t].key == e;
      assert ops[i] == init[i];
    }
  }

  /** Last write wins for nodes: when row `i` is the last row that is not
      skipped and MERGEs node `k`, every property its SET names holds the
      row's value (or is absent when the value is NULL). */
  lemma {:induction false} StageNodeLastWriteWins(g: GraphView, ops: seq<RowOp>, i: nat, p: string)
    requires SelfIndependent(ops)
    requires i < |ops| && Matched(g, ops[i]) && ops[i].node.Some?
    requires forall j :: i < j < |ops| && Matched(g, ops[j]) && ops[j].node.Some? ==>
               ops[j].node.value.key != ops[i].node.value.key
    requires p in ops[i].node.value.props
    ensures var k, u := ops[i].node.value.key, ops[i].node.value.props;
            && k in Apply(g, ops).nodes
            && (p in Apply(g, ops).nodes[k] <==> u[p] != Null)
            && (p in Apply(g, ops).nodes[k] ==> Apply(g, ops).nodes[k][p] == u[p])
    decreases |ops|
  {
    var k, u := ops[i].node.value.key, ops[i].node.value.props;
    var init := ops[..|ops| - 1];
    var op := ops[|ops| - 1];
    ReadWrittenPrefix(ops, |ops| - 1);
    OpLabelsIn(ops, |ops| - 1);
    MatchedStable(g, init, op);
    var before := Apply(g, init);
    if i == |ops| - 1 {
      ApplyWritesAt(before.nodes, NodeWrites(op), k);
      NodeWritesKeys(op, k);
      assert Combined(NodeWrites(op), k) == map[] + u;
      assert map[] + u == u;
    } else {
      assert init[i] == ops[i];
      StageNodeLastWriteWins(g, init, i, p);
      ApplyWritesAt(before.nodes, NodeWrites(op), k);
      NodeWritesKeys(op, k);
    }
  }

  /** Last write wins for relationships: when row `i` is the last row that is
      not skipped and MERGEs relationship `e`, and `e` is its `t`-th and last
      relationship of that key, every property set on it holds the row's
      value. */
  lemma {:induction false} StageEdgeLastWriteWins(g: GraphView, ops: seq<RowOp>, i: nat, t: nat, p: string)
    requires SelfIndependent(ops)
    requires i < |ops| && Matched(g, ops[i]) && t < |ops[i].edges|
    requires forall s :: t < s < |ops[i].edges| ==> ops[i].edges[s].key != ops[i].edges[t].key
    requires forall j, s :: i < j < |ops| && Matched(g, ops[j]) && 0 <= s < |ops[j].edges| ==>
               ops[j].edges[s].key != ops[i].edges[t].key
    requires p in ops[i].edges[t].props
    ensures var e, u := ops[i].edges[t].key, ops[i].edges[t].props;
            && e in Apply(g, ops).edges
            && (p in Apply(g, ops).edges[e] <==> u[p] != Null)
            && (p in Apply(g, ops).edges[e] ==> Apply(g, ops).edges[e][p] == u[p])
    decreases |ops|
  {
    var e, u := ops[i].edges[t].key, ops[i].edges[t].props;
    var init := ops[..|ops| - 1];
    var op := ops[|ops| - 1];
    ReadWrittenPrefix(ops, |ops| - 1);
    OpLabelsIn(ops, |ops| - 1);
    MatchedStable(g, init, op);
    var before := Apply(g, init);
    if i == |ops| - 1 {
      ApplyWritesLastWins(before.edges, op.edges, t);
    } else {
      assert init[i] == ops[i];
      StageEdgeLastWriteWins(g, init, i, t, p);
      ApplyWritesAt(before.edges, op.edges, e);
      KeysOfMember(op.edges, e);
    }
  }

  // ---------------------------------------------------------------------------
  // Several stages in a fixed order (run_all)
  // ---------------------------------------------------------------------------

  function RunStages(g: GraphView, stages: seq<seq<RowOp>>): GraphView
    decreases |stages|
  {
    if stages == [] then g else Apply(RunStages(g, stages[..|stages| - 1]), stages[|stages| - 1])
  }

  /** Running one more stage after a prefix of the stages. */
  lemma RunStagesStep(g: GraphView, stages: seq<seq<RowOp>>, k: nat)
    requires k < |stages|
    ensures RunStages(g, stages[..k + 1]) == Apply(RunStages(g, stages[..k]), stages[k])
  {
    assert stages[..k + 1][..k] == stages[..k];
  }

  /** Dependency order: each stage never MATCHes what it MERGEs, and no later
      stage writes a label an earlier stage reads or writes, nor a
      relationship type an earlier stage writes. */
  predicate DependencyOrdered(stages: seq<seq<RowOp>>)
  {
    && (forall i :: 0 <= i < |stages| ==> SelfIndependent(stages[i]))
    && (forall i, j :: 0 <= i < j < |stages| ==>
          WrittenLabels(stages[j]) !! (ReadLabels(stages[i]) + WrittenLabels(stages[i]))
          && WrittenRels(stages[j]) !! WrittenRels(stages[i]))
  }

  lemma AgreeOnTransitive(a: GraphView, b: GraphView, c: GraphView, ls: set<Label>, rs: set<Rel>)
    requires AgreeOn(a, b, ls, rs) && AgreeOn(b, c, ls, rs)
    ensures AgreeOn(a, c, ls, rs)
  {
  }

  /** Stages after `k` leave what stage `k` reads and writes alone. */
  lemma {:induction false} LaterStagesFrame(g: GraphView, stages: seq<seq<RowOp>>, k: nat, m: nat)
    requires DependencyOrdered(stages)
    requires k < m <= |stages|
    ensures AgreeOn(RunStages(g, stages[..k + 1]), RunStages(g, stages[..m]),
                    ReadLabels(stages[k]) + WrittenLabels(stages[k]), WrittenRels(stages[k]))
    decreases m
  {
    var ls, rs := ReadLabels(stages[k]) + WrittenLabels(stages[k]), WrittenRels(stages[k]);
    if m > k + 1 {
      LaterStagesFrame(g, stages, k, m - 1);
      var before := RunStages(g, stages[..m - 1]);
      assert stages[..m][..m - 1] == stages[..m - 1];
      assert RunStages(g, stages[..m]) == Apply(before, stages[m - 1]);
      ApplyFrame(before, stages[m - 1]);
      AgreeOnTransitive(RunStages(g, stages[..k + 1]), before, RunStages(g, stages[..m]), ls, rs);
    }
  }

  /** If two graphs agree on what a stage reads and writes, so do the results
      of running the stage on each. */
  lemma StageCongruent(g: GraphView, h: GraphView, ops: seq<RowOp>)
    requires SelfIndependent(ops)
    requires AgreeOn(g, h, ReadLabels(ops) + WrittenLabels(ops), WrittenRels(ops))
    ensures AgreeOn(Apply(g, ops), Apply(h, ops), ReadLabels(ops) + WrittenLabels(ops), WrittenRels(ops))
  {
    forall i | 0 <= i < |ops| ensures Matched(g, ops[i]) <==> Matched(h, ops[i]) {
      OpLabelsIn(ops, i);
      forall j | 0 <= j < |ops[i].matches|
        ensures ops[i].matches[j] in g.nodes <==> ops[i].matches[j] in h.nodes
      {
        assert ops[i].matches[j].kind in LabelsOf(ops[i].matches);
      }
    }
    EffectiveWritesCongruent(g, h, ops);
    ApplyDecomposed(g, ops);
    ApplyDecomposed(h, ops);
    var nw, ew := EffectiveNodeWrites(g, ops), EffectiveEdgeWrites(g, ops);
    forall k: NodeKey | k.kind in ReadLabels(ops) + WrittenLabels(ops)
      ensures (k in Apply(g, ops).nodes <==> k in Apply(h, ops).nodes)
           && (k in Apply(g, ops).nodes ==> Apply(g, ops).nodes[k] == Apply(h, ops).nodes[k])
    {
      ApplyWritesAt(g.nodes, nw, k);
      ApplyWritesAt(h.nodes, nw, k);
    }
    forall e: EdgeKey | e.rel in WrittenRels(ops)
      ensures (e in Apply(g, ops).edges <==> e in Apply(h, ops).edges)
           && (e in Apply(g, ops).edges ==> Apply(g, ops).edges[e] == Apply(h, ops).edges[e])
    {
      ApplyWritesAt(g.edges, ew, e);
      ApplyWritesAt(h.edges, ew, e);
    }
  }

  /** Running all stages a second time on the same rows changes nothing:
      run_all is idempotent whenever its stages are in dependency order. */
  lemma RunStagesIdempotent(g: GraphView, stages: seq<seq<RowOp>>)
    requires DependencyOrdered(stages)
    ensures RunStages(RunStages(g, stages), stages) == RunStages(g, stages)
  {
    var G := RunStages(g, stages);
    var n := |stages|;
    var k := 0;
    while k < n
      invariant 0 <= k <= n
      invariant RunStages(G, stages[..k]) == G
    {
      assert stages[..k + 1][..k] == stages[..k];
      var ops := stages[k];
      var ls, rs := ReadLabels(ops) + WrittenLabels(ops), WrittenRels(ops);
      var Gk := RunStages(g, stages[..k]);
      var Gk1 := RunStages(g, stages[..k + 1]);
      assert Gk1 == Apply(Gk, ops);
      // G agrees with the state right after stage k on what stage k touches
      assert stages[..n] == stages;
      if k + 1 < n {
        LaterStagesFrame(g, stages, k, n);
      }
      // running stage k on G gives what running it again right after stage k gives
      StageIdempotent(Gk, ops);
      StageCongruent(G, Gk1, ops);
      ApplyFrame(G, ops);
      var G' := Apply(G, ops);
      forall key | key in G'.nodes || key in G.nodes
        ensures key in G'.nodes && key in G.nodes && G'.nodes[key] == G.nodes[key]
      {
        if key.kind in WrittenLabels(ops) {
          assert key.kind in ls;
        }
      }
      forall e | e in G'.edges || e in G.edges
        ensures e in G'.edges && e in G.edges && G'.edges[e] == G.edges[e]
      {
      }
      assert G'.nodes == G.nodes;
      assert G'.edges == G.edges;
      k := k + 1;
    }
    assert stages[..n] == stages;
  }

  /** Bounds on what a statement reads and writes follow from bounds on each
      of its rows. */
  lemma {:induction false} SignatureWithin(ops: seq<RowOp>, rl: set<Label>, wl: set<Label>, wr: set<Rel>)
    requires forall i :: 0 <= i < |ops| ==>
      && LabelsOf(ops[i].matches) <= rl
      && (ops[i].node.Some? ==> ops[i].node.value.key.kind in wl)
      && RelsOf(ops[i].edges) <= wr
    ensures ReadLabels(ops) <= rl && WrittenLabels(ops) <= wl && WrittenRels(ops) <= wr
    decreases |ops|
  {
    if ops != [] {
      var init := ops[..|ops| - 1];
      assert forall i :: 0 <= i < |init| ==> init[i] == ops[i];
      SignatureWithin(init, rl, wl, wr);
    }
  }

  /** Stage `k` writes only labels and relationship types of rank `k` and
      reads only labels of smaller rank. */
  ghost predicate Ranked(stages: seq<seq<RowOp>>, labelRank: Label -> nat, relRank: Rel -> nat)
  {
    forall k :: 0 <= k < |stages| ==>
      && (forall l :: l in ReadLabels(stages[k]) ==> labelRank(l) < k)
      && (forall l :: l in WrittenLabels(stages[k]) ==> labelRank(l) == k)
      && (forall r :: r in WrittenRels(stages[k]) ==> relRank(r) == k)
  }

  lemma RankedOrdered(stages: seq<seq<RowOp>>, labelRank: Label -> nat, relRank: Rel -> nat)
    requires Ranked(stages, labelRank, relRank)
    ensures DependencyOrdered(stages)
  {
    forall i | 0 <= i < |stages| ensures SelfIndependent(stages[i]) {
      forall l | l in ReadLabels(stages[i]) ensures l !in WrittenLabels(stages[i]) {
        assert labelRank(l) < i;
      }
    }
    forall i, j | 0 <= i < j < |stages|
      ensures WrittenLabels(stages[j]) !! (ReadLabels(stages[i]) + WrittenLabels(stages[i]))
      ensures WrittenRels(stages[j]) !! WrittenRels(stages[i])
    {
      forall l | l in WrittenLabels(stages[j]) ensures l !in ReadLabels(stages[i]) + WrittenLabels(stages[i]) {
        assert labelRank(l) == j;
      }
      forall r | r in WrittenRels(stages[j]) ensures r !in WrittenRels(stages[i]) {
        assert relRank(r) == j;
      }
    }
  }

  lemma {:induction false} EffectiveWritesInclude(g: GraphView, ops: seq<RowOp>, i: nat)
    requires i < |ops| && Matched(g, ops[i])
    ensures ops[i].node.Some? ==> ops[i].node.value.key in KeysOf(EffectiveNodeWrites(g, ops))
    ensures forall t :: 0 <= t < |ops[i].edges| ==> ops[i].edges[t].key in KeysOf(EffectiveEdgeWrites(g, ops))
    decreases |ops|
  {
    var init := ops[..|ops| - 1];
    var op := ops[|ops| - 1];
    var nw := if Matched(g, op) then NodeWrites(op) else [];
    var ew := if Matched(g, op) then op.edges else [];
    if ops[i].node.Some? {
      var k := ops[i].node.value.key;
      KeysOfConcat(EffectiveNodeWrites(g, init), nw, k);
      if i == |ops| - 1 {
        NodeWritesKeys(op, k);
      } else {
        assert init[i] == ops[i];
        EffectiveWritesInclude(g, init, i);
      }
    }
    forall t | 0 <= t < |ops[i].edges|
      ensures ops[i].edges[t].key in KeysOf(EffectiveEdgeWrites(g, ops))
    {
      var e := ops[i].edges[t].key;
      KeysOfConcat(EffectiveEdgeWrites(g, init), ew, e);
      if i == |ops| - 1 {
        KeysOfMember(ew, e);
      } else {
        assert init[i] == ops[i];
        EffectiveWritesInclude(g, init, i);
      }
    }
  }

  /** A row whose MATCHes succeed in the graph the statement starts from
      leaves its node and all its relationships in the result. */
  lemma StageKeepsMatchedRow(g: GraphView, ops: seq<RowOp>, i: nat)
    requires SelfIndependent(ops)
    requires i < |ops| && Matched(g, ops[i])
    ensures ops[i].node.Some? ==> ops[i].node.value.key in Apply(g, ops).nodes
    ensures forall t :: 0 <= t < |ops[i].edges| ==> ops[i].edges[t].key in Apply(g, ops).edges
  {
    ApplyDecomposed(g, ops);
    EffectiveWritesInclude(g, ops, i);
    if ops[i].node.Some? {
      ApplyWritesAt(g.nodes, EffectiveNodeWrites(g, ops), ops[i].node.value.key);
    }
    forall t | 0 <= t < |ops[i].edges| ensures ops[i].edges[t].key in Apply(g, ops).edges {
      ApplyWritesAt(g.edges, EffectiveEdgeWrites(g, ops), ops[i].edges[t].key);
    }
  }

  /** Over several stages, nothing is deleted and no relationship loses an
      endpoint. */
  lemma {:induction false} RunStagesPreserves(g: GraphView, stages: seq<seq<RowOp>>)
    requires forall k :: 0 <= k < |stages| ==> AllWellFormed(stages[k])
    ensures g.nodes.Keys <= RunStages(g, stages).nodes.Keys
    ensures g.edges.Keys <= RunStages(g, stages).edges.Keys
    ensures NoDangling(g) ==> NoDangling(RunStages(g, stages))
    decreases |stages|
  {
    if stages != [] {
      var init := stages[..|stages| - 1];
      assert forall k :: 0 <= k < |init| ==> init[k] == stages[k];
      RunStagesPreserves(g, init);
      ApplyMonotone(RunStages(g, init), stages[|stages| - 1]);
      if NoDangling(g) {
        StagePreservesNoDangling(RunStages(g, init), stages[|stages| - 1]);
      }
    }
  }
}
