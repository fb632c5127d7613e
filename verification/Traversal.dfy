/** Adjacency as path searches read it: the base snapshot's row of a vertex, then its delta edges. */
module Traversal {
  import opened Csr
  import opened Walks

  datatype Edge = Edge(neighbor: nat, edgeId: nat, edgeLabel: nat)

  /** One direction of a lease.  Vertices from `baseCount` on exist only in the delta. */
  datatype View = View(base: Adjacency, baseCount: nat, delta: map<nat, seq<Edge>>)
  {
    ghost predicate Valid()
    {
      base.Valid(baseCount)
    }

    function BaseStart(v: nat): nat
      requires Valid()
    {
      if v < baseCount then base.offsets[v] else 0
    }

    function BaseEnd(v: nat): nat
      requires Valid()
    {
      if v < baseCount then base.offsets[v + 1] else 0
    }

    function DeltaRow(v: nat): seq<Edge>
    {
      if v in delta then delta[v] else []
    }

    function BaseEdge(slot: nat): Edge
      requires Valid() && slot < |base.neighbors|
    {
      Edge(base.neighbors[slot], base.edgeIds[slot], base.labels[slot])
    }

    /** All edges of a vertex in the order in which a traversal meets them. */
    ghost function Row(v: nat): (r: seq<Edge>)
      requires Valid()
      ensures |r| == BaseEnd(v) - BaseStart(v) + |DeltaRow(v)|
    {
      seq(BaseEnd(v) - BaseStart(v), i requires 0 <= i < BaseEnd(v) - BaseStart(v) => BaseEdge(BaseStart(v) + i))
          + DeltaRow(v)
    }

    ghost function RowUpTo(v: nat, k: nat): seq<Edge>
      requires Valid()
    {
      if k <= |Row(v)| then Row(v)[..k] else Row(v)
    }

    ghost function EdgeIds(): set<nat>
    {
      (set id | id in base.edgeIds) + (set v, e | v in delta && e in delta[v] :: e.edgeId)
    }

    lemma RowIds(v: nat, i: nat)
      requires Valid() && i < |Row(v)|
      ensures Row(v)[i].edgeId in EdgeIds()
    {
      var width := BaseEnd(v) - BaseStart(v);
      if i < width {
        assert Row(v)[i] == BaseEdge(BaseStart(v) + i);
        assert Row(v)[i].edgeId in base.edgeIds;
      } else {
        assert Row(v)[i] == DeltaRow(v)[i - width];
        assert v in delta && Row(v)[i] in delta[v];
      }
    }

    /** Edge keys are unique, so no row repeats one. */
    ghost predicate DistinctRows()
      requires Valid()
    {
      forall v, i, j :: 0 <= i < j < |Row(v)| ==> Row(v)[i].edgeId != Row(v)[j].edgeId
    }
  }

  /** The edges of one label among those of a row, in order. */
  function Matching(row: seq<Edge>, edgeLabel: nat): (m: seq<Edge>)
    ensures forall e :: e in m <==> e in row && e.edgeLabel == edgeLabel
  {
    if |row| == 0 then []
    else
      var rest := Matching(row[..|row| - 1], edgeLabel);
      var last := row[|row| - 1];
      if last.edgeLabel == edgeLabel then rest + [last] else rest
  }

  /** The edges over which a traversal calls its visitor, in the order of the calls. */
  method EdgesOf(g: View, v: nat, edgeLabel: nat) returns (edges: seq<Edge>)
    requires g.Valid()
    ensures edges == Matching(g.Row(v), edgeLabel)
  {
    edges := [];
    var index: nat, end: nat := g.BaseStart(v), g.BaseEnd(v);
    while index < end
      invariant g.BaseStart(v) <= index <= end
      invariant edges == Matching(g.RowUpTo(v, index - g.BaseStart(v)), edgeLabel)
    {
      BaseNext(g, v, index, edgeLabel);
      if g.BaseEdge(index).edgeLabel == edgeLabel {
        edges := edges + [g.BaseEdge(index)];
      }
      index := index + 1;
    }
    edges := AddDeltaEdges(g, v, edgeLabel, edges);
  }

  method AddDeltaEdges(g: View, v: nat, edgeLabel: nat, baseEdges: seq<Edge>) returns (edges: seq<Edge>)
    requires g.Valid() && baseEdges == Matching(g.RowUpTo(v, g.BaseEnd(v) - g.BaseStart(v)), edgeLabel)
    ensures edges == Matching(g.Row(v), edgeLabel)
  {
    edges := baseEdges;
    var deltaEdges := g.DeltaRow(v);
    var i: nat := 0;
    while i < |deltaEdges|
      invariant i <= |deltaEdges| && edges == baseEdges + Matching(deltaEdges[..i], edgeLabel)
    {
      MatchingNext(deltaEdges, i, edgeLabel);
      if deltaEdges[i].edgeLabel == edgeLabel {
        edges := edges + [deltaEdges[i]];
      }
      i := i + 1;
    }
    assert deltaEdges[..i] == deltaEdges;
    assert g.Row(v) == g.RowUpTo(v, g.BaseEnd(v) - g.BaseStart(v)) + deltaEdges;
    MatchingConcat(g.RowUpTo(v, g.BaseEnd(v) - g.BaseStart(v)), deltaEdges, edgeLabel);
  }

  lemma {:induction false} MatchingConcat(a: seq<Edge>, b: seq<Edge>, edgeLabel: nat)
    ensures Matching(a + b, edgeLabel) == Matching(a, edgeLabel) + Matching(b, edgeLabel)
  {
    if |b| == 0 {
      assert a + b == a;
    } else {
      var c := a + b;
      MatchingConcat(a, b[..|b| - 1], edgeLabel);
      assert c[..|c| - 1] == a + b[..|b| - 1] && c[|c| - 1] == b[|b| - 1];
    }
  }

  lemma BaseNext(g: View, v: nat, index: nat, edgeLabel: nat)
    requires g.Valid() && g.BaseStart(v) <= index < g.BaseEnd(v)
    ensures index < |g.base.neighbors|
    ensures Matching(g.RowUpTo(v, index + 1 - g.BaseStart(v)), edgeLabel)
      == Matching(g.RowUpTo(v, index - g.BaseStart(v)), edgeLabel)
      + (if g.BaseEdge(index).edgeLabel == edgeLabel then [g.BaseEdge(index)] else [])
  {
    MatchingNext(g.Row(v), index - g.BaseStart(v), edgeLabel);
  }

  lemma MatchingNext(row: seq<Edge>, i: nat, edgeLabel: nat)
    requires i < |row|
    ensures Matching(row[..i + 1], edgeLabel) == Matching(row[..i], edgeLabel)
      + (if row[i].edgeLabel == edgeLabel then [row[i]] else [])
  {
    assert row[..i + 1][..i] == row[..i];
  }

  /** The edges that a search follows out of each vertex. */
  type Rows = nat -> seq<Edge>

  ghost function AllRows(g: View): (rows: Rows)
    requires g.Valid()
    ensures forall v :: rows(v) == g.Row(v)
  {
    (v: nat) => g.Row(v)
  }

  /** The rows of one label, base edges before delta edges. */
  ghost function Labelled(g: View, edgeLabel: nat): (rows: Rows)
    requires g.Valid()
    ensures forall v :: rows(v) == Matching(g.Row(v), edgeLabel)
  {
    (v: nat) => Matching(g.Row(v), edgeLabel)
  }

  ghost predicate OneLabel(rows: Rows, edgeLabel: nat)
  {
    forall v, e :: e in rows(v) ==> e.edgeLabel == edgeLabel
  }

  ghost predicate DifferentIds(edges: seq<Edge>)
  {
    forall i, j :: 0 <= i < j < |edges| ==> edges[i].edgeId != edges[j].edgeId
  }

  lemma {:induction false} MatchingDiffer(row: seq<Edge>, edgeLabel: nat)
    requires DifferentIds(row)
    ensures DifferentIds(Matching(row, edgeLabel))
  {
    if |row| > 0 {
      var init, last := row[..|row| - 1], row[|row| - 1];
      MatchingDiffer(init, edgeLabel);
      var rest := Matching(init, edgeLabel);
      forall i | 0 <= i < |rest|
        ensures rest[i].edgeId != last.edgeId
      {
        assert rest[i] in rest && rest[i] in init;
      }
    }
  }

  /** An arc for every edge that a search follows. */
  ghost predicate ArcsOf(a: Arcs, rows: Rows)
  {
    forall u: nat, v: nat :: (u, v) in a <==> LeadsTo(rows(u), v)
  }

  ghost predicate LeadsTo(edges: seq<Edge>, v: nat)
  {
    exists e :: e in edges && e.neighbor == v
  }

  /** The graph of one label. */
  ghost function LabelArcs(g: View, edgeLabel: nat): (a: Arcs)
    requires g.Valid()
    ensures ArcsOf(a, Labelled(g, edgeLabel))
  {
    var sources := (set u: nat | u < g.baseCount && g.BaseStart(u) <= g.BaseEnd(u)) + g.delta.Keys;
    var a := set u, e | u in sources && e in Labelled(g, edgeLabel)(u) :: (u, e.neighbor);
    assert forall u: nat, v: nat :: LeadsTo(Labelled(g, edgeLabel)(u), v) ==> (u, v) in a by {
      forall u: nat, v: nat | LeadsTo(Labelled(g, edgeLabel)(u), v)
        ensures (u, v) in a
      {
        var e :| e in Labelled(g, edgeLabel)(u) && e.neighbor == v;
        assert e in g.Row(u) && |g.Row(u)| > 0 && u in sources;
      }
    }
    a
  }

  ghost predicate JoinsInBase(g: View, edgeLabel: nat, u: nat, v: nat, slot: nat)
    requires g.Valid()
  {
    && u < g.baseCount && g.base.offsets[u] <= slot < g.base.offsets[u + 1]
    && g.base.neighbors[slot] == v && g.base.labels[slot] == edgeLabel
  }

  ghost predicate JoinsInDelta(g: View, edgeLabel: nat, u: nat, v: nat, e: Edge)
  {
    u in g.delta && e in g.delta[u] && e.neighbor == v && e.edgeLabel == edgeLabel
  }

  /** The graph of a label, in terms of the arrays and the delta: an arc for every two vertices that a base
      slot or a delta edge joins under the label. */
  lemma LabelArcsAreEdges(g: View, edgeLabel: nat, u: nat, v: nat)
    requires g.Valid()
    ensures (u, v) in LabelArcs(g, edgeLabel) <==>
      (exists slot: nat :: JoinsInBase(g, edgeLabel, u, v, slot)) || exists e :: JoinsInDelta(g, edgeLabel, u, v, e)
  {
    if LeadsTo(Labelled(g, edgeLabel)(u), v) {
      var e :| e in Labelled(g, edgeLabel)(u) && e.neighbor == v;
      RowEdgeJoins(g, edgeLabel, u, e);
    }
    if slot: nat :| JoinsInBase(g, edgeLabel, u, v, slot) {
      assert g.Row(u)[slot - g.BaseStart(u)] == g.BaseEdge(slot);
      assert g.BaseEdge(slot) in Labelled(g, edgeLabel)(u);
    }
    if e :| JoinsInDelta(g, edgeLabel, u, v, e) {
      assert e in g.Row(u) && e in Labelled(g, edgeLabel)(u);
    }
  }

  lemma RowEdgeJoins(g: View, edgeLabel: nat, u: nat, e: Edge)
    requires g.Valid() && e in g.Row(u) && e.edgeLabel == edgeLabel
    ensures (exists slot: nat :: JoinsInBase(g, edgeLabel, u, e.neighbor, slot))
      || JoinsInDelta(g, edgeLabel, u, e.neighbor, e)
  {
    var row, width := g.Row(u), g.BaseEnd(u) - g.BaseStart(u);
    var i :| 0 <= i < |row| && row[i] == e;
    if i < width {
      assert row[i] == g.BaseEdge(g.BaseStart(u) + i);
      assert JoinsInBase(g, edgeLabel, u, e.neighbor, g.BaseStart(u) + i);
    } else {
      assert row[i] == g.DeltaRow(u)[i - width];
    }
  }
}
