/** The compressed sparse row snapshot and the graph that an algorithm call projects out of it. */
module Csr {
  import opened Walks

  const MAX_UINT64: nat := 0xFFFF_FFFF_FFFF_FFFF

  /** One direction of adjacency: the edges of vertex `v` occupy the slots from `offsets[v]`
      up to `offsets[v + 1]`, and the four columns describe one edge per slot. */
  datatype Adjacency = Adjacency(offsets: seq<nat>, neighbors: seq<nat>, edgeIds: seq<nat>, labels: seq<nat>,
                                 weights: seq<real>)
  {
    ghost predicate Valid(n: nat)
    {
      && |offsets| == n + 1
      && (forall i, j :: 0 <= i <= j <= n ==> offsets[i] <= offsets[j])
      && offsets[n] == |neighbors| == |edgeIds| == |labels| == |weights|
      && (forall slot :: 0 <= slot < |neighbors| ==> neighbors[slot] < n)
    }

    /** Some slot of `u`'s row holds an edge with this neighbour and edgeLabel. */
    ghost predicate Holds(u: nat, v: nat, edgeLabel: nat)
    {
      exists slot: nat :: Slot(u, v, edgeLabel, slot)
    }

    ghost predicate Slot(u: nat, v: nat, edgeLabel: nat, slot: nat)
    {
      && u + 1 < |offsets| && offsets[u] <= slot < offsets[u + 1]
      && slot < |neighbors| && slot < |labels|
      && neighbors[slot] == v && labels[slot] == edgeLabel
    }
  }

  /** `vertexIds[ordinal]` is the external key of a vertex; keys are read in increasing order. */
  datatype Snapshot = Snapshot(vertexIds: seq<nat>, outgoing: Adjacency, incoming: Adjacency)
  {
    ghost predicate Valid()
    {
      && outgoing.Valid(|vertexIds|)
      && incoming.Valid(|vertexIds|)
      && (forall i, j :: 0 <= i < j < |vertexIds| ==> vertexIds[i] < vertexIds[j])
      && Transposed(outgoing, incoming)
    }
  }

  ghost predicate Transposed(outgoing: Adjacency, incoming: Adjacency)
  {
    forall u: nat, v: nat, edgeLabel: nat :: outgoing.Holds(u, v, edgeLabel) <==> incoming.Holds(v, u, edgeLabel)
  }

  /** The selection made by one call: an empty mask keeps every vertex, and edges are
      compared with `requiredLabel` only when `filterLabel` is set. */
  datatype Projection = Projection(mask: seq<bool>, filterLabel: bool, requiredLabel: nat)
  {
    predicate Valid(n: nat)
    {
      |mask| == 0 || |mask| == n
    }

    predicate Keeps(v: nat)
    {
      |mask| == 0 || (v < |mask| && mask[v])
    }

    predicate KeepsLabel(edgeLabel: nat)
    {
      !filterLabel || edgeLabel == requiredLabel
    }
  }

  ghost function Vertices(n: nat, pr: Projection): set<nat>
  {
    set v: nat | v < n && pr.Keeps(v)
  }

  ghost predicate IsArc(adj: Adjacency, pr: Projection, u: nat, v: nat)
  {
    pr.Keeps(u) && pr.Keeps(v) && exists edgeLabel: nat :: pr.KeepsLabel(edgeLabel) && adj.Holds(u, v, edgeLabel)
  }

  /** The projected graph, read along one direction of adjacency. */
  ghost function ProjectedArcs(n: nat, adj: Adjacency, pr: Projection): (a: Arcs)
    ensures forall u: nat, v: nat :: (u, v) in a <==> u < n && v < n && IsArc(adj, pr, u, v)
  {
    set u: nat, v: nat | u < n && v < n && IsArc(adj, pr, u, v) :: (u, v)
  }

  /** A slot of `u`'s row whose edge the call selects: both ends are in the mask, if there is one, and the
      label is the required one, if any. */
  ghost predicate SelectedSlot(adj: Adjacency, pr: Projection, u: nat, slot: nat)
  {
    && u + 1 < |adj.offsets| && adj.offsets[u] <= slot < adj.offsets[u + 1]
    && slot < |adj.neighbors| && slot < |adj.labels|
    && (|pr.mask| > 0 ==> u < |pr.mask| && pr.mask[u])
    && (|pr.mask| > 0 ==> adj.neighbors[slot] < |pr.mask| && pr.mask[adj.neighbors[slot]])
    && (pr.filterLabel ==> adj.labels[slot] == pr.requiredLabel)
  }

  /** The projected graph, column by column: an arc for every two vertices that some selected slot joins. */
  lemma ArcsAreSlots(n: nat, adj: Adjacency, pr: Projection, u: nat, v: nat)
    requires adj.Valid(n)
    ensures (u, v) in ProjectedArcs(n, adj, pr) <==>
      exists slot: nat :: SelectedSlot(adj, pr, u, slot) && adj.neighbors[slot] == v
  {
    if (u, v) in ProjectedArcs(n, adj, pr) {
      var slot := ArcHasSlot(n, adj, pr, u, v);
      assert SelectedSlot(adj, pr, u, slot);
    }
    if slot: nat :| SelectedSlot(adj, pr, u, slot) && adj.neighbors[slot] == v {
      SlotIsArc(n, adj, pr, u, slot);
    }
  }

  lemma SlotIsArc(n: nat, adj: Adjacency, pr: Projection, u: nat, slot: nat)
    requires adj.Valid(n) && u < n && adj.offsets[u] <= slot < adj.offsets[u + 1]
    requires pr.Keeps(u) && pr.Keeps(adj.neighbors[slot]) && pr.KeepsLabel(adj.labels[slot])
    ensures (u, adj.neighbors[slot]) in ProjectedArcs(n, adj, pr)
  {
    assert adj.Slot(u, adj.neighbors[slot], adj.labels[slot], slot);
    assert adj.Holds(u, adj.neighbors[slot], adj.labels[slot]);
  }

  lemma ArcHasSlot(n: nat, adj: Adjacency, pr: Projection, u: nat, v: nat) returns (slot: nat)
    requires adj.Valid(n) && (u, v) in ProjectedArcs(n, adj, pr)
    ensures u < n && adj.offsets[u] <= slot < adj.offsets[u + 1] <= |adj.neighbors|
    ensures adj.neighbors[slot] == v && pr.KeepsLabel(adj.labels[slot]) && pr.Keeps(u) && pr.Keeps(v)
  {
    var edgeLabel: nat :| pr.KeepsLabel(edgeLabel) && adj.Holds(u, v, edgeLabel);
    slot :| adj.Slot(u, v, edgeLabel, slot);
  }

  /** Reading the incoming arrays gives the projected graph backwards. */
  lemma TransposeReversesArcs(s: Snapshot, pr: Projection)
    requires s.Valid()
    ensures ProjectedArcs(|s.vertexIds|, s.incoming, pr) == Reverse(ProjectedArcs(|s.vertexIds|, s.outgoing, pr))
  {
    var n := |s.vertexIds|;
    var forth, back := ProjectedArcs(n, s.outgoing, pr), ProjectedArcs(n, s.incoming, pr);
    forall u: nat, v: nat
      ensures (u, v) in back <==> (v, u) in forth
    {
      assert forall edgeLabel: nat :: s.outgoing.Holds(v, u, edgeLabel) <==> s.incoming.Holds(u, v, edgeLabel);
    }
    assert forall e :: e in back <==> e in Reverse(forth);
  }
}
