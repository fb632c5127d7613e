/** Weighted single-source shortest paths: the search over an indexed heap, in chunks that resume. */
module Sssp {
  import opened Csr
  import opened DistanceLimits
  import opened Distances
  import opened IndexedHeap

  datatype Direction = Out | In | Both

  // ----- the edges of a vertex -----

  function EdgeAt(adj: Adjacency, slot: nat): WeightedEdge
    requires slot < |adj.neighbors| == |adj.edgeIds| == |adj.weights|
  {
    WeightedEdge(adj.neighbors[slot], adj.edgeIds[slot], adj.weights[slot])
  }

  predicate Selects(adj: Adjacency, pr: Projection, slot: nat)
    requires slot < |adj.neighbors| == |adj.labels|
  {
    pr.Keeps(adj.neighbors[slot]) && pr.KeepsLabel(adj.labels[slot])
  }

  /** The projected edges in a range of slots. */
  function Selected(adj: Adjacency, pr: Projection, lo: nat, hi: nat): (edges: seq<WeightedEdge>)
    requires hi <= |adj.neighbors| == |adj.edgeIds| == |adj.labels| == |adj.weights|
    ensures forall e :: e in edges ==> e.neighbor in adj.neighbors && pr.Keeps(e.neighbor)
    decreases hi
  {
    if lo >= hi then []
    else
      var before := Selected(adj, pr, lo, hi - 1);
      if Selects(adj, pr, hi - 1) then before + [EdgeAt(adj, hi - 1)] else before
  }

  ghost predicate DataOk(s: Snapshot, pr: Projection)
  {
    s.outgoing.Valid(|s.vertexIds|) && s.incoming.Valid(|s.vertexIds|)
  }

  ghost function RowOf(adj: Adjacency, n: nat, pr: Projection, v: nat): seq<WeightedEdge>
    requires adj.Valid(n) && v < n
  {
    Selected(adj, pr, adj.offsets[v], adj.offsets[v + 1])
  }

  /** The projected edges along the directions of the call, those out of a vertex before those into it. */
  ghost function ProjectedRows(s: Snapshot, pr: Projection, direction: Direction): WeightedRows
    requires DataOk(s, pr)
  {
    (v: nat) =>
      if v < |s.vertexIds| && pr.Keeps(v) then
        (if direction != In then RowOf(s.outgoing, |s.vertexIds|, pr, v) else [])
        + (if direction != Out then RowOf(s.incoming, |s.vertexIds|, pr, v) else [])
      else []
  }

  ghost predicate Increasing(slots: seq<nat>)
  {
    forall i, j :: 0 <= i < j < |slots| ==> slots[i] < slots[j]
  }

  /** Exactly the selected slots of a row, in order. */
  ghost predicate AreSlots(slots: seq<nat>, adj: Adjacency, pr: Projection, u: nat)
  {
    && Increasing(slots)
    && forall slot: nat :: slot in slots <==> SelectedSlot(adj, pr, u, slot)
  }

  /** One edge for each of those slots, with the slot's neighbour, edge id and weight. */
  ghost predicate ReadsSlots(edges: seq<WeightedEdge>, adj: Adjacency, slots: seq<nat>)
  {
    && |edges| == |slots|
    && forall i :: 0 <= i < |slots| ==>
         && slots[i] < |adj.neighbors| && slots[i] < |adj.edgeIds| && slots[i] < |adj.weights|
         && edges[i].neighbor == adj.neighbors[slots[i]] && edges[i].edgeId == adj.edgeIds[slots[i]]
         && edges[i].weight == adj.weights[slots[i]]
  }

  ghost predicate IsRowOf(edges: seq<WeightedEdge>, adj: Adjacency, pr: Projection, u: nat)
  {
    exists slots: seq<nat> :: AreSlots(slots, adj, pr, u) && ReadsSlots(edges, adj, slots)
  }

  ghost predicate IsRowAlong(edges: seq<WeightedEdge>, s: Snapshot, pr: Projection, direction: Direction, u: nat)
  {
    exists out, into ::
      && edges == out + into
      && (if direction == In then out == [] else IsRowOf(out, s.outgoing, pr, u))
      && (if direction == Out then into == [] else IsRowOf(into, s.incoming, pr, u))
  }

  /** The graph that a search reads: at every vertex the edges of its selected slots, out of it or into it
      or both. */
  ghost predicate IsProjected(g: WeightedRows, s: Snapshot, pr: Projection, direction: Direction)
  {
    forall u: nat :: IsRowAlong(g(u), s, pr, direction, u)
  }

  ghost function SlotList(adj: Adjacency, pr: Projection, lo: nat, hi: nat): seq<nat>
    requires hi <= |adj.neighbors| == |adj.labels|
    decreases hi
  {
    if lo >= hi then []
    else
      var before := SlotList(adj, pr, lo, hi - 1);
      if Selects(adj, pr, hi - 1) then before + [hi - 1] else before
  }

  lemma {:induction false} SlotListIsSelected(adj: Adjacency, pr: Projection, lo: nat, hi: nat)
    requires hi <= |adj.neighbors| == |adj.labels|
    ensures forall slot: nat :: slot in SlotList(adj, pr, lo, hi) <==> lo <= slot < hi && Selects(adj, pr, slot)
    ensures Increasing(SlotList(adj, pr, lo, hi))
    decreases hi
  {
    if lo < hi {
      SlotListIsSelected(adj, pr, lo, hi - 1);
      var before := SlotList(adj, pr, lo, hi - 1);
      forall i | 0 <= i < |before|
        ensures before[i] < hi - 1
      {
        assert before[i] in before;
      }
      assert Increasing(before + [hi - 1]);
    }
  }

  lemma {:induction false} SelectedReads(adj: Adjacency, pr: Projection, lo: nat, hi: nat)
    requires hi <= |adj.neighbors| == |adj.edgeIds| == |adj.labels| == |adj.weights|
    ensures ReadsSlots(Selected(adj, pr, lo, hi), adj, SlotList(adj, pr, lo, hi))
    decreases hi
  {
    if lo < hi {
      SelectedReads(adj, pr, lo, hi - 1);
    }
  }

  lemma RowIsRowOf(adj: Adjacency, n: nat, pr: Projection, u: nat)
    requires adj.Valid(n) && u < n && pr.Keeps(u)
    ensures IsRowOf(RowOf(adj, n, pr, u), adj, pr, u)
  {
    var lo, hi := adj.offsets[u], adj.offsets[u + 1];
    SlotListIsSelected(adj, pr, lo, hi);
    SelectedReads(adj, pr, lo, hi);
    assert AreSlots(SlotList(adj, pr, lo, hi), adj, pr, u);
  }

  lemma RowsAreProjected(s: Snapshot, pr: Projection, direction: Direction)
    requires DataOk(s, pr)
    ensures IsProjected(ProjectedRows(s, pr, direction), s, pr, direction)
  {
    var g := ProjectedRows(s, pr, direction);
    forall u: nat
      ensures IsRowAlong(g(u), s, pr, direction, u)
    {
      var out, into: seq<WeightedEdge> := [], [];
      if u < |s.vertexIds| && pr.Keeps(u) {
        RowIsRowOf(s.outgoing, |s.vertexIds|, pr, u);
        RowIsRowOf(s.incoming, |s.vertexIds|, pr, u);
        out := if direction != In then RowOf(s.outgoing, |s.vertexIds|, pr, u) else [];
        into := if direction != Out then RowOf(s.incoming, |s.vertexIds|, pr, u) else [];
      } else {
        assert AreSlots([], s.outgoing, pr, u) && AreSlots([], s.incoming, pr, u);
        assert ReadsSlots([], s.outgoing, []) && ReadsSlots([], s.incoming, []);
      }
      assert g(u) == out + into;
    }
  }

  ghost predicate RowWeightsOk(adj: Adjacency, pr: Projection, u: nat)
  {
    forall slot: nat :: SelectedSlot(adj, pr, u, slot) && slot < |adj.weights| ==> adj.weights[slot] >= 0.0
  }

  /** No selected slot of these arrays has a negative weight. */
  ghost predicate WeightsOk(adj: Adjacency, pr: Projection)
  {
    forall u: nat :: RowWeightsOk(adj, pr, u)
  }

  lemma RowOkIffWeights(edges: seq<WeightedEdge>, adj: Adjacency, n: nat, pr: Projection, u: nat)
    requires adj.Valid(n) && IsRowOf(edges, adj, pr, u)
    ensures NonNegative(edges) <==> RowWeightsOk(adj, pr, u)
  {
    var slots: seq<nat> :| AreSlots(slots, adj, pr, u) && ReadsSlots(edges, adj, slots);
    forall slot: nat | SelectedSlot(adj, pr, u, slot) && NonNegative(edges)
      ensures adj.weights[slot] >= 0.0
    {
      assert slot in slots;
      var i :| 0 <= i < |slots| && slots[i] == slot;
      assert edges[i] in edges;
    }
    if !NonNegative(edges) {
      var e :| e in edges && e.weight < 0.0;
      var i :| 0 <= i < |edges| && edges[i] == e;
      assert slots[i] in slots;
    }
  }

  /** The rows are acceptable exactly when the columns are. */
  lemma GraphOkIffWeights(s: Snapshot, pr: Projection, direction: Direction)
    requires DataOk(s, pr)
    ensures GraphOk(ProjectedRows(s, pr, direction), |s.vertexIds|) <==>
      (direction != In ==> WeightsOk(s.outgoing, pr)) && (direction != Out ==> WeightsOk(s.incoming, pr))
  {
    var g := ProjectedRows(s, pr, direction);
    RowsAreProjected(s, pr, direction);
    forall u: nat
      ensures NonNegative(g(u)) <==>
        (direction != In ==> RowWeightsOk(s.outgoing, pr, u)) && (direction != Out ==> RowWeightsOk(s.incoming, pr, u))
    {
      RowAlongOk(g(u), s, pr, direction, u);
    }
    GraphOkIffRows(s, pr, direction);
  }

  lemma GraphOkIffRows(s: Snapshot, pr: Projection, direction: Direction)
    requires DataOk(s, pr)
    ensures GraphOk(ProjectedRows(s, pr, direction), |s.vertexIds|) <==>
      forall u: nat :: NonNegative(ProjectedRows(s, pr, direction)(u))
  {
    if forall u: nat :: NonNegative(ProjectedRows(s, pr, direction)(u)) {
      NonNegativeIsOk(s, pr, direction);
    }
  }

  lemma RowAlongOk(edges: seq<WeightedEdge>, s: Snapshot, pr: Projection, direction: Direction, u: nat)
    requires DataOk(s, pr) && IsRowAlong(edges, s, pr, direction, u)
    ensures NonNegative(edges) <==>
      (direction != In ==> RowWeightsOk(s.outgoing, pr, u)) && (direction != Out ==> RowWeightsOk(s.incoming, pr, u))
  {
    var out, into :|
      && edges == out + into
      && (if direction == In then out == [] else IsRowOf(out, s.outgoing, pr, u))
      && (if direction == Out then into == [] else IsRowOf(into, s.incoming, pr, u));
    if direction != In {
      RowOkIffWeights(out, s.outgoing, |s.vertexIds|, pr, u);
    }
    if direction != Out {
      RowOkIffWeights(into, s.incoming, |s.vertexIds|, pr, u);
    }
    assert NonNegative(edges) <==> NonNegative(out) && NonNegative(into) by {
      assert forall e :: e in edges <==> e in out || e in into;
    }
  }

  method VisitSlots(adj: Adjacency, ghost n: nat, pr: Projection, v: nat) returns (edges: seq<WeightedEdge>)
    requires adj.Valid(n) && v < n
    ensures edges == RowOf(adj, n, pr, v)
  {
    edges := [];
    var edge: nat := adj.offsets[v];
    while edge < adj.offsets[v + 1]
      invariant adj.offsets[v] <= edge <= adj.offsets[v + 1]
      invariant edges == Selected(adj, pr, adj.offsets[v], edge)
    {
      if pr.Keeps(adj.neighbors[edge]) && (!pr.filterLabel || adj.labels[edge] == pr.requiredLabel) {
        edges := edges + [WeightedEdge(adj.neighbors[edge], adj.edgeIds[edge], adj.weights[edge])];
      }
      edge := edge + 1;
    }
  }

  method VisitWeightedNeighbors(s: Snapshot, pr: Projection, direction: Direction,
                                v: nat)
    returns (edges: seq<WeightedEdge>)
    requires DataOk(s, pr) && v < |s.vertexIds| && pr.Keeps(v)
    ensures edges == ProjectedRows(s, pr, direction)(v)
  {
    edges := [];
    if direction != In {
      edges := VisitSlots(s.outgoing, |s.vertexIds|, pr, v);
    }
    if direction != Out {
      var more := VisitSlots(s.incoming, |s.vertexIds|, pr, v);
      edges := edges + more;
    }
  }

  /** Whether the whole projection has only nonnegative weights. */
  method ValidateWeights(s: Snapshot, pr: Projection, direction: Direction) returns (valid: bool)
    requires DataOk(s, pr)
    ensures valid <==> GraphOk(ProjectedRows(s, pr, direction), |s.vertexIds|)
    ensures valid <==>
      (direction != In ==> WeightsOk(s.outgoing, pr)) && (direction != Out ==> WeightsOk(s.incoming, pr))
  {
    ghost var g := ProjectedRows(s, pr, direction);
    var v: nat := 0;
    GraphOkIffWeights(s, pr, direction);
    hide ProjectedRows, GraphOk, NonNegative;
    while v < |s.vertexIds|
      invariant v <= |s.vertexIds|
      invariant forall u: nat :: u < v ==> NonNegative(g(u))
    {
      if pr.Keeps(v) {
        var edges := VisitWeightedNeighbors(s, pr, direction, v);
        var negative := HasNegative(edges);
        if negative {
          NegativeIsNotOk(g, |s.vertexIds|, v);
          return false;
        }
      } else {
        MaskedIsNonNegative(s, pr, direction, v);
      }
      v := v + 1;
    }
    NonNegativeIsOk(s, pr, direction);
    return true;
  }

  ghost predicate NonNegative(edges: seq<WeightedEdge>)
  {
    forall e :: e in edges ==> e.weight >= 0.0
  }

  method HasNegative(edges: seq<WeightedEdge>) returns (negative: bool)
    ensures negative <==> !NonNegative(edges)
  {
    var i := 0;
    while i < |edges|
      invariant 0 <= i <= |edges| && NonNegative(edges[..i])
    {
      if edges[i].weight < 0.0 {
        assert edges[i] in edges;
        return true;
      }
      i := i + 1;
    }
    assert edges[..i] == edges;
    return false;
  }

  lemma NegativeIsNotOk(g: WeightedRows, n: nat, v: nat)
    requires !NonNegative(g(v))
    ensures !GraphOk(g, n)
  {
  }

  lemma MaskedIsNonNegative(s: Snapshot, pr: Projection, direction: Direction, v: nat)
    requires DataOk(s, pr) && !pr.Keeps(v)
    ensures NonNegative(ProjectedRows(s, pr, direction)(v))
  {
  }

  lemma NonNegativeIsOk(s: Snapshot, pr: Projection, direction: Direction)
    requires DataOk(s, pr)
    requires forall u: nat :: u < |s.vertexIds| ==> NonNegative(ProjectedRows(s, pr, direction)(u))
    ensures GraphOk(ProjectedRows(s, pr, direction), |s.vertexIds|)
  {
    var g := ProjectedRows(s, pr, direction);
    forall u: nat, e | e in g(u)
      ensures u < |s.vertexIds| && e.neighbor < |s.vertexIds| && e.weight >= 0.0
    {
      assert NonNegative(g(u));
    }
  }

  /** The search stays inside the projection. */
  lemma {:induction false} RouteStays(g: WeightedRows, inside: nat -> bool, start: nat, v: nat, cost: real, k: nat)
    requires inside(start) && HasRoute(g, start, v, cost, k)
    requires forall u: nat, e :: e in g(u) ==> inside(e.neighbor)
    ensures inside(v)
    decreases k
  {
    if k > 0 {
      var w: nat, e :| EdgeFrom(g, w, e) && e.neighbor == v && HasRoute(g, start, w, cost - e.weight, k - 1);
    }
  }

  lemma OpenIsProjected(s: Snapshot, pr: Projection, direction: Direction, start: nat, l: Labels, v: nat)
    requires DataOk(s, pr) && pr.Keeps(start) && l.Open(v)
    requires TreeOk(ProjectedRows(s, pr, direction), |s.vertexIds|, start, l)
    ensures v < |s.vertexIds| && pr.Keeps(v)
  {
    var g := ProjectedRows(s, pr, direction);
    var k: nat :| HasRoute(g, start, v, l.distances[v].value, k);
    var inside := (u: nat) => pr.Keeps(u);
    RouteStays(g, inside, start, v, l.distances[v].value, k);
  }

  // ----- the heap over distances -----

  ghost function Nearer(distances: seq<Distance>): Order
  {
    (x: nat, y: nat) => Less(distances, x, y)
  }

  lemma NearerIsOrder(distances: seq<Distance>)
    ensures IsOrder(Nearer(distances))
  {
  }

  /** The heap holds exactly the open vertices, nearest first. */
  ghost predicate HeapMatches(l: Labels, heap: seq<nat>, positions: seq<Position>)
  {
    && |positions| == |l.distances| && Indexed(heap, positions) && InOrder(heap, Nearer(l.distances))
    && forall v: nat :: Contains(positions, v) <==> l.Open(v)
  }

  /** Where a vertex with a new, smaller distance stands before it has risen. */
  ghost predicate MayRise(distances: seq<Distance>, heap: seq<nat>, positions: seq<Position>, v: nat)
    requires v < |positions|
  {
    if positions[v].At? then RisesAt(heap, Nearer(distances), positions[v].index) else InOrder(heap, Nearer(distances))
  }

  lemma RelaxedMayRise(l: Labels, heap: seq<nat>, positions: seq<Position>, v: nat, e: WeightedEdge)
    requires l.Sized(|l.distances|) && v < |l.distances| && l.distances[v].Finite? && e.neighbor < |l.distances|
    requires HeapMatches(l, heap, positions) && Relax(l, v, e) != l
    ensures MayRise(Relax(l, v, e).distances, heap, positions, e.neighbor)
    ensures forall w: nat :: Relax(l, v, e).Open(w) <==> Contains(positions, w) || w == e.neighbor
  {
    var before, after, w := Nearer(l.distances), Nearer(Relax(l, v, e).distances), e.neighbor;
    NearerIsOrder(l.distances);
    NearerIsOrder(Relax(l, v, e).distances);
    assert Hastens(before, after, w);
    if positions[w].At? {
      HastenedRises(heap, positions, before, after, w);
    } else {
      assert w !in heap;
      HastenedOutside(heap, before, after, w);
    }
  }

  lemma HeadIsNext(l: Labels, heap: seq<nat>, positions: seq<Position>)
    requires HeapMatches(l, heap, positions) && |heap| > 0
    ensures l.IsNext(heap[0])
  {
    NearerIsOrder(l.distances);
    assert positions[heap[0]] == At(0) && Contains(positions, heap[0]);
    forall w: nat | l.Open(w)
      ensures !Less(l.distances, w, heap[0])
    {
      assert Contains(positions, w);
      RootIsFirst(heap, Nearer(l.distances), positions[w].index);
    }
  }

  /** What one pop of the heap leaves: the same vertices but the first. */
  ghost predicate HeapOk(heap: seq<nat>, positions: seq<Position>, less: Order)
  {
    Indexed(heap, positions) && InOrder(heap, less)
  }

  lemma MatchingIsOk(l: Labels, heap: seq<nat>, positions: seq<Position>)
    requires HeapMatches(l, heap, positions)
    ensures HeapOk(heap, positions, Nearer(l.distances))
  {
  }

  lemma PoppedMatches(l: Labels, was: seq<nat>, before: seq<Position>, heap: seq<nat>, positions: seq<Position>, v: nat)
    requires l.Sized(|l.distances|) && v < |l.distances| && HeapMatches(l, was, before)
    requires |positions| == |before| && HeapOk(heap, positions, Nearer(l.distances))
    requires forall w: nat :: Contains(positions, w) <==> Contains(before, w) && w != v
    ensures HeapMatches(Settle(l, v), heap, positions)
  {
  }

  // ----- the search -----

  /** No vertex but the last popped is the target, and popping it ends the search. */
  ghost predicate StopsAt(run: Run, target: Target, finished: bool)
  {
    && |run.states| == |run.popped| + (if finished then 0 else 1)
    && (finished ==> target.Target? && |run.popped| > 0 && run.popped[|run.popped| - 1] == target.vertex)
    && (target.Target? ==> forall i :: 0 <= i < |run.popped| - (if finished then 1 else 0) ==>
        run.popped[i] != target.vertex)
  }

  lemma NextIsReady(s: Snapshot, pr: Projection, direction: Direction, g: WeightedRows, n: nat, start: nat, l: Labels,
                    v: nat)
    requires DataOk(s, pr) && pr.Keeps(start) && g == ProjectedRows(s, pr, direction) && n == |s.vertexIds|
      && GraphOk(g, n)
    requires Inv(g, n, start, l) && l.IsNext(v)
    ensures l.Sized(n) && v < n && l.Open(v) && pr.Keeps(v) && CanRelax(Settle(l, v), v, g(v))
  {
    OpenIsProjected(s, pr, direction, start, l, v);
    CanRelaxSettled(g, n, start, l, v);
  }

  lemma OverflowEndsRun(g: WeightedRows, n: nat, start: nat, limit: real, run: Run, v: nat, settled: Labels,
                        target: Target)
    requires GraphOk(g, n) && IsRun(g, n, start, limit, run) && Settling(run) && run.states[|run.popped|].IsNext(v)
    requires StopsAt(run, target, false) && target != Target(v)
    requires v < |run.states[|run.popped|].settled| && settled == Settle(run.states[|run.popped|], v)
      && CanRelax(settled, v, g(v))
    requires RelaxAll(settled, v, g(v), limit).Overflow?
    ensures RunOverflows(g, n, start, limit, target)
  {
    RunKeepsInvariant(g, n, start, limit, run, |run.popped|);
    hide IsRun, Inv, GraphOk;
    assert EndsInOverflow(g, n, start, limit, target, run, v);
  }

  lemma RunExtends(g: WeightedRows, n: nat, start: nat, limit: real, run: Run, rows: seq<SsspRow>, v: nat,
                   settled: Labels, next: Labels,
                   target: Target)
    requires GraphOk(g, n) && IsRun(g, n, start, limit, run) && StopsAt(run, target, false) && target != Target(v)
    requires run.states[|run.popped|].IsNext(v) && AreRowsOf(Run(run.states, run.popped + [v]), rows)
    requires v < |run.states[|run.popped|].settled| && settled == Settle(run.states[|run.popped|], v)
      && CanRelax(settled, v, g(v))
    requires RelaxAll(settled, v, g(v), limit) == Labelled(next)
    ensures var longer := Run(run.states + [next], run.popped + [v]);
      IsRun(g, n, start, limit, longer) && AreRowsOf(longer, rows) && StopsAt(longer, target, false)
  {
    hide IsRun;
    RunRounds(g, n, start, limit, run, v, next);
    RowsKept(Run(run.states, run.popped + [v]), rows, next);
  }

  class WeightedSssp {
    const snapshot: Snapshot
    const projection: Projection
    const direction: Direction
    const limit: real
    const start: nat
    const target: Target
    var distances: seq<Distance>
    var parents: seq<Parent>
    var parentEdges: seq<nat>
    var settled: seq<bool>
    var heap: seq<nat>
    var positions: seq<Position>
    var settledOrder: nat
    var finished: bool
    ghost const g: WeightedRows
    ghost const n: nat
    ghost var run: Run
    ghost var rows: seq<SsspRow>

    ghost function State(): Labels
      reads this
    {
      Labels(distances, parents, parentEdges, settled)
    }

    ghost predicate InputOk()
    {
      && DataOk(snapshot, projection) && n == |snapshot.vertexIds|
           && g == ProjectedRows(snapshot, projection, direction)
      && GraphOk(g, n) && start < n && projection.Keeps(start)
    }

    ghost predicate Valid()
      reads this
    {
      && InputOk() && IsRun(g, n, start, limit, run) && AreRowsOf(run, rows) && StopsAt(run, target, finished)
      && settledOrder == |rows|
      && (!finished ==> run.states[|run.popped|] == State() && HeapMatches(State(), heap, positions))
    }

    predicate Before(left: nat, right: nat)
      reads this
    {
      Less(distances, left, right)
    }

    method Swap(left: nat, right: nat)
      requires Indexed(heap, positions) && left < |heap| && right < |heap|
      modifies `heap, `positions
      ensures heap == Swapped(old(heap), left, right) && |positions| == |old(positions)| && Indexed(heap, positions)
      ensures positions == Exchanged(old(heap), old(positions), left, right)
      ensures forall v: nat :: Contains(positions, v) <==> Contains(old(positions), v)
    {
      SwapKeepsPositions(heap, positions, left, right);
      heap := heap[left := heap[right]][right := heap[left]];
      positions := positions[heap[left] := At(left)];
      positions := positions[heap[right] := At(right)];
    }

    /** A vertex whose distance has fallen enters the heap or rises in it. */
    method Decrease(vertex: nat)
      requires vertex < |positions| && Indexed(heap, positions) && MayRise(distances, heap, positions, vertex)
      modifies `heap, `positions
      ensures |positions| == |old(positions)| && HeapOk(heap, positions, Nearer(distances))
      ensures forall v: nat :: Contains(positions, v) <==> Contains(old(positions), v) || v == vertex
    {
      ghost var less := Nearer(distances);
      NearerIsOrder(distances);
      if positions[vertex].Absent? {
        AppendedRises(heap, less, vertex);
        AppendedIsIndexed(heap, positions, vertex);
        positions := positions[vertex := At(|heap|)];
        heap := heap + [vertex];
      }
      Rise(positions[vertex].index);
    }

    method Rise(from: nat)
      requires Indexed(heap, positions) && RisesAt(heap, Nearer(distances), from)
      modifies `heap, `positions
      ensures |positions| == |old(positions)| && HeapOk(heap, positions, Nearer(distances))
      ensures forall v: nat :: Contains(positions, v) <==> Contains(old(positions), v)
    {
      ghost var less := Nearer(distances);
      NearerIsOrder(distances);
      var position: nat := from;
      while position > 0 && Before(heap[position], heap[(position - 1) / 2])
        invariant |positions| == |old(positions)| && Indexed(heap, positions) && RisesAt(heap, less, position)
        invariant forall v: nat :: Contains(positions, v) <==> Contains(old(positions), v)
        decreases position
      {
        var parent := (position - 1) / 2;
        RiseStep(heap, less, position);
        Swap(position, parent);
        position := parent;
      }
      RiseEnds(heap, less, position);
    }

    /** Takes the nearest vertex out of the heap. */
    method Pop() returns (vertex: nat)
      requires HeapOk(heap, positions, Nearer(distances)) && |heap| > 0
      modifies `heap, `positions
      ensures vertex == old(heap)[0]
      ensures |positions| == |old(positions)| && HeapOk(heap, positions, Nearer(distances))
      ensures forall v: nat :: Contains(positions, v) <==> Contains(old(positions), v) && v != vertex
    {
      vertex := heap[0];
      RemovedIsIndexed(heap, positions);
      ghost var before := heap;
      if |heap| > 1 {
        RemovedSinks(heap, Nearer(distances));
      }
      Swap(0, |heap| - 1);
      heap := heap[..|heap| - 1];
      positions := positions[vertex := Absent];
      if |heap| > 0 {
        Sink();
      }
    }

    method FirstChild(position: nat) returns (child: nat)
      requires position * 2 + 1 < |heap|
      ensures IsFirstChild(heap, Nearer(distances), position, child)
    {
      NearerIsOrder(distances);
      child := position * 2 + 1;
      if child + 1 < |heap| && Before(heap[child + 1], heap[child]) {
        child := child + 1;
      }
    }

    method Sink()
      requires Indexed(heap, positions) && SinksAt(heap, Nearer(distances), 0)
      modifies `heap, `positions
      ensures |positions| == |old(positions)| && HeapOk(heap, positions, Nearer(distances))
      ensures forall v: nat :: Contains(positions, v) <==> Contains(old(positions), v)
    {
      hide Indexed, SinksAt, Less, InOrder;
      ghost var less := Nearer(distances);
      NearerIsOrder(distances);
      SinkPlace(heap, less, 0);
      var position: nat := 0;
      while position * 2 + 1 < |heap|
        invariant |positions| == |old(positions)| && Indexed(heap, positions) && position < |heap|
          && SinksAt(heap, less, position)
        invariant forall v: nat :: Contains(positions, v) <==> Contains(old(positions), v)
        decreases |heap| - position
      {
        var child := FirstChild(position);
        if !Before(heap[child], heap[position]) {
          SinkEnds(heap, less, position);
          return;
        }
        SinkStep(heap, less, position, child);
        SinkPlace(Swapped(heap, position, child), less, child);
        Swap(position, child);
        position := child;
      }
      SinkEnds(heap, less, position);
    }

    /** Relaxes one edge of a settled vertex, unless the sum passes the limit. */
    method RelaxEdge(v: nat, e: WeightedEdge) returns (overflow: bool)
      requires CanRelax(State(), v, []) && e.neighbor < |distances| && HeapMatches(State(), heap, positions)
      modifies `distances, `parents, `parentEdges, `heap, `positions
      ensures overflow == Overflows(old(State()), v, e, limit)
      ensures !overflow ==> State() == Relax(old(State()), v, e) && HeapMatches(State(), heap, positions)
    {
      if settled[e.neighbor] {
        return false;
      }
      var distance := distances[v].value + e.weight;
      if distance > limit {
        return true;
      }
      if Closer(Finite(distance), distances[e.neighbor]) {
        ghost var l := State();
        RelaxedMayRise(l, heap, positions, v, e);
        distances := distances[e.neighbor := Finite(distance)];
        parents := parents[e.neighbor := Parent(v)];
        parentEdges := parentEdges[e.neighbor := e.edgeId];
        assert State() == Relax(l, v, e);
        Decrease(e.neighbor);
      }
      return false;
    }

    method RelaxEdges(v: nat, edges: seq<WeightedEdge>) returns (overflow: bool)
      requires CanRelax(State(), v, edges) && HeapMatches(State(), heap, positions)
      modifies `distances, `parents, `parentEdges, `heap, `positions
      ensures overflow == RelaxAll(old(State()), v, edges, limit).Overflow?
      ensures !overflow ==>
        RelaxAll(old(State()), v, edges, limit) == Labelled(State()) && HeapMatches(State(), heap, positions)
    {
      hide HeapMatches, Relax, Overflows;
      ghost var l := State();
      var i: nat := 0;
      while i < |edges|
        invariant i <= |edges| && CanRelax(l, v, edges) && CanRelax(l, v, edges[..i])
        invariant RelaxAll(l, v, edges[..i], limit) == Labelled(State()) && HeapMatches(State(), heap, positions)
      {
        RelaxAllNext(l, v, edges, i, limit);
        overflow := RelaxEdge(v, edges[i]);
        if overflow {
          OverflowStays(l, v, edges, i + 1, limit);
          return;
        }
        i := i + 1;
      }
      assert edges[..i] == edges;
      overflow := false;
    }

    /** Everything starts unreached but the start vertex, at distance zero. */
    constructor (snapshot: Snapshot, projection: Projection, direction: Direction, limit: real, start: nat,
                 target: Target)
      requires DataOk(snapshot, projection) && start < |snapshot.vertexIds| && projection.Keeps(start)
      requires GraphOk(ProjectedRows(snapshot, projection, direction), |snapshot.vertexIds|)
      ensures Valid() && rows == [] && !finished && this.target == target && this.start == start && this.limit == limit
      ensures g == ProjectedRows(snapshot, projection, direction) && n == |snapshot.vertexIds|
    {
      var count := |snapshot.vertexIds|;
      this.snapshot, this.projection, this.direction := snapshot, projection, direction;
      this.limit, this.start, this.target := limit, start, target;
      distances := seq(count, _ => Infinite)[start := Finite(0.0)];
      parents, parentEdges := seq(count, _ => NoParent), seq(count, _ => 0);
      settled, positions := seq(count, _ => false), seq(count, _ => Absent)[start := At(0)];
      heap, settledOrder, finished := [start], 0, false;
      g, n := ProjectedRows(snapshot, projection, direction), count;
      run, rows := Run([Initial(count, start)], []), [];
    }

    /** The nearest vertex has been popped and reported, but its edges are not relaxed yet. */
    ghost predicate HasPopped(v: nat)
      reads this
    {
      && InputOk() && IsRun(g, n, start, limit, run) && StopsAt(run, target, false) && settledOrder == |rows|
      && AreRowsOf(Run(run.states, run.popped + [v]), rows)
      && IsPopped(run.states[|run.popped|], v, State())
      && HeapMatches(State(), heap, positions)
    }

    ghost predicate IsPopped(l: Labels, v: nat, state: Labels)
    {
      l.IsNext(v) && l.Sized(n) && state == Settle(l, v) && CanRelax(state, v, g(v)) && projection.Keeps(v)
    }

    method PopNearest() returns (v: nat, row: SsspRow)
      requires Valid() && !finished && |heap| > 0
      modifies this
      ensures HasPopped(v) && rows == old(rows) + [row] && row.vertex == v && finished == old(finished)
    {
      hide IsRun, AreRowsOf, HeapMatches, GraphOk, Inv, CanRelax, HeapOk, Contains;
      ghost var l, was, before := State(), heap, positions;
      HeadIsNext(l, heap, positions);
      RunKeepsInvariant(g, n, start, limit, run, |run.popped|);
      NextIsReady(snapshot, projection, direction, g, n, start, l, heap[0]);
      MatchingIsOk(l, heap, positions);
      v := Pop();
      PoppedMatches(l, was, before, heap, positions, v);
      RowAdded(g, n, start, limit, run, rows, v);
      settled := settled[v := true];
      assert State() == Settle(l, v);
      row := SsspRow(v, distances[v].value, parents[v], if parents[v].Parent? then parentEdges[v] else 0, settledOrder);
      rows, settledOrder := rows + [row], settledOrder + 1;
    }

    method Finish(ghost v: nat)
      requires HasPopped(v) && target == Target(v)
      modifies `finished, `run
      ensures Valid() && finished
    {
      hide AreRowsOf, HeapMatches;
      RunPops(g, n, start, limit, run, v);
      run, finished := Run(run.states, run.popped + [v]), true;
    }

    method RelaxPopped(v: nat) returns (overflow: bool)
      requires HasPopped(v) && target != Target(v) && !finished
      modifies `distances, `parents, `parentEdges, `heap, `positions, `run
      ensures overflow ==> InputOk() && RunOverflows(g, n, start, limit, target)
      ensures !overflow ==> Valid()
    {
      hide IsRun, AreRowsOf, HeapMatches, CanRelax, GraphOk, Settle;
      ghost var settledState := State();
      var edges := VisitWeightedNeighbors(snapshot, projection, direction, v);
      overflow := RelaxEdges(v, edges);
      if overflow {
        OverflowEndsRun(g, n, start, limit, run, v, settledState, target);
        return;
      }
      RunExtends(g, n, start, limit, run, rows, v, settledState, State(), target);
      run := Run(run.states + [State()], run.popped + [v]);
    }

    /** Pops the nearest vertex and reports it; unless it is the target its edges are relaxed. */
    method NextRow() returns (row: SsspRow, overflow: bool)
      requires Valid() && !finished && |heap| > 0
      modifies this
      ensures overflow ==> InputOk() && RunOverflows(g, n, start, limit, target)
      ensures !overflow ==> Valid() && rows == old(rows) + [row]
      ensures !overflow ==> (finished <==> target == Target(row.vertex))
    {
      hide HasPopped, Valid;
      var v;
      v, row := PopNearest();
      if target == Target(v) {
        Finish(v);
        return row, false;
      }
      overflow := RelaxPopped(v);
    }

    /** What holds of the rows so far, and of all rows when no more come. */
    ghost predicate IsAnswer(done: bool)
      reads this
    {
      && IsProjected(g, snapshot, projection, direction) && IsShortestPathTree(g, start, rows)
      && (finished ==> target.Target? && |rows| > 0 && rows[|rows| - 1].vertex == target.vertex)
      && (done && !finished ==> forall v: nat :: HasRowFor(rows, v) <==> Reachable(g, start, v))
      && (done && target.Target? ==> (finished <==> Reachable(g, start, target.vertex)))
    }

    lemma EmptyHeapIsComplete()
      requires Valid() && |heap| == 0 && !finished
      ensures forall v: nat :: HasRowFor(rows, v) <==> Reachable(g, start, v)
      ensures target.Target? ==> !HasRowFor(rows, target.vertex)
    {
      forall v: nat
        ensures !State().Open(v)
      {
        assert Contains(positions, v) <==> State().Open(v);
      }
      hide HeapMatches;
      forall v: nat
        ensures HasRowFor(rows, v) <==> Reachable(g, start, v)
      {
        CompleteRunReachesAll(g, n, start, limit, run, rows, v);
      }
      hide IsRun, AreRowsOf;
      if target.Target? {
        RowsArePopped(run, rows, target.vertex);
      }
    }

    lemma FinishedAtTarget()
      requires Valid() && finished
      ensures target.Target? && |rows| > 0 && rows[|rows| - 1].vertex == target.vertex
    {
      hide IsRun, GraphOk;
    }

    lemma AnswerIsRight()
      requires Valid()
      ensures IsAnswer(finished || |heap| == 0)
    {
      RunIsShortestPathTree(g, n, start, limit, run, rows);
      RowsAreProjected(snapshot, projection, direction);
      if finished {
        FinishedAtTarget();
        assert AtDistance(g, start, rows[|rows| - 1].vertex, rows[|rows| - 1].distance);
      } else if |heap| == 0 {
        EmptyHeapIsComplete();
      }
      hide Valid, IsShortestPathTree, HasRowFor, IsProjected;
    }

    /** Two searches from the same start agree row by row, whatever their targets and chunks. */
    static lemma RowsAgree(a: WeightedSssp, b: WeightedSssp)
      requires a.Valid() && b.Valid() && a.g == b.g && a.n == b.n && a.start == b.start && a.limit == b.limit
      requires |a.rows| <= |b.rows|
      ensures a.rows == b.rows[..|a.rows|]
    {
      ShorterRunIsPrefix(a.g, a.n, a.start, a.limit, a.run, b.run, a.rows, b.rows);
    }

    /** Fills a chunk of at most `size` rows; a chunk that is not full is the last. */
    method Fill(size: nat) returns (chunk: seq<SsspRow>, overflow: bool)
      requires Valid()
      modifies this
      ensures overflow ==> InputOk() && RunOverflows(g, n, start, limit, target)
      ensures !overflow ==> Valid() && rows == old(rows) + chunk && |chunk| <= size && IsAnswer(|chunk| < size)
    {
      hide Valid, IsAnswer;
      chunk, overflow := [], false;
      while |chunk| < size && |heap| > 0 && !finished
        invariant Valid() && rows == old(rows) + chunk && |chunk| <= size
        decreases size - |chunk|
      {
        var row;
        row, overflow := NextRow();
        if overflow {
          return;
        }
        chunk := chunk + [row];
      }
      AnswerIsRight();
      AnswerSoFar(finished || |heap| == 0, |chunk| < size);
    }

    lemma AnswerSoFar(done: bool, claimed: bool)
      requires IsAnswer(done) && (claimed ==> done)
      ensures IsAnswer(claimed)
    {
    }
  }
}
