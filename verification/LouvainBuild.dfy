/** Louvain from the snapshot: the simple undirected graph of the projection, its communities, and their names. */
module LouvainBuild {
  import opened CountingSort
  import opened Csr
  import opened Louvain
  import opened LouvainLevels
  import opened Merges
  import opened Modularities
  import opened Pairs
  import opened Scc
  import opened Sequences
  import opened Sums
  import opened Triangles
  import opened Walks

  // ----- numbering the projected vertices -----

  /** Ordinals of the projected vertices in order, and the way back; other vertices have none. */
  ghost predicate Numbered(n: nat, pr: Projection, kept: seq<nat>, number: seq<nat>)
  {
    && |number| == n && |kept| <= n <= MAX_UINT64
    && (forall x: nat :: x < |kept| ==> kept[x] < n && pr.Keeps(kept[x]) && number[kept[x]] == x)
    && (forall v: nat :: v < n ==>
        if pr.Keeps(v) then number[v] < |kept| && kept[number[v]] == v else number[v] == MAX_UINT64)
  }

  method NumberVertices(n: nat, pr: Projection) returns (kept: seq<nat>, number: seq<nat>)
    requires n <= MAX_UINT64
    ensures Numbered(n, pr, kept, number) && forall x, y :: 0 <= x < y < |kept| ==> kept[x] < kept[y]
  {
    number := seq(n, _ => MAX_UINT64);
    kept := [];
    for v := 0 to n
      invariant |number| == n && |kept| <= v
      invariant forall x, y :: 0 <= x < y < |kept| ==> kept[x] < kept[y]
      invariant forall x: nat :: x < |kept| ==> kept[x] < v && pr.Keeps(kept[x]) && number[kept[x]] == x
      invariant forall u: nat :: u < v ==>
        if pr.Keeps(u) then number[u] < |kept| && kept[number[u]] == u else number[u] == MAX_UINT64
      invariant forall u: nat :: v <= u < n ==> number[u] == MAX_UINT64
    {
      if pr.Keeps(v) {
        number := number[v := |kept|];
        kept := kept + [v];
      }
    }
  }

  ghost predicate Near(a: Arcs, kept: seq<nat>, x: nat, y: nat)
  {
    x < |kept| && y < |kept| && IsEdge(a, kept[x], kept[y])
  }

  ghost function NearSet(a: Arcs, kept: seq<nat>, x: nat): (s: set<nat>)
    ensures forall y: nat :: y in s <==> Near(a, kept, x, y)
  {
    set y: nat | y < |kept| && Near(a, kept, x, y)
  }

  // ----- visiting neighbours -----

  ghost predicate Leads(a: Arcs, kept: seq<nat>, x: nat, y: nat)
  {
    x < |kept| && y < |kept| && x != y && (kept[x], kept[y]) in a
  }

  /** The slots so far have been followed: their neighbours are found, and nothing else was added. */
  ghost predicate Followed(adj: Adjacency, pr: Projection, a: Arcs, kept: seq<nat>, number: seq<nat>, x: nat,
                           start: nat, end: nat,
                           before: seq<nat>, found: seq<nat>)
  {
    && (forall y :: y in before ==> y in found)
    && (forall y :: y in found ==> y in before || Leads(a, kept, x, y))
    && (forall slot: nat, y: nat :: start <= slot < end && SlotTo(adj, pr, kept, number, x, slot, y) ==> y in found)
  }

  ghost predicate SlotTo(adj: Adjacency, pr: Projection, kept: seq<nat>, number: seq<nat>, x: nat, slot: nat, y: nat)
  {
    && slot < |adj.labels| && slot < |adj.neighbors| && pr.KeepsLabel(adj.labels[slot])
    && adj.neighbors[slot] < |number| && number[adj.neighbors[slot]] == y && y < |kept| && y != x
  }

  ghost predicate MarkedOnce(markers: seq<nat>, found: seq<nat>, x: nat)
  {
    Distinct(found) && Marked(markers, found, x) && Unmarked(markers, |markers|, x + 1) && forall y :: y in found ==>
        y < |markers|
  }

  /** Follows one direction of a vertex's edges; a marker keeps each neighbour from being found twice. */
  method VisitSide(n: nat, adj: Adjacency, pr: Projection, kept: seq<nat>, number: seq<nat>, x: nat,
                   markers: array<nat>, before: seq<nat>,
                   ghost a: Arcs)
    returns (found: seq<nat>)
    requires adj.Valid(n) && a == ProjectedArcs(n, adj, pr) && Numbered(n, pr, kept, number)
      && x < |kept| == markers.Length
    requires MarkedOnce(markers[..], before, x)
    modifies markers
    ensures MarkedOnce(markers[..], found, x)
    ensures forall y: nat :: y in found <==> y in before || Leads(a, kept, x, y)
  {
    found := before;
    var slot: nat := adj.offsets[kept[x]];
    ghost var start: nat := slot;
    while slot < adj.offsets[kept[x] + 1]
      invariant start <= slot <= adj.offsets[kept[x] + 1] <= |adj.neighbors|
      invariant MarkedOnce(markers[..], found, x) && Followed(adj, pr, a, kept, number, x, start, slot, before, found)
    {
      found := VisitSlot(n, adj, pr, kept, number, x, markers, before, found, start, slot, a);
      slot := slot + 1;
    }
    AllFollowed(n, adj, pr, a, kept, number, x, before, found);
  }

  method VisitSlot(n: nat, adj: Adjacency, pr: Projection, kept: seq<nat>, number: seq<nat>, x: nat,
                   markers: array<nat>,
                   ghost before: seq<nat>, found: seq<nat>, ghost start: nat, slot: nat, ghost a: Arcs)
    returns (more: seq<nat>)
    requires adj.Valid(n) && a == ProjectedArcs(n, adj, pr) && Numbered(n, pr, kept, number)
      && x < |kept| == markers.Length
    requires adj.offsets[kept[x]] <= slot < adj.offsets[kept[x] + 1] && start <= slot
    requires MarkedOnce(markers[..], found, x) && Followed(adj, pr, a, kept, number, x, start, slot, before, found)
    modifies markers
    ensures MarkedOnce(markers[..], more, x) && Followed(adj, pr, a, kept, number, x, start, slot + 1, before, more)
  {
    more := found;
    hide ProjectedArcs;
    if pr.KeepsLabel(adj.labels[slot]) {
      var neighbor := number[adj.neighbors[slot]];
      if neighbor != MAX_UINT64 && neighbor != x && markers[neighbor] != x {
        SlotIsArc(n, adj, pr, kept[x], slot);
        assert Leads(a, kept, x, neighbor);
        markers[neighbor] := x;
        more := found + [neighbor];
      }
    }
  }

  lemma AllFollowed(n: nat, adj: Adjacency, pr: Projection, a: Arcs, kept: seq<nat>, number: seq<nat>, x: nat,
                    before: seq<nat>, found: seq<nat>)
    requires adj.Valid(n) && a == ProjectedArcs(n, adj, pr) && Numbered(n, pr, kept, number) && x < |kept|
    requires Followed(adj, pr, a, kept, number, x, adj.offsets[kept[x]], adj.offsets[kept[x] + 1], before, found)
    ensures forall y: nat :: y in found <==> y in before || Leads(a, kept, x, y)
  {
    forall y: nat | Leads(a, kept, x, y)
      ensures y in found
    {
      var slot := ArcHasSlot(n, adj, pr, kept[x], kept[y]);
      assert SlotTo(adj, pr, kept, number, x, slot, y);
    }
  }

  /** Each neighbour of the simple undirected graph once, outgoing edges first. */
  method VisitLouvainNeighbors(s: Snapshot, pr: Projection, kept: seq<nat>, number: seq<nat>, x: nat,
                               markers: array<nat>, ghost a: Arcs)
    returns (found: seq<nat>)
    requires s.Valid() && a == ProjectedArcs(|s.vertexIds|, s.outgoing, pr) && Numbered(|s.vertexIds|, pr, kept, number)
    requires x < |kept| == markers.Length && Unmarked(markers[..], |kept|, x)
    modifies markers
    ensures Unmarked(markers[..], |kept|, x + 1) && Distinct(found) && Elements(found) == NearSet(a, kept, x)
  {
    TransposeReversesArcs(s, pr);
    var n := |s.vertexIds|;
    var forth := VisitSide(n, s.outgoing, pr, kept, number, x, markers, [], a);
    found := VisitSide(n, s.incoming, pr, kept, number, x, markers, forth, Reverse(a));
    NearIsEitherWay(a, kept, number, pr, n, x, forth, found);
  }

  lemma NearIsEitherWay(a: Arcs, kept: seq<nat>, number: seq<nat>, pr: Projection, n: nat, x: nat, forth: seq<nat>,
                        found: seq<nat>)
    requires Numbered(n, pr, kept, number) && x < |kept|
    requires forall y: nat :: y in forth <==> Leads(a, kept, x, y)
    requires forall y: nat :: y in found <==> y in forth || Leads(Reverse(a), kept, x, y)
    ensures Elements(found) == NearSet(a, kept, x)
  {
    forall y: nat
      ensures y in found <==> Near(a, kept, x, y)
    {
      if x < |kept| && y < |kept| && x != y {
        assert number[kept[x]] == x && number[kept[y]] == y;
      }
    }
  }

  // ----- the graph -----

  /** The rows hold the neighbours of each vertex once, and the degrees their number. */
  ghost predicate RowsAre(offsets: seq<nat>, neighbors: seq<nat>, a: Arcs, kept: seq<nat>, m: nat)
  {
    forall x: nat :: x < m ==> RowIs(offsets, neighbors, a, kept, x)
  }

  ghost predicate RowIs(offsets: seq<nat>, neighbors: seq<nat>, a: Arcs, kept: seq<nat>, x: nat)
  {
    && HasSlots(offsets, neighbors, x) && Distinct(RowIn(offsets, neighbors, x))
    && Elements(RowIn(offsets, neighbors, x)) == NearSet(a, kept, x)
  }

  ghost predicate Measured(offsets: seq<nat>, degrees: seq<real>, a: Arcs, kept: seq<nat>, m: nat)
  {
    && |offsets| == m + 1 && |degrees| == m && offsets[0] == 0
    && forall x: nat :: x < m ==>
         offsets[x + 1] == offsets[x] + |NearSet(a, kept, x)| && degrees[x] == |NearSet(a, kept, x)| as real
  }

  /** First pass: how many neighbours each vertex has. */
  method MeasureRows(s: Snapshot, pr: Projection, kept: seq<nat>, number: seq<nat>, ghost a: Arcs)
    returns (offsets: seq<nat>, degrees: seq<real>)
    requires s.Valid() && a == ProjectedArcs(|s.vertexIds|, s.outgoing, pr) && Numbered(|s.vertexIds|, pr, kept, number)
    ensures Measured(offsets, degrees, a, kept, |kept|)
  {
    var markers := new nat[|kept|](_ => MAX_UINT64);
    offsets, degrees := [0], [];
    var x: nat := 0;
    StartUnmarked(markers[..], |s.vertexIds|, pr, kept, number);
    hide Numbered, Unmarked, ProjectedArcs;
    while x < |kept|
      invariant x <= |kept| == markers.Length && Unmarked(markers[..], |kept|, x)
        && Measured(offsets, degrees, a, kept, x)
    {
      var found := VisitLouvainNeighbors(s, pr, kept, number, x, markers, a);
      DistinctCardinality(found);
      offsets, degrees := offsets + [offsets[x] + |found|], degrees + [|found| as real];
      x := x + 1;
    }
  }

  /** Second pass: each vertex writes its neighbours from its offset on, which is where the last one stopped. */
  method FillRows(s: Snapshot, pr: Projection, kept: seq<nat>, number: seq<nat>, offsets: seq<nat>,
                  ghost degrees: seq<real>, ghost a: Arcs)
    returns (neighbors: seq<nat>)
    requires s.Valid() && a == ProjectedArcs(|s.vertexIds|, s.outgoing, pr) && Numbered(|s.vertexIds|, pr, kept, number)
    requires Measured(offsets, degrees, a, kept, |kept|)
    ensures |neighbors| == offsets[|kept|] && RowsAre(offsets, neighbors, a, kept, |kept|)
  {
    var markers := new nat[|kept|](_ => MAX_UINT64);
    neighbors := [];
    var x: nat := 0;
    hide Numbered, Unmarked, RowIs, ProjectedArcs;
    StartUnmarked(markers[..], |s.vertexIds|, pr, kept, number);
    while x < |kept|
      invariant x <= |kept| == markers.Length && Unmarked(markers[..], |kept|, x)
      invariant |neighbors| == offsets[x] && RowsAre(offsets, neighbors, a, kept, x)
    {
      var found := VisitLouvainNeighbors(s, pr, kept, number, x, markers, a);
      DistinctCardinality(found);
      RowAppended(offsets, neighbors, a, kept, x, found);
      neighbors := neighbors + found;
      x := x + 1;
    }
  }

  lemma StartUnmarked(markers: seq<nat>, n: nat, pr: Projection, kept: seq<nat>, number: seq<nat>)
    requires Numbered(n, pr, kept, number) && forall i :: 0 <= i < |markers| ==> markers[i] == MAX_UINT64
    ensures Unmarked(markers, |kept|, 0)
  {
  }

  lemma RowAppended(offsets: seq<nat>, neighbors: seq<nat>, a: Arcs, kept: seq<nat>, x: nat, found: seq<nat>)
    requires x + 1 < |offsets| && |neighbors| == offsets[x] && offsets[x + 1] == offsets[x] + |found|
    requires RowsAre(offsets, neighbors, a, kept, x) && Distinct(found) && Elements(found) == NearSet(a, kept, x)
    ensures RowsAre(offsets, neighbors + found, a, kept, x + 1)
  {
    forall y: nat | y < x + 1
      ensures RowIs(offsets, neighbors + found, a, kept, y)
    {
      if y < x {
        assert RowIs(offsets, neighbors, a, kept, y);
        assert RowIn(offsets, neighbors + found, y) == RowIn(offsets, neighbors, y);
      } else {
        assert RowIn(offsets, neighbors + found, y) == found;
      }
    }
  }

  /** Unit weights, one per neighbour of the simple graph. */
  ghost predicate Represents(g: LouvainGraph, a: Arcs, kept: seq<nat>)
  {
    && |g.degrees| == |kept|
    && forall x: nat, y: nat :: x < |kept| && y < |kept| ==> W(g, x, y) == if Near(a, kept, x, y) then 1.0 else 0.0
  }

  method BuildLouvainGraph(s: Snapshot, pr: Projection) returns (g: LouvainGraph, kept: seq<nat>)
    requires s.Valid() && |s.vertexIds| <= MAX_UINT64
    ensures var a := ProjectedArcs(|s.vertexIds|, s.outgoing, pr); g.Valid() && Represents(g, a, kept)
    ensures forall v: nat :: v in kept <==> v in Vertices(|s.vertexIds|, pr)
    ensures forall x, y :: 0 <= x < y < |kept| ==> kept[x] < kept[y]
  {
    ghost var a := ProjectedArcs(|s.vertexIds|, s.outgoing, pr);
    var number;
    kept, number := NumberVertices(|s.vertexIds|, pr);
    var offsets, degrees := MeasureRows(s, pr, kept, number, a);
    var neighbors := FillRows(s, pr, kept, number, offsets, degrees, a);
    g := LouvainGraph(offsets, neighbors, [], degrees, |neighbors| as real);
    BuiltIsValid(g, a, kept);
    forall v: nat
      ensures v in kept <==> v in Vertices(|s.vertexIds|, pr)
    {
      if v in Vertices(|s.vertexIds|, pr) {
        assert kept[number[v]] == v;
      }
    }
  }

  lemma {:induction false} OffsetsAscend(offsets: seq<nat>, degrees: seq<real>, a: Arcs, kept: seq<nat>, m: nat, i: nat,
                                         j: nat)
    requires Measured(offsets, degrees, a, kept, m) && i <= j <= m
    ensures offsets[i] <= offsets[j]
    decreases j
  {
    if i < j {
      OffsetsAscend(offsets, degrees, a, kept, m, i, j - 1);
    }
  }

  ghost predicate IsBuilt(g: LouvainGraph, a: Arcs, kept: seq<nat>)
  {
    && |g.degrees| == |kept| && g.weights == [] && Measured(g.offsets, g.degrees, a, kept, |kept|)
    && |g.neighbors| == g.offsets[|kept|] && RowsAre(g.offsets, g.neighbors, a, kept, |kept|)
    && g.totalDegree == |g.neighbors| as real
  }

  lemma BuiltIsShaped(g: LouvainGraph, a: Arcs, kept: seq<nat>)
    requires IsBuilt(g, a, kept)
    ensures g.Shaped()
  {
    forall i, j | 0 <= i <= j <= |kept|
      ensures g.offsets[i] <= g.offsets[j]
    {
      OffsetsAscend(g.offsets, g.degrees, a, kept, |kept|, i, j);
    }
    forall slot: nat | slot < |g.neighbors|
      ensures g.neighbors[slot] < |kept|
    {
      var x := RowOfSlot(g.offsets, slot, |kept|);
      assert RowIs(g.offsets, g.neighbors, a, kept, x);
      assert RowIn(g.offsets, g.neighbors, x)[slot - g.offsets[x]] == g.neighbors[slot];
      assert g.neighbors[slot] in Elements(RowIn(g.offsets, g.neighbors, x));
    }
  }

  lemma {:induction false} RowOfSlot(offsets: seq<nat>, slot: nat, m: nat) returns (x: nat)
    requires m < |offsets| && offsets[0] == 0 && slot < offsets[m]
    ensures x < m && offsets[x] <= slot < offsets[x + 1]
  {
    if m > 0 && slot < offsets[m - 1] {
      x := RowOfSlot(offsets, slot, m - 1);
    } else {
      x := m - 1;
    }
  }

  /** Slots of a duplicate-free row lead to a vertex at most once. */
  lemma {:induction false} UnitSlots(g: LouvainGraph, lo: nat, hi: nat, y: nat)
    requires g.Shaped() && g.weights == [] && lo <= hi <= |g.neighbors| && Distinct(g.neighbors[lo..hi])
    ensures SlotsTo(g, lo, hi, y) == if y in g.neighbors[lo..hi] then 1.0 else 0.0
    decreases hi
  {
    if lo < hi {
      assert g.neighbors[lo..hi] == g.neighbors[lo..hi - 1] + [g.neighbors[hi - 1]];
      DistinctInit(g.neighbors[lo..hi - 1], g.neighbors[hi - 1]);
      UnitSlots(g, lo, hi - 1, y);
    }
  }

  lemma {:induction false} AllSlots(g: LouvainGraph, lo: nat, hi: nat, p: nat -> bool)
    requires g.Shaped() && g.weights == [] && lo <= hi <= |g.neighbors| && forall v :: p(v)
    ensures SlotSum(g, lo, hi, p) == (hi - lo) as real
    decreases hi
  {
    if lo < hi {
      AllSlots(g, lo, hi - 1, p);
    }
  }

  lemma BuiltWeight(g: LouvainGraph, a: Arcs, kept: seq<nat>, x: nat, y: nat)
    requires IsBuilt(g, a, kept) && g.Shaped() && x < |kept|
    ensures W(g, x, y) == if Near(a, kept, x, y) then 1.0 else 0.0
  {
    assert RowIs(g.offsets, g.neighbors, a, kept, x);
    UnitSlots(g, g.offsets[x], g.offsets[x + 1], y);
    assert y in RowIn(g.offsets, g.neighbors, x) <==> y in NearSet(a, kept, x);
  }

  lemma BuiltDegree(g: LouvainGraph, a: Arcs, kept: seq<nat>, x: nat)
    requires IsBuilt(g, a, kept) && g.Shaped() && x < |kept|
    ensures g.degrees[x] == Sum(|g.degrees|, WeightTerm(g, x))
  {
    RowByNeighbor(g, x, (v: nat) => true, WeightTerm(g, x));
    AllSlots(g, g.offsets[x], g.offsets[x + 1], (v: nat) => true);
  }

  lemma {:induction false} BuiltTotal(g: LouvainGraph, a: Arcs, kept: seq<nat>, m: nat)
    requires IsBuilt(g, a, kept) && m <= |kept|
    ensures Sum(m, DegreeTerm(g)) == g.offsets[m] as real
  {
    if m > 0 {
      BuiltTotal(g, a, kept, m - 1);
    }
  }

  /** What the two passes build is a valid weighted graph: the simple graph with weight 1 on each edge. */
  lemma BuiltIsValid(g: LouvainGraph, a: Arcs, kept: seq<nat>)
    requires IsBuilt(g, a, kept)
    ensures g.Valid() && Represents(g, a, kept)
  {
    BuiltIsShaped(g, a, kept);
    BuiltTotal(g, a, kept, |kept|);
    forall x: nat, y: nat | x < |kept| && y < |kept|
      ensures W(g, x, y) == (if Near(a, kept, x, y) then 1.0 else 0.0) && Near(a, kept, x, y) == Near(a, kept, y, x)
    {
      BuiltWeight(g, a, kept, x, y);
    }
    forall x: nat | x < |kept|
      ensures g.degrees[x] == Sum(|kept|, WeightTerm(g, x))
    {
      BuiltDegree(g, a, kept, x);
    }
  }

  // ----- naming communities -----

  ghost function Community(kept: seq<nat>, c: seq<nat>, k: nat, m: nat): (s: set<nat>)
    requires m <= |kept| == |c|
    ensures forall v: nat :: v in s <==> exists x: nat :: x < m && c[x] == k && kept[x] == v
  {
    set x: nat | x < m && c[x] == k :: kept[x]
  }

  ghost predicate NamedAt(vertexIds: seq<nat>, kept: seq<nat>, c: seq<nat>, m: nat, id: nat, size: nat, k: nat)
    requires m <= |kept| == |c|
  {
    && size == |Community(kept, c, k, m)|
    && if Community(kept, c, k, m) == {} then id == MAX_UINT64 else Minimum(vertexIds, Community(kept, c, k, m), id)
  }

  lemma OneMoreMember(vertexIds: seq<nat>, kept: seq<nat>, c: seq<nat>, m: nat, id: nat, size: nat, k: nat)
    requires m < |kept| == |c| && kept[m] < |vertexIds| && vertexIds[kept[m]] <= MAX_UINT64
    requires (forall x, y :: 0 <= x < y < |kept| ==> kept[x] < kept[y]) && NamedAt(vertexIds, kept, c, m, id, size, k)
    ensures c[m] == k ==>
      NamedAt(vertexIds, kept, c, m + 1, if vertexIds[kept[m]] < id then vertexIds[kept[m]] else id, size + 1, k)
    ensures c[m] != k ==> NamedAt(vertexIds, kept, c, m + 1, id, size, k)
  {
    var before, after, v := Community(kept, c, k, m), Community(kept, c, k, m + 1), kept[m];
    CommunityNext(kept, c, k, m);
    if c[m] == k {
      if before == {} {
        assert after == {v};
      } else {
        MinimumGrows(vertexIds, before, id, v);
      }
    }
  }

  lemma CommunityNext(kept: seq<nat>, c: seq<nat>, k: nat, m: nat)
    requires m < |kept| == |c| && forall x, y :: 0 <= x < y < |kept| ==> kept[x] < kept[y]
    ensures kept[m] !in Community(kept, c, k, m)
    ensures Community(kept, c, k, m + 1) == Community(kept, c, k, m) + (if c[m] == k then {kept[m]} else {})
  {
    forall v: nat
      ensures v in Community(kept, c, k, m + 1) <==> v in Community(kept, c, k, m) || (c[m] == k && v == kept[m])
    {
      if v in Community(kept, c, k, m) {
        var x: nat :| x < m && c[x] == k && kept[x] == v;
        assert x < m + 1;
      }
      if c[m] == k && v == kept[m] {
        assert m < m + 1;
      }
    }
  }

  ghost predicate AllNamed(vertexIds: seq<nat>, kept: seq<nat>, c: seq<nat>, m: nat, ids: seq<nat>, sizes: seq<nat>,
                           count: nat)
  {
    && m <= |kept| == |c| && |ids| == |sizes| == count
    && forall k: nat :: k < count ==> NamedAt(vertexIds, kept, c, m, ids[k], sizes[k], k)
  }

  lemma NothingNamed(vertexIds: seq<nat>, kept: seq<nat>, c: seq<nat>, ids: seq<nat>, sizes: seq<nat>, count: nat)
    requires |kept| == |c| && |ids| == |sizes| == count && forall k: nat :: k < count ==>
      ids[k] == MAX_UINT64 && sizes[k] == 0
    ensures AllNamed(vertexIds, kept, c, 0, ids, sizes, count)
  {
    forall k: nat | k < count
      ensures Community(kept, c, k, 0) == {}
    {
    }
  }

  lemma NamesNext(vertexIds: seq<nat>, kept: seq<nat>, c: seq<nat>, m: nat, ids: seq<nat>, sizes: seq<nat>, count: nat)
    requires AllNamed(vertexIds, kept, c, m, ids, sizes, count)
    requires m < |kept| == |c| && c[m] < count && kept[m] < |vertexIds| && vertexIds[kept[m]] <= MAX_UINT64
    requires forall x, y :: 0 <= x < y < |kept| ==> kept[x] < kept[y]
    ensures var k, id := c[m], vertexIds[kept[m]];
      AllNamed(vertexIds, kept, c, m + 1, ids[k := if id < ids[k] then id else ids[k]], sizes[k := sizes[k] + 1], count)
  {
    hide NamedAt;
    forall k: nat | k < count
      ensures c[m] == k ==>
        NamedAt(vertexIds, kept, c, m + 1, if vertexIds[kept[m]] < ids[k] then vertexIds[kept[m]]
                else ids[k], sizes[k] + 1, k)
      ensures c[m] != k ==> NamedAt(vertexIds, kept, c, m + 1, ids[k], sizes[k], k)
    {
      OneMoreMember(vertexIds, kept, c, m, ids[k], sizes[k], k);
    }
  }

  /** The least external id and the size of every community. */
  method NameCommunities(vertexIds: seq<nat>, kept: seq<nat>, c: seq<nat>, count: nat) returns (ids: seq<nat>,
                                                                                                sizes: seq<nat>)
    requires |c| == |kept| && (forall x :: 0 <= x < |c| ==> c[x] < count && kept[x] < |vertexIds|)
    requires (forall x, y :: 0 <= x < y < |kept| ==> kept[x] < kept[y]) && forall id :: id in vertexIds ==>
      id <= MAX_UINT64
    ensures AllNamed(vertexIds, kept, c, |c|, ids, sizes, count)
  {
    ids, sizes := seq(count, _ => MAX_UINT64), seq(count, _ => 0);
    NothingNamed(vertexIds, kept, c, ids, sizes, count);
    hide AllNamed;
    var x: nat := 0;
    while x < |c|
      invariant x <= |c| && |ids| == |sizes| == count && AllNamed(vertexIds, kept, c, x, ids, sizes, count)
    {
      assert vertexIds[kept[x]] in vertexIds;
      NamesNext(vertexIds, kept, c, x, ids, sizes, count);
      var community, id := c[x], vertexIds[kept[x]];
      ids := ids[community := if id < ids[community] then id else ids[community]];
      sizes := sizes[community := sizes[community] + 1];
      x := x + 1;
    }
  }

  datatype LouvainRows = LouvainRows(kept: seq<nat>, communities: seq<nat>, ids: seq<nat>, sizes: seq<nat>,
                                     modularity: real, levels: nat, iterations: nat, converged: bool)

  /** From a snapshot to named communities.  The modularity is the composed partition's in the simple
      undirected graph of the projection, above that of single vertices unless these are settled, and by
      more than twice the tolerance for every pass beyond the last of each level.  A call that does not
      converge has met a limit; where it does, merging no two of the communities would raise modularity
      by more than twice the tolerance. */
  method ComputeLouvain(s: Snapshot, pr: Projection, p: Parameters) returns (r: LouvainRows, ghost g: LouvainGraph)
    requires s.Valid() && |s.vertexIds| <= MAX_UINT64 && (forall id :: id in s.vertexIds ==> id <= MAX_UINT64)
      && p.Valid()
    ensures g.Valid() && Represents(g, ProjectedArcs(|s.vertexIds|, s.outgoing, pr), r.kept)
    ensures forall v: nat :: v in r.kept <==> v in Vertices(|s.vertexIds|, pr)
    ensures |r.communities| == |r.kept| && forall x: nat :: x < |r.kept| ==> HasName(s.vertexIds, r, x)
    ensures r.levels <= p.maxLevels && r.levels <= r.iterations <= r.levels * p.maxIterations
    ensures r.kept != [] ==> 1 <= r.levels
    ensures !r.converged ==> r.levels == p.maxLevels || r.iterations >= p.maxIterations
    ensures r.converged && g.totalDegree != 0.0 ==> MergesGainLittle(g, p, r.communities, |r.ids|)
    ensures Compact(r.communities, |r.ids|) && |r.sizes| == |r.ids|
    ensures g.totalDegree == 0.0 ==>
      && r.communities == Singletons(|r.kept|) && r.modularity == 0.0
      && r.converged && r.iterations == r.levels <= 1
    ensures g.totalDegree != 0.0 ==>
      var singles := Modularity(g, p.resolution, Singletons(|r.kept|));
      && r.modularity == Modularity(g, p.resolution, r.communities) >= singles
      && (r.iterations > r.levels ==> r.modularity > singles + Gains(p.tolerance, r.iterations - r.levels))
      && (!SinglesSettled(g, p) ==> r.modularity > singles)
  {
    var original, kept := BuildLouvainGraph(s, pr);
    g := original;
    assert NonNegative(g);
    var c := ClusterLevels(original, p);
    forall x: nat | x < |kept|
      ensures kept[x] < |s.vertexIds|
    {
      assert kept[x] in kept;
    }
    var ids, sizes := NameCommunities(s.vertexIds, kept, c.communities, c.communityCount);
    r := LouvainRows(kept, c.communities, ids, sizes, c.modularity, c.levels, c.iterations, c.converged);
    forall x: nat | x < |kept|
      ensures HasName(s.vertexIds, r, x)
    {
      NamedIsName(s.vertexIds, r, x, c.communityCount);
    }
  }

  /** The row of a vertex shows the least id and the size of its community. */
  ghost predicate HasName(vertexIds: seq<nat>, r: LouvainRows, x: nat)
  {
    && x < |r.communities| == |r.kept| && r.communities[x] < |r.ids| && r.communities[x] < |r.sizes|
    && var members := Community(r.kept, r.communities, r.communities[x], |r.kept|);
      r.kept[x] in members && Minimum(vertexIds, members, r.ids[r.communities[x]])
      && r.sizes[r.communities[x]] == |members|
  }

  lemma NamedIsName(vertexIds: seq<nat>, r: LouvainRows, x: nat, count: nat)
    requires x < |r.communities| && r.communities[x] < count
    requires AllNamed(vertexIds, r.kept, r.communities, |r.kept|, r.ids, r.sizes, count)
    ensures HasName(vertexIds, r, x)
  {
    var k := r.communities[x];
    assert NamedAt(vertexIds, r.kept, r.communities, |r.kept|, r.ids[k], r.sizes[k], k);
    assert r.kept[x] in Community(r.kept, r.communities, k, |r.kept|);
  }
}
