/** Sorted, duplicate-free lists of vertex pairs, as the triangle and clustering counts build them. */
module Pairs {
  import opened Csr
  import opened Sequences
  import opened Walks

  type Pair = (nat, nat)

  predicate Before(p: Pair, q: Pair)
  {
    p.0 < q.0 || (p.0 == q.0 && p.1 < q.1)
  }

  ghost predicate InPairOrder(s: seq<Pair>)
  {
    forall i, j :: 0 <= i < j < |s| ==> Before(s[i], s[j])
  }

  function InsertPair(s: seq<Pair>, p: Pair): seq<Pair>
  {
    if |s| == 0 || Before(p, s[0]) then [p] + s
    else if p == s[0] then s
    else [s[0]] + InsertPair(s[1..], p)
  }

  /** Stands for the library sort followed by dropping repeats. */
  function SortedUnique(s: seq<Pair>): seq<Pair>
  {
    if |s| == 0 then [] else InsertPair(SortedUnique(s[1..]), s[0])
  }

  lemma {:induction false} InsertPairContents(s: seq<Pair>, p: Pair)
    ensures forall q :: q in InsertPair(s, p) <==> q in s || q == p
  {
    if |s| > 0 && !Before(p, s[0]) && p != s[0] {
      InsertPairContents(s[1..], p);
      assert s == [s[0]] + s[1..];
    }
  }

  lemma {:induction false} InsertPairOrder(s: seq<Pair>, p: Pair)
    requires InPairOrder(s)
    ensures InPairOrder(InsertPair(s, p))
  {
    if |s| > 0 && !Before(p, s[0]) && p != s[0] {
      var rest := InsertPair(s[1..], p);
      InsertPairOrder(s[1..], p);
      InsertPairContents(s[1..], p);
      forall i | 0 <= i < |rest|
        ensures Before(s[0], rest[i])
      {
        assert rest[i] in rest;
      }
    }
  }

  /** Sorting with repeats dropped keeps the pairs, in order, each once. */
  lemma {:induction false} SortedUniqueIsSort(s: seq<Pair>)
    ensures InPairOrder(SortedUnique(s)) && Distinct(SortedUnique(s))
    ensures forall q :: q in SortedUnique(s) <==> q in s
  {
    if |s| > 0 {
      SortedUniqueIsSort(s[1..]);
      InsertPairOrder(SortedUnique(s[1..]), s[0]);
      InsertPairContents(SortedUnique(s[1..]), s[0]);
      assert s == [s[0]] + s[1..];
    }
  }

  function Undirected(p: Pair): Pair
  {
    if p.0 <= p.1 then p else (p.1, p.0)
  }

  /** What a visit of one arc adds to the list: nothing for a loop. */
  function Listed(p: Pair, directed: bool): seq<Pair>
  {
    if p.0 == p.1 then [] else if directed then [p] else [Undirected(p)]
  }

  /** The distinct arcs between different vertices, or the edges they make when their direction is ignored. */
  ghost predicate Lists(pairs: seq<Pair>, a: Arcs, directed: bool)
  {
    && Distinct(pairs) && InPairOrder(pairs)
    && forall p :: p in pairs <==> if directed then p in a && p.0 != p.1 else IsEdge(a, p.0, p.1) && p.0 < p.1
  }

  /** Neighbours in the simple graph: an arc either way, and no loops. */
  ghost predicate IsEdge(a: Arcs, u: nat, v: nat)
  {
    u != v && ((u, v) in a || (v, u) in a)
  }

  /** The pairs listed so far: those of every arc from a finished vertex and of the first slots of the next. */
  ghost predicate HoldsArcs(pairs: seq<Pair>, a: Arcs, directed: bool, m: nat)
  {
    && (forall p :: p in pairs ==> exists e :: e in a && p in Listed(e, directed))
    && forall e, p :: e in a && e.0 < m && p in Listed(e, directed) ==> p in pairs
  }

  ghost predicate HoldsSlots(pairs: seq<Pair>, adj: Adjacency, pr: Projection, directed: bool, source: nat, start: nat,
                             end: nat)
    requires end <= |adj.neighbors| && end <= |adj.labels|
  {
    forall slot: nat, p :: start <= slot < end && SlotLists(adj, pr, directed, source, slot, p) ==> p in pairs
  }

  ghost predicate SlotLists(adj: Adjacency, pr: Projection, directed: bool, source: nat, slot: nat, p: Pair)
    requires slot < |adj.neighbors| && slot < |adj.labels|
  {
    && pr.KeepsLabel(adj.labels[slot]) && pr.Keeps(adj.neighbors[slot])
    && p in Listed((source, adj.neighbors[slot]), directed)
  }

  ghost predicate FromArcs(pairs: seq<Pair>, a: Arcs, directed: bool)
  {
    forall p :: p in pairs ==> exists e :: e in a && p in Listed(e, directed)
  }

  method VisitRow(n: nat, adj: Adjacency, pr: Projection, directed: bool, source: nat, pairs: seq<Pair>,
                  ghost a: Arcs)
    returns (more: seq<Pair>)
    requires adj.Valid(n) && a == ProjectedArcs(n, adj, pr) && source < n && pr.Keeps(source)
      && FromArcs(pairs, a, directed)
    ensures FromArcs(more, a, directed) && forall p :: p in pairs ==> p in more
    ensures HoldsSlots(more, adj, pr, directed, source, adj.offsets[source], adj.offsets[source + 1])
  {
    hide ProjectedArcs;
    more := pairs;
    var slot: nat := adj.offsets[source];
    while slot < adj.offsets[source + 1]
      invariant adj.offsets[source] <= slot <= adj.offsets[source + 1] <= |adj.neighbors|
      invariant FromArcs(more, a, directed) && forall p :: p in pairs ==> p in more
      invariant HoldsSlots(more, adj, pr, directed, source, adj.offsets[source], slot)
    {
      var target := adj.neighbors[slot];
      if pr.KeepsLabel(adj.labels[slot]) && source != target && pr.Keeps(target) {
        SlotIsArc(n, adj, pr, source, slot);
        var pair := if directed then (source, target) else Undirected((source, target));
        assert pair in Listed((source, target), directed);
        more := more + [pair];
      }
      slot := slot + 1;
    }
  }

  lemma RowHeld(n: nat, adj: Adjacency, pr: Projection, directed: bool, source: nat, a: Arcs, before: seq<Pair>,
                after: seq<Pair>)
    requires adj.Valid(n) && a == ProjectedArcs(n, adj, pr) && source < n && HoldsArcs(before, a, directed, source)
    requires FromArcs(after, a, directed) && forall p :: p in before ==> p in after
    requires pr.Keeps(source) ==>
      HoldsSlots(after, adj, pr, directed, source, adj.offsets[source], adj.offsets[source + 1])
    ensures HoldsArcs(after, a, directed, source + 1)
  {
    forall e, p | e in a && e.0 < source + 1 && p in Listed(e, directed)
      ensures p in after
    {
      if e.0 == source {
        var slot := ArcHasSlot(n, adj, pr, e.0, e.1);
        assert SlotLists(adj, pr, directed, source, slot, p);
      }
    }
  }

  method ListPairs(n: nat, adj: Adjacency, pr: Projection, directed: bool, ghost a: Arcs) returns (pairs: seq<Pair>)
    requires adj.Valid(n) && a == ProjectedArcs(n, adj, pr)
    ensures Lists(pairs, a, directed)
  {
    var collected: seq<Pair> := [];
    var source: nat := 0;
    hide ProjectedArcs, HoldsSlots;
    while source < n
      invariant source <= n && HoldsArcs(collected, a, directed, source) && FromArcs(collected, a, directed)
    {
      ghost var before := collected;
      if pr.Keeps(source) {
        collected := VisitRow(n, adj, pr, directed, source, collected, a);
      }
      RowHeld(n, adj, pr, directed, source, a, before, collected);
      source := source + 1;
    }
    ArcsInside(n, adj, pr, a);
    CollectedIsList(collected, a, directed, n);
    pairs := SortedUnique(collected);
  }

  lemma ArcsInside(n: nat, adj: Adjacency, pr: Projection, a: Arcs)
    requires a == ProjectedArcs(n, adj, pr)
    ensures forall e :: e in a ==> e.0 < n && e.1 < n
  {
  }

  lemma CollectedIsList(collected: seq<Pair>, a: Arcs, directed: bool, n: nat)
    requires HoldsArcs(collected, a, directed, n) && forall e :: e in a ==> e.0 < n
    ensures Lists(SortedUnique(collected), a, directed)
  {
    SortedUniqueIsSort(collected);
    forall p: Pair
      ensures p in collected <==> if directed then p in a && p.0 != p.1 else IsEdge(a, p.0, p.1) && p.0 < p.1
    {
      if directed && p in a && p.0 != p.1 {
        assert p in Listed(p, true);
      }
      if !directed && IsEdge(a, p.0, p.1) && p.0 < p.1 {
        var e := if (p.0, p.1) in a then (p.0, p.1) else (p.1, p.0);
        assert p in Listed(e, false);
      }
    }
  }

  // ----- degrees -----

  /** How many of the first `m` pairs have this end. */
  ghost function EndsAt(pairs: seq<Pair>, v: nat, m: nat): nat
    requires m <= |pairs|
  {
    if m == 0 then 0
    else EndsAt(pairs, v, m - 1) + (if pairs[m - 1].0 == v then 1 else 0) + (if pairs[m - 1].1 == v then 1 else 0)
  }

  method CountDegrees(pairs: seq<Pair>, n: nat) returns (degrees: seq<nat>)
    requires forall p :: p in pairs ==> p.0 < n && p.1 < n && p.0 != p.1
    ensures |degrees| == n && forall v: nat :: v < n ==> degrees[v] == EndsAt(pairs, v, |pairs|)
  {
    degrees := seq(n, _ => 0);
    var i: nat := 0;
    while i < |pairs|
      invariant i <= |pairs| && |degrees| == n && forall v: nat :: v < n ==> degrees[v] == EndsAt(pairs, v, i)
    {
      assert pairs[i] in pairs;
      degrees := degrees[pairs[i].0 := degrees[pairs[i].0] + 1];
      degrees := degrees[pairs[i].1 := degrees[pairs[i].1] + 1];
      i := i + 1;
    }
  }

  /** The far ends of the pairs at a vertex. */
  ghost function FarEnds(pairs: seq<Pair>, v: nat, m: nat): (s: seq<nat>)
    requires m <= |pairs|
  {
    if m == 0 then []
    else
      FarEnds(pairs, v, m - 1)
      + (if pairs[m - 1].0 == v then [pairs[m - 1].1] else if pairs[m - 1].1 == v then [pairs[m - 1].0] else [])
  }

  ghost predicate Joins(pairs: seq<Pair>, v: nat, w: nat, m: nat)
    requires m <= |pairs|
  {
    exists i :: 0 <= i < m && (pairs[i] == (v, w) || pairs[i] == (w, v))
  }

  lemma {:induction false} FarEndsAreJoined(pairs: seq<Pair>, v: nat, m: nat)
    requires m <= |pairs| && Distinct(pairs) && forall p :: p in pairs ==> p.0 < p.1
    ensures |FarEnds(pairs, v, m)| == EndsAt(pairs, v, m) && Distinct(FarEnds(pairs, v, m))
    ensures forall w: nat :: w in FarEnds(pairs, v, m) <==> Joins(pairs, v, w, m)
  {
    if m > 0 {
      var p := pairs[m - 1];
      assert p in pairs;
      FarEndsAreJoined(pairs, v, m - 1);
      var before := FarEnds(pairs, v, m - 1);
      forall w: nat
        ensures Joins(pairs, v, w, m) <==> Joins(pairs, v, w, m - 1) || p == (v, w) || p == (w, v)
      {
      }
      if p.0 == v || p.1 == v {
        var far := if p.0 == v then p.1 else p.0;
        forall i | 0 <= i < m - 1
          ensures pairs[i] != (v, far) && pairs[i] != (far, v)
        {
          assert pairs[i] in pairs;
        }
        assert far !in before;
      }
    }
  }

  ghost function Neighbors(a: Arcs, n: nat, v: nat): set<nat>
  {
    set w: nat | w < n && IsEdge(a, v, w)
  }

  /** The degree of a vertex is the number of its neighbours in the simple graph. */
  lemma DegreeIsNeighbors(pairs: seq<Pair>, a: Arcs, n: nat, v: nat)
    requires Lists(pairs, a, false) && forall p :: p in pairs ==> p.0 < n && p.1 < n
    ensures EndsAt(pairs, v, |pairs|) == |Neighbors(a, n, v)|
  {
    var far := FarEnds(pairs, v, |pairs|);
    FarEndsAreJoined(pairs, v, |pairs|);
    forall w: nat
      ensures w in far <==> w in Neighbors(a, n, v)
    {
      if w in far {
        var i :| 0 <= i < |pairs| && (pairs[i] == (v, w) || pairs[i] == (w, v));
        assert pairs[i] in pairs;
      }
      if w in Neighbors(a, n, v) {
        assert Undirected((v, w)) in pairs;
        var i :| 0 <= i < |pairs| && pairs[i] == Undirected((v, w));
        assert Joins(pairs, v, w, |pairs|);
      }
    }
    assert Elements(far) == Neighbors(a, n, v);
    DistinctCardinality(far);
  }
}
