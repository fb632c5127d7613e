/** Triangle counts: edges oriented by (degree, ordinal), then marked and closed. */
module Triangles {
  import opened CountingSort
  import opened Csr
  import opened Pairs
  import opened Sequences
  import opened Walks

  // ----- triangles of the simple graph -----

  ghost predicate IsTriangle(a: Arcs, x: nat, y: nat, z: nat)
  {
    IsEdge(a, x, y) && IsEdge(a, y, z) && IsEdge(a, x, z)
  }

  /** Every triangle once, as the set of its corners. */
  ghost function AllTriangles(a: Arcs, n: nat): set<set<nat>>
  {
    set x: nat, y: nat, z: nat | x < n && y < n && z < n && IsTriangle(a, x, y, z) :: {x, y, z}
  }

  ghost function TrianglesAt(a: Arcs, n: nat, v: nat): set<set<nat>>
  {
    set t | t in AllTriangles(a, n) && v in t
  }

  // ----- orientation -----

  /** The vertex of lower degree, or of lower ordinal among equals, comes first. */
  predicate LowerRank(degrees: seq<nat>, u: nat, v: nat)
    requires u < |degrees| && v < |degrees|
  {
    degrees[u] < degrees[v] || (degrees[u] == degrees[v] && u < v)
  }

  ghost predicate Forward(a: Arcs, degrees: seq<nat>, u: nat, v: nat)
  {
    u < |degrees| && v < |degrees| && IsEdge(a, u, v) && LowerRank(degrees, u, v)
  }

  /** Each row lists the forward neighbours of its vertex once. */
  ghost predicate IsForward(rows: NeighborRows, a: Arcs, degrees: seq<nat>)
  {
    forall v: nat :: v < |degrees| ==> ListsForward(rows(v), a, degrees, v)
  }

  ghost predicate ListsForward(row: seq<nat>, a: Arcs, degrees: seq<nat>, v: nat)
  {
    Distinct(row) && forall w: nat :: w in row <==> Forward(a, degrees, v, w)
  }

  type Triple = (nat, nat, nat)

  /** A source, a forward neighbour, and a vertex that both lead to. */
  ghost predicate Closes(rows: NeighborRows, n: nat, t: Triple)
  {
    t.0 < n && t.1 in rows(t.0) && t.2 in rows(t.1) && t.2 in rows(t.0)
  }

  function Corners(t: Triple): set<nat>
  {
    {t.0, t.1, t.2}
  }

  /** How many triples have this corner. */
  ghost function Occurs(trace: seq<Triple>, v: nat): nat
  {
    if |trace| == 0 then 0 else Occurs(trace[..|trace| - 1], v) + (if v in Corners(trace[|trace| - 1]) then 1 else 0)
  }

  ghost function AllCorners(trace: seq<Triple>): (s: seq<set<nat>>)
    ensures |s| == |trace| && forall i :: 0 <= i < |s| ==> s[i] == Corners(trace[i])
  {
    seq(|trace|, i requires 0 <= i < |trace| => Corners(trace[i]))
  }

  /** The rank order makes the listed order of a triangle's corners unique. */
  lemma CornersDetermineTriple(rows: NeighborRows, a: Arcs, degrees: seq<nat>, s: Triple, t: Triple)
    requires IsForward(rows, a, degrees) && Closes(rows, |degrees|, s) && Closes(rows, |degrees|, t)
      && Corners(s) == Corners(t)
    ensures s == t
  {
    TripleIsRanked(rows, a, degrees, s);
    TripleIsRanked(rows, a, degrees, t);
    assert s.0 in Corners(t) && s.1 in Corners(t) && s.2 in Corners(t);
    assert t.0 in Corners(s) && t.1 in Corners(s) && t.2 in Corners(s);
  }

  lemma TripleIsRanked(rows: NeighborRows, a: Arcs, degrees: seq<nat>, t: Triple)
    requires IsForward(rows, a, degrees) && Closes(rows, |degrees|, t)
    ensures Forward(a, degrees, t.0, t.1) && Forward(a, degrees, t.1, t.2) && Forward(a, degrees, t.0, t.2)
  {
    assert ListsForward(rows(t.0), a, degrees, t.0);
    assert ListsForward(rows(t.1), a, degrees, t.1);
  }

  /** Every triangle can be listed by rank. */
  lemma TriangleHasTriple(rows: NeighborRows, a: Arcs, degrees: seq<nat>, x: nat, y: nat, z: nat) returns (t: Triple)
    requires IsForward(rows, a, degrees) && IsTriangle(a, x, y, z) && x < |degrees| && y < |degrees| && z < |degrees|
    ensures Closes(rows, |degrees|, t) && Corners(t) == {x, y, z}
  {
    assert ListsForward(rows(x), a, degrees, x) && ListsForward(rows(y), a, degrees, y)
        && ListsForward(rows(z), a, degrees, z);
    var xy, yz, xz := LowerRank(degrees, x, y), LowerRank(degrees, y, z), LowerRank(degrees, x, z);
    t := if xy && yz then (x, y, z)
         else if xy && xz then (x, z, y)
         else if xy then (z, x, y)
         else if xz then (y, x, z)
         else if yz then (y, z, x)
         else (z, y, x);
  }

  /** The trace holds every closing triple, once. */
  ghost predicate IsTrace(trace: seq<Triple>, rows: NeighborRows, n: nat)
  {
    Distinct(trace) && forall t :: t in trace <==> Closes(rows, n, t)
  }

  lemma TraceIsTriangles(trace: seq<Triple>, rows: NeighborRows, a: Arcs, degrees: seq<nat>)
    requires IsForward(rows, a, degrees) && IsTrace(trace, rows, |degrees|)
    ensures Distinct(AllCorners(trace)) && Elements(AllCorners(trace)) == AllTriangles(a, |degrees|)
    ensures |trace| == |AllTriangles(a, |degrees|)|
  {
    var n, corners := |degrees|, AllCorners(trace);
    forall i, j | 0 <= i < j < |corners|
      ensures corners[i] != corners[j]
    {
      if corners[i] == corners[j] {
        assert trace[i] in trace && trace[j] in trace;
        CornersDetermineTriple(rows, a, degrees, trace[i], trace[j]);
      }
    }
    forall c
      ensures c in corners <==> c in AllTriangles(a, n)
    {
      if c in corners {
        var i :| 0 <= i < |corners| && corners[i] == c;
        var t := trace[i];
        assert t in trace;
        TripleIsRanked(rows, a, degrees, t);
        assert IsTriangle(a, t.0, t.1, t.2);
      }
      if c in AllTriangles(a, n) {
        var x: nat, y: nat, z: nat :| x < n && y < n && z < n && IsTriangle(a, x, y, z) && c == {x, y, z};
        var t := TriangleHasTriple(rows, a, degrees, x, y, z);
        assert t in trace;
        var i :| 0 <= i < |trace| && trace[i] == t;
        assert corners[i] == c;
      }
    }
    DistinctCardinality(corners);
  }

  ghost function With(trace: seq<Triple>, v: nat): (s: seq<set<nat>>)
    ensures |s| == Occurs(trace, v)
  {
    if |trace| == 0 then []
    else
      var last := Corners(trace[|trace| - 1]);
      With(trace[..|trace| - 1], v) + (if v in last then [last] else [])
  }

  lemma {:induction false} WithIsFilter(trace: seq<Triple>, v: nat)
    requires Distinct(AllCorners(trace))
    ensures Distinct(With(trace, v))
    ensures forall c :: c in With(trace, v) <==> c in AllCorners(trace) && v in c
  {
    if |trace| > 0 {
      var init, last := trace[..|trace| - 1], Corners(trace[|trace| - 1]);
      assert AllCorners(trace) == AllCorners(init) + [last];
      assert forall i :: 0 <= i < |init| ==> AllCorners(init)[i] == AllCorners(trace)[i];
      assert last !in AllCorners(init);
      WithIsFilter(init, v);
    }
  }

  /** A vertex occurs in as many triples as there are triangles through it. */
  lemma OccursIsTrianglesAt(trace: seq<Triple>, rows: NeighborRows, a: Arcs, degrees: seq<nat>, v: nat)
    requires IsForward(rows, a, degrees) && IsTrace(trace, rows, |degrees|)
    ensures Occurs(trace, v) == |TrianglesAt(a, |degrees|, v)|
  {
    TraceIsTriangles(trace, rows, a, degrees);
    WithIsFilter(trace, v);
    DistinctCardinality(With(trace, v));
    assert Elements(With(trace, v)) == TrianglesAt(a, |degrees|, v) by {
      forall c
        ensures c in With(trace, v) <==> c in TrianglesAt(a, |degrees|, v)
      {
        assert c in Elements(AllCorners(trace)) <==> c in AllCorners(trace);
      }
    }
  }

  // ----- the counts sum to three times the number -----

  function Total(counts: seq<nat>): nat
  {
    if |counts| == 0 then 0 else Total(counts[..|counts| - 1]) + counts[|counts| - 1]
  }

  ghost function OccursUpTo(trace: seq<Triple>, n: nat): (s: seq<nat>)
    ensures |s| == n && forall v: nat :: v < n ==> s[v] == Occurs(trace, v)
  {
    seq(n, v requires 0 <= v < n => Occurs(trace, v))
  }

  ghost function CornersBelow(t: Triple, n: nat): nat
  {
    if n == 0 then 0 else CornersBelow(t, n - 1) + (if n - 1 in Corners(t) then 1 else 0)
  }

  lemma {:induction false} AllCornersBelow(t: Triple, n: nat)
    requires t.0 != t.1 && t.1 != t.2 && t.0 != t.2
    ensures CornersBelow(t, n) == (if t.0 < n then 1 else 0) + (if t.1 < n then 1 else 0) + (if t.2 < n then 1 else 0)
  {
    if n > 0 {
      AllCornersBelow(t, n - 1);
    }
  }

  lemma OccursNext(trace: seq<Triple>, t: Triple, v: nat)
    ensures Occurs(trace + [t], v) == Occurs(trace, v) + (if v in Corners(t) then 1 else 0)
  {
    assert (trace + [t])[..|trace|] == trace;
  }

  lemma TotalNext(trace: seq<Triple>, n: nat)
    requires n > 0
    ensures Total(OccursUpTo(trace, n)) == Total(OccursUpTo(trace, n - 1)) + Occurs(trace, n - 1)
  {
    assert OccursUpTo(trace, n)[..n - 1] == OccursUpTo(trace, n - 1);
  }

  lemma {:induction false} OneMoreTriple(trace: seq<Triple>, t: Triple, n: nat)
    ensures Total(OccursUpTo(trace + [t], n)) == Total(OccursUpTo(trace, n)) + CornersBelow(t, n)
  {
    hide Occurs, Corners;
    if n > 0 {
      OneMoreTriple(trace, t, n - 1);
      TotalNext(trace, n);
      TotalNext(trace + [t], n);
      OccursNext(trace, t, n - 1);
    }
  }

  lemma {:induction false} TotalIsThrice(trace: seq<Triple>, n: nat)
    requires forall t :: t in trace ==> t.0 < n && t.1 < n && t.2 < n && t.0 != t.1 && t.1 != t.2 && t.0 != t.2
    ensures Total(OccursUpTo(trace, n)) == 3 * |trace|
    decreases |trace|
  {
    if |trace| == 0 {
      TotalOfNothing(n);
    } else {
      var init, last := trace[..|trace| - 1], trace[|trace| - 1];
      assert trace == init + [last] && last in trace;
      TotalIsThrice(init, n);
      OneMoreTriple(init, last, n);
      AllCornersBelow(last, n);
    }
  }

  lemma {:induction false} TotalOfNothing(n: nat)
    ensures Total(OccursUpTo([], n)) == 0
  {
    if n > 0 {
      TotalOfNothing(n - 1);
      assert OccursUpTo([], n)[..n - 1] == OccursUpTo([], n - 1);
    }
  }

  // ----- the forward rows -----

  function Low(degrees: seq<nat>, e: Pair): nat
    requires e.0 < |degrees| && e.1 < |degrees|
  {
    if LowerRank(degrees, e.0, e.1) then e.0 else e.1
  }

  function High(degrees: seq<nat>, e: Pair): nat
    requires e.0 < |degrees| && e.1 < |degrees|
  {
    if Low(degrees, e) == e.0 then e.1 else e.0
  }

  ghost predicate PairsInside(pairs: seq<Pair>, n: nat)
  {
    forall i :: 0 <= i < |pairs| ==> pairs[i].0 < n && pairs[i].1 < n
  }

  function Lows(degrees: seq<nat>, pairs: seq<Pair>): (s: seq<nat>)
    requires forall i :: 0 <= i < |pairs| ==> pairs[i].0 < |degrees| && pairs[i].1 < |degrees|
    ensures |s| == |pairs| && forall i :: 0 <= i < |s| ==> s[i] == Low(degrees, pairs[i])
  {
    seq(|pairs|, i requires 0 <= i < |pairs| => Low(degrees, pairs[i]))
  }

  function Highs(degrees: seq<nat>, pairs: seq<Pair>): (s: seq<nat>)
    requires forall i :: 0 <= i < |pairs| ==> pairs[i].0 < |degrees| && pairs[i].1 < |degrees|
    ensures |s| == |pairs| && forall i :: 0 <= i < |s| ==> s[i] == High(degrees, pairs[i])
  {
    seq(|pairs|, i requires 0 <= i < |pairs| => High(degrees, pairs[i]))
  }

  /** The oriented edge of a pair. */
  lemma PairIsForward(a: Arcs, degrees: seq<nat>, pairs: seq<Pair>, i: nat)
    requires Lists(pairs, a, false) && PairsInside(pairs, |degrees|) && i < |pairs|
    ensures Forward(a, degrees, Low(degrees, pairs[i]), High(degrees, pairs[i]))
  {
    assert pairs[i] in pairs;
  }

  lemma ForwardHasPair(a: Arcs, degrees: seq<nat>, pairs: seq<Pair>, v: nat, w: nat) returns (i: nat)
    requires Lists(pairs, a, false) && PairsInside(pairs, |degrees|) && Forward(a, degrees, v, w)
    ensures i < |pairs| && Low(degrees, pairs[i]) == v && High(degrees, pairs[i]) == w
  {
    var e := Undirected((v, w));
    assert e in pairs;
    i :| i < |pairs| && pairs[i] == e;
  }

  lemma OrientationIsOneToOne(a: Arcs, degrees: seq<nat>, pairs: seq<Pair>, i: nat, j: nat)
    requires Lists(pairs, a, false) && PairsInside(pairs, |degrees|) && i < j < |pairs|
    ensures Low(degrees, pairs[i]) != Low(degrees, pairs[j]) || High(degrees, pairs[i]) != High(degrees, pairs[j])
  {
    assert pairs[i] in pairs && pairs[j] in pairs && pairs[i] != pairs[j];
  }

  ghost predicate IsOriented(degrees: seq<nat>, pairs: seq<Pair>, offsets: seq<nat>, column: seq<nat>)
  {
    && PairsInside(pairs, |degrees|) && AllBelow(Lows(degrees, pairs), |degrees|)
    && OffsetsOk(Lows(degrees, pairs), |degrees|, offsets)
    && Scattered(Lows(degrees, pairs), Highs(degrees, pairs), column, |pairs|)
  }

  lemma RowIsForward(a: Arcs, degrees: seq<nat>, pairs: seq<Pair>, offsets: seq<nat>, column: seq<nat>, v: nat)
    requires Lists(pairs, a, false) && IsOriented(degrees, pairs, offsets, column) && v < |degrees|
    ensures ListsForward(RowIn(offsets, column, v), a, degrees, v)
  {
    var keys, values, row := Lows(degrees, pairs), Highs(degrees, pairs), RowIn(offsets, column, v);
    ScatteredRowAt(keys, |degrees|, values, offsets, column, v);
    PickedIsPickedBy(keys, v);
    PickedRowIsForward(a, degrees, pairs, Picked(keys, v, |keys|), row, v);
  }

  lemma PickedRowIsForward(a: Arcs, degrees: seq<nat>, pairs: seq<Pair>, picked: seq<nat>, row: seq<nat>, v: nat)
    requires Lists(pairs, a, false) && PairsInside(pairs, |degrees|) && PickedBy(Lows(degrees, pairs), v, picked)
    requires |row| == |picked| && forall j :: 0 <= j < |row| ==> row[j] == High(degrees, pairs[picked[j]])
    ensures ListsForward(row, a, degrees, v)
  {
    forall w: nat
      ensures w in row <==> Forward(a, degrees, v, w)
    {
      if w in row {
        var j: nat :| j < |row| && row[j] == w;
        PairIsForward(a, degrees, pairs, picked[j]);
      }
      if Forward(a, degrees, v, w) {
        var i := ForwardHasPair(a, degrees, pairs, v, w);
        assert Lows(degrees, pairs)[i] == v;
        var j: nat :| j < |picked| && picked[j] == i;
        assert row[j] == w;
      }
    }
    forall i, j | 0 <= i < j < |row|
      ensures row[i] != row[j]
    {
      OrientationIsOneToOne(a, degrees, pairs, picked[i], picked[j]);
    }
  }

  // ----- closing triples -----

  /** The triples found before the `j`th edge of the `i`th forward neighbour of a source. */
  ghost predicate TraceAt(trace: seq<Triple>, rows: NeighborRows, n: nat, s: nat, i: nat, j: nat)
  {
    Distinct(trace) && forall t :: t in trace <==> Closes(rows, n, t) && FoundBy(rows, s, i, j, t)
  }

  ghost predicate FoundBy(rows: NeighborRows, s: nat, i: nat, j: nat, t: Triple)
  {
    || t.0 < s
    || (t.0 == s && i <= |rows(s)| && t.1 in rows(s)[..i])
    || (t.0 == s && i < |rows(s)| && t.1 == rows(s)[i] && j <= |rows(t.1)| && t.2 in rows(t.1)[..j])
  }

  lemma CloseNext(trace: seq<Triple>, rows: NeighborRows, n: nat, s: nat, i: nat, j: nat)
    requires TraceAt(trace, rows, n, s, i, j) && s < n && i < |rows(s)| && j < |rows(rows(s)[i])|
    requires Distinct(rows(s)) && Distinct(rows(rows(s)[i]))
    ensures var m, t := rows(s)[i], rows(rows(s)[i])[j];
      TraceAt(if t in rows(s) then trace + [(s, m, t)] else trace, rows, n, s, i, j + 1)
  {
    var m := rows(s)[i];
    var t := rows(m)[j];
    var found: Triple := (s, m, t);
    assert rows(m)[..j + 1] == rows(m)[..j] + [t];
    assert m !in rows(s)[..i] && t !in rows(m)[..j];
    forall u: Triple
      ensures Closes(rows, n, u) && FoundBy(rows, s, i, j + 1, u) <==>
              (Closes(rows, n, u) && FoundBy(rows, s, i, j, u)) || (u == found && t in rows(s))
    {
    }
    assert !FoundBy(rows, s, i, j, found);
  }

  lemma MiddleNext(trace: seq<Triple>, rows: NeighborRows, n: nat, s: nat, i: nat)
    requires i < |rows(s)| && TraceAt(trace, rows, n, s, i, |rows(rows(s)[i])|)
    ensures TraceAt(trace, rows, n, s, i + 1, 0)
  {
    var m := rows(s)[i];
    assert rows(s)[..i + 1] == rows(s)[..i] + [m];
    assert rows(m)[..|rows(m)|] == rows(m);
    forall u: Triple | Closes(rows, n, u)
      ensures FoundBy(rows, s, i + 1, 0, u) <==> FoundBy(rows, s, i, |rows(m)|, u)
    {
    }
  }

  lemma SourceNext(trace: seq<Triple>, rows: NeighborRows, n: nat, s: nat)
    requires TraceAt(trace, rows, n, s, |rows(s)|, 0)
    ensures TraceAt(trace, rows, n, s + 1, 0, 0)
  {
    assert rows(s)[..|rows(s)|] == rows(s);
    forall u: Triple | Closes(rows, n, u)
      ensures FoundBy(rows, s + 1, 0, 0, u) <==> FoundBy(rows, s, |rows(s)|, 0, u)
    {
    }
  }

  ghost predicate CountsAre(counts: seq<nat>, trace: seq<Triple>)
  {
    forall v: nat :: v < |counts| ==> counts[v] == Occurs(trace, v)
  }

  function Bumped(counts: seq<nat>, t: Triple): seq<nat>
    requires t.0 < |counts| && t.1 < |counts| && t.2 < |counts| && t.0 != t.1 && t.1 != t.2 && t.0 != t.2
  {
    counts[t.0 := counts[t.0] + 1][t.1 := counts[t.1] + 1][t.2 := counts[t.2] + 1]
  }

  lemma CountsNext(counts: seq<nat>, trace: seq<Triple>, t: Triple)
    requires CountsAre(counts, trace) && t.0 < |counts| && t.1 < |counts| && t.2 < |counts| && t.0 != t.1 && t.1 != t.2
      && t.0 != t.2
    ensures CountsAre(Bumped(counts, t), trace + [t])
  {
    forall v: nat | v < |counts|
      ensures Bumped(counts, t)[v] == Occurs(trace + [t], v)
    {
      OccursNext(trace, t, v);
    }
  }

  /** The marked vertices are the first forward neighbours of the source. */
  ghost predicate Marked(markers: seq<nat>, row: seq<nat>, source: nat)
  {
    forall w: nat :: w < |markers| ==> (markers[w] == source <==> w in row)
  }

  /** No marker is left of this source or a later one. */
  ghost predicate Unmarked(markers: seq<nat>, n: nat, source: nat)
  {
    forall w: nat :: w < |markers| ==> markers[w] < source || markers[w] >= n
  }

  method MarkRow(offsets: seq<nat>, column: seq<nat>, n: nat, source: nat, markers: array<nat>,
                 ghost rows: NeighborRows)
    requires rows == RowsOf(offsets, column) && |offsets| == n + 1 && source < n
      && offsets[source] <= offsets[source + 1] <= |column|
    requires RowsInside(rows, n) && markers.Length == n && Unmarked(markers[..], n, source)
    modifies markers
    ensures Marked(markers[..], rows(source), source) && Unmarked(markers[..], n, source + 1)
  {
    ghost var row := rows(source);
    var slot: nat := offsets[source];
    while slot < offsets[source + 1]
      invariant offsets[source] <= slot <= offsets[source + 1] && markers.Length == n
      invariant Marked(markers[..], row[..slot - offsets[source]], source) && Unmarked(markers[..], n, source + 1)
    {
      assert row[slot - offsets[source]] == column[slot] && column[slot] in row;
      assert row[..slot + 1 - offsets[source]] == row[..slot - offsets[source]] + [column[slot]];
      markers[column[slot]] := source;
      slot := slot + 1;
    }
    assert row[..slot - offsets[source]] == row;
  }

  /** The compressed forward rows of a graph. */
  ghost predicate ForwardOk(offsets: seq<nat>, column: seq<nat>, n: nat, rows: NeighborRows, a: Arcs, degrees: seq<nat>)
  {
    && |offsets| == n + 1 && |degrees| == n && rows == RowsOf(offsets, column) && IsForward(rows, a, degrees)
         && RowsInside(rows, n)
    && forall v: nat :: v < n ==> HasSlots(offsets, column, v)
  }

  lemma RowAt(offsets: seq<nat>, column: seq<nat>, n: nat, rows: NeighborRows, a: Arcs, degrees: seq<nat>, v: nat)
    requires ForwardOk(offsets, column, n, rows, a, degrees) && v < n
    ensures HasSlots(offsets, column, v) && rows(v) == column[offsets[v]..offsets[v + 1]] && Distinct(rows(v))
    ensures forall w: nat :: w in rows(v) ==> w < n && w != v
  {
    assert HasSlots(offsets, column, v) && ListsForward(rows(v), a, degrees, v);
  }

  /** Looks at one vertex behind a middle one: a marked vertex closes a triangle. */
  method CloseSlot(n: nat, source: nat, middle: nat, target: nat, i: nat, ghost j: nat, markers: array<nat>,
                   counts: array<nat>,
                   ghost rows: NeighborRows, ghost trace: seq<Triple>)
    returns (found: nat, ghost longer: seq<Triple>)
    requires source < n && i < |rows(source)| && middle == rows(source)[i] && j < |rows(middle)|
      && target == rows(middle)[j]
    requires Distinct(rows(source)) && Distinct(rows(middle)) && source != middle && middle != target && middle < n
      && target < n
    requires source !in rows(source)
    requires markers.Length == counts.Length == n && markers != counts && Marked(markers[..], rows(source), source)
    requires TraceAt(trace, rows, n, source, i, j) && CountsAre(counts[..], trace)
    modifies counts
    ensures TraceAt(longer, rows, n, source, i, j + 1) && CountsAre(counts[..], longer) && |longer| == |trace| + found
  {
    CloseNext(trace, rows, n, source, i, j);
    hide TraceAt, CountsAre;
    found, longer := 0, trace;
    if markers[target] == source {
      CountsNext(counts[..], trace, (source, middle, target));
      ghost var before := counts[..];
      counts[source] := counts[source] + 1;
      counts[middle] := counts[middle] + 1;
      counts[target] := counts[target] + 1;
      assert counts[..] == Bumped(before, (source, middle, target));
      found, longer := 1, trace + [(source, middle, target)];
    }
  }

  /** Walks a neighbour's row and counts its vertices that are marked. */
  method CloseMiddle(offsets: seq<nat>, column: seq<nat>, n: nat, source: nat, i: nat, markers: array<nat>,
                     counts: array<nat>,
                     ghost rows: NeighborRows, ghost a: Arcs, ghost degrees: seq<nat>, ghost trace: seq<Triple>)
    returns (found: nat, ghost longer: seq<Triple>)
    requires ForwardOk(offsets, column, n, rows, a, degrees) && source < n && i < |rows(source)|
    requires markers.Length == counts.Length == n && markers != counts && Marked(markers[..], rows(source), source)
    requires TraceAt(trace, rows, n, source, i, 0) && CountsAre(counts[..], trace)
    modifies counts
    ensures TraceAt(longer, rows, n, source, i + 1, 0) && CountsAre(counts[..], longer) && |longer| == |trace| + found
  {
    hide ForwardOk, TraceAt, CountsAre, Marked, Distinct;
    RowAt(offsets, column, n, rows, a, degrees, source);
    var middle := column[offsets[source] + i];
    assert middle == rows(source)[i] && middle in rows(source);
    RowAt(offsets, column, n, rows, a, degrees, middle);
    ghost var row := rows(middle);
    found, longer := 0, trace;
    var slot: nat := offsets[middle];
    while slot < offsets[middle + 1]
      invariant offsets[middle] <= slot <= offsets[middle + 1]
      invariant TraceAt(longer, rows, n, source, i, slot - offsets[middle]) && CountsAre(counts[..], longer)
      invariant |longer| == |trace| + found
    {
      ghost var j: nat := slot - offsets[middle];
      assert column[slot] == row[j] && column[slot] in row;
      var more;
      more, longer := CloseSlot(n, source, middle, column[slot], i, j, markers, counts, rows, longer);
      found := found + more;
      slot := slot + 1;
    }
    MiddleNext(longer, rows, n, source, i);
  }

  method CloseSource(offsets: seq<nat>, column: seq<nat>, n: nat, source: nat, markers: array<nat>, counts: array<nat>,
                     ghost rows: NeighborRows, ghost a: Arcs, ghost degrees: seq<nat>, ghost trace: seq<Triple>)
    returns (found: nat, ghost longer: seq<Triple>)
    requires ForwardOk(offsets, column, n, rows, a, degrees) && source < n
    requires markers.Length == counts.Length == n && markers != counts && Unmarked(markers[..], n, source)
    requires TraceAt(trace, rows, n, source, 0, 0) && CountsAre(counts[..], trace)
    modifies counts, markers
    ensures Unmarked(markers[..], n, source + 1)
    ensures TraceAt(longer, rows, n, source + 1, 0, 0) && CountsAre(counts[..], longer) && |longer| == |trace| + found
  {
    RowAt(offsets, column, n, rows, a, degrees, source);
    hide TraceAt, CountsAre, Closes, Occurs, Marked, Unmarked;
    MarkRow(offsets, column, n, source, markers, rows);
    found, longer := 0, trace;
    var i: nat := 0;
    while i < offsets[source + 1] - offsets[source]
      invariant i <= |rows(source)| && Marked(markers[..], rows(source), source) && Unmarked(markers[..], n, source + 1)
      invariant TraceAt(longer, rows, n, source, i, 0) && CountsAre(counts[..], longer) && |longer| == |trace| + found
    {
      var more;
      more, longer := CloseMiddle(offsets, column, n, source, i, markers, counts, rows, a, degrees, longer);
      found := found + more;
      i := i + 1;
    }
    SourceNext(longer, rows, n, source);
  }

  method CountClosing(offsets: seq<nat>, column: seq<nat>, n: nat, pr: Projection, ghost rows: NeighborRows,
                      ghost a: Arcs, ghost degrees: seq<nat>)
    returns (counts: array<nat>, total: nat, ghost trace: seq<Triple>)
    requires ForwardOk(offsets, column, n, rows, a, degrees) && n <= MAX_UINT64
    requires forall v: nat :: v < n && !pr.Keeps(v) ==> rows(v) == []
    ensures fresh(counts) && counts.Length == n && IsTrace(trace, rows, n) && CountsAre(counts[..], trace)
      && total == |trace|
  {
    counts := new nat[n](_ => 0);
    var markers := new nat[n](_ => MAX_UINT64);
    total, trace := 0, [];
    var source: nat := 0;
    assert TraceAt(trace, rows, n, 0, 0, 0) && CountsAre(counts[..], trace) && Unmarked(markers[..], n, 0);
    hide ForwardOk, TraceAt, CountsAre, Unmarked;
    while source < n
      invariant source <= n == counts.Length == markers.Length && Unmarked(markers[..], n, source)
      invariant TraceAt(trace, rows, n, source, 0, 0) && CountsAre(counts[..], trace) && total == |trace|
    {
      if pr.Keeps(source) {
        var found;
        found, trace := CloseSource(offsets, column, n, source, markers, counts, rows, a, degrees, trace);
        total := total + found;
      } else {
        SourceNext(trace, rows, n, source);
        StillUnmarked(markers[..], n, source);
      }
      source := source + 1;
    }
    TraceIsWhole(trace, rows, n);
  }

  lemma StillUnmarked(markers: seq<nat>, n: nat, source: nat)
    requires Unmarked(markers, n, source)
    ensures Unmarked(markers, n, source + 1)
  {
  }

  lemma TraceIsWhole(trace: seq<Triple>, rows: NeighborRows, n: nat)
    requires TraceAt(trace, rows, n, n, 0, 0)
    ensures IsTrace(trace, rows, n)
  {
    forall t
      ensures t in trace <==> Closes(rows, n, t)
    {
      assert Closes(rows, n, t) ==> FoundBy(rows, n, 0, 0, t);
    }
  }

  /** Forward rows by counting and scattering the oriented edges. */
  method Orient(n: nat, pairs: seq<Pair>, degrees: seq<nat>, ghost a: Arcs) returns (offsets: seq<nat>,
                                                                                     column: seq<nat>)
    requires |degrees| == n && Lists(pairs, a, false) && PairsInside(pairs, n) && forall e :: e in a ==>
      e.0 < n && e.1 < n
    ensures ForwardOk(offsets, column, n, RowsOf(offsets, column), a, degrees)
  {
    var keys, values := Lows(degrees, pairs), Highs(degrees, pairs);
    assert AllBelow(keys, n);
    offsets := Offsets(keys, n);
    column := Scatter(keys, n, offsets, values);
    OrientedIsForward(n, pairs, degrees, a, offsets, column);
  }

  lemma OrientedIsForward(n: nat, pairs: seq<Pair>, degrees: seq<nat>, a: Arcs, offsets: seq<nat>, column: seq<nat>)
    requires |degrees| == n && Lists(pairs, a, false) && IsOriented(degrees, pairs, offsets, column)
    requires forall e :: e in a ==> e.0 < n && e.1 < n
    ensures ForwardOk(offsets, column, n, RowsOf(offsets, column), a, degrees)
  {
    var rows := RowsOf(offsets, column);
    forall v: nat | v < n
      ensures ListsForward(rows(v), a, degrees, v) && HasSlots(offsets, column, v)
    {
      RowIsForward(a, degrees, pairs, offsets, column, v);
      ScatteredRowAt(Lows(degrees, pairs), n, Highs(degrees, pairs), offsets, column, v);
    }
    forall v: nat, w: nat | w in rows(v)
      ensures w < n
    {
      assert v < n;
      assert ListsForward(rows(v), a, degrees, v);
    }
  }

  /** The triangles through each vertex, the degrees, and the number of triangles of the projected simple graph. */
  method ComputeTriangleCounts(s: Snapshot, pr: Projection) returns (counts: array<nat>, degrees: seq<nat>, total: nat)
    requires s.Valid() && pr.Valid(|s.vertexIds|) && |s.vertexIds| <= MAX_UINT64
    ensures var n, a := |s.vertexIds|, ProjectedArcs(|s.vertexIds|, s.outgoing, pr);
      && counts.Length == |degrees| == n && total == |AllTriangles(a, n)| && Total(counts[..]) == 3 * total
      && (forall v: nat :: v < n ==> counts[v] == |TrianglesAt(a, n, v)| && degrees[v] == |Neighbors(a, n, v)|)
  {
    var n := |s.vertexIds|;
    ghost var a := ProjectedArcs(n, s.outgoing, pr);
    ArcsInside(n, s.outgoing, pr, a);
    var pairs := ListPairs(n, s.outgoing, pr, false, a);
    PairsAreInside(pairs, a, n);
    degrees := CountDegrees(pairs, n);
    forall v: nat | v < n
      ensures degrees[v] == |Neighbors(a, n, v)|
    {
      DegreeIsNeighbors(pairs, a, n, v);
    }
    var offsets, column := Orient(n, pairs, degrees, a);
    ghost var rows, trace := RowsOf(offsets, column), [];
    MaskedRowsAreEmpty(n, s.outgoing, pr, a, degrees, rows);
    counts, total, trace := CountClosing(offsets, column, n, pr, rows, a, degrees);
    CountsAreTriangles(counts[..], trace, rows, a, degrees);
  }

  lemma PairsAreInside(pairs: seq<Pair>, a: Arcs, n: nat)
    requires Lists(pairs, a, false) && forall e :: e in a ==> e.0 < n && e.1 < n
    ensures PairsInside(pairs, n) && forall p :: p in pairs ==> p.0 < n && p.1 < n && p.0 != p.1
  {
    forall i | 0 <= i < |pairs|
      ensures pairs[i].0 < n && pairs[i].1 < n
    {
      assert pairs[i] in pairs;
    }
  }

  lemma FirstIsListed(row: seq<nat>)
    ensures row == [] || exists w: nat :: w in row
  {
    assert row == [] || row[0] in row;
  }

  lemma NoArcsOutsideMask(n: nat, adj: Adjacency, pr: Projection, a: Arcs, v: nat)
    requires a == ProjectedArcs(n, adj, pr) && !pr.Keeps(v)
    ensures forall w: nat :: !IsEdge(a, v, w)
  {
  }

  lemma MaskedRowsAreEmpty(n: nat, adj: Adjacency, pr: Projection, a: Arcs, degrees: seq<nat>, rows: NeighborRows)
    requires a == ProjectedArcs(n, adj, pr) && |degrees| == n && IsForward(rows, a, degrees)
    ensures forall v: nat :: v < n && !pr.Keeps(v) ==> rows(v) == []
  {
    forall v: nat | v < n && !pr.Keeps(v)
      ensures rows(v) == []
    {
      assert ListsForward(rows(v), a, degrees, v);
      NoArcsOutsideMask(n, adj, pr, a, v);
      FirstIsListed(rows(v));
    }
  }

  lemma CountsAreTriangles(counts: seq<nat>, trace: seq<Triple>, rows: NeighborRows, a: Arcs, degrees: seq<nat>)
    requires IsForward(rows, a, degrees) && IsTrace(trace, rows, |degrees|) && |counts| == |degrees|
      && CountsAre(counts, trace)
    ensures |trace| == |AllTriangles(a, |degrees|)| && Total(counts) == 3 * |trace|
    ensures forall v: nat :: v < |counts| ==> counts[v] == |TrianglesAt(a, |degrees|, v)|
  {
    TraceIsTriangles(trace, rows, a, degrees);
    forall v: nat | v < |counts|
      ensures counts[v] == |TrianglesAt(a, |degrees|, v)|
    {
      OccursIsTrianglesAt(trace, rows, a, degrees, v);
    }
    forall t | t in trace
      ensures t.0 < |degrees| && t.1 < |degrees| && t.2 < |degrees| && t.0 != t.1 && t.1 != t.2 && t.0 != t.2
    {
      TripleIsRanked(rows, a, degrees, t);
    }
    TotalIsThrice(trace, |degrees|);
    assert counts == OccursUpTo(trace, |degrees|);
  }
}
