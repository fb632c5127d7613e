/** Local clustering: arcs between the neighbours of a vertex, counted by merging sorted neighbour rows. */
module Lcc {
  import opened CountingSort
  import opened Csr
  import opened Pairs
  import opened Sequences
  import opened Triangles
  import opened Walks

  // ----- what is counted -----

  /** The arcs whose two different ends are both neighbours of `v`; each direction is an arc of its own. */
  ghost function ArcsAmong(a: Arcs, n: nat, v: nat): (s: set<Pair>)
    ensures forall e: Pair :: e in s <==>
      e.0 < n && e.1 < n && e in a && e.0 != e.1 && IsEdge(a, v, e.0) && IsEdge(a, v, e.1)
  {
    set u: nat, w: nat | u < n && w < n && (u, w) in a && u != w && IsEdge(a, v, u) && IsEdge(a, v, w) :: (u, w)
  }

  ghost function OrderedPairs(s: set<nat>): (r: set<Pair>)
    ensures forall e: Pair :: e in r <==> e.0 in s && e.1 in s && e.0 != e.1
  {
    set u, w | u in s && w in s && u != w :: (u, w)
  }

  ghost function Image<A(!new), B(!new)>(s: set<A>, f: A -> B): (r: set<B>)
    ensures forall x :: x in s ==> f(x) in r
    ensures forall y :: y in r ==> exists x :: x in s && f(x) == y
  {
    set x | x in s :: f(x)
  }

  lemma {:induction false} ImageSize<A(!new), B(!new)>(s: set<A>, f: A -> B)
    requires forall x, y :: x in s && y in s && f(x) == f(y) ==> x == y
    ensures |Image(s, f)| == |s|
    decreases |s|
  {
    if s != {} {
      var x :| x in s;
      ImageSize(s - {x}, f);
      assert Image(s, f) == Image(s - {x}, f) + {f(x)};
      assert f(x) !in Image(s - {x}, f);
    }
  }

  /** `k` things make `k * (k - 1)` ordered pairs. */
  lemma {:induction false} OrderedPairsSize(s: set<nat>)
    ensures |OrderedPairs(s)| == |s| * (|s| - 1)
    decreases |s|
  {
    if s != {} {
      var x :| x in s;
      var rest := s - {x};
      OrderedPairsSize(rest);
      OrderedPairsStep(rest, x);
      assert s == rest + {x} && |s| == |rest| + 1;
      assert (|rest| + 1) * |rest| == |rest| * (|rest| - 1) + 2 * |rest|;
    }
  }

  ghost function PairsFrom(x: nat, s: set<nat>): (r: set<Pair>)
    ensures |r| == |s| && forall e: Pair :: e in r <==> e.0 == x && e.1 in s
  {
    var f := (w: nat) => (x, w);
    ImageSize(s, f);
    Image(s, f)
  }

  ghost function PairsTo(x: nat, s: set<nat>): (r: set<Pair>)
    ensures |r| == |s| && forall e: Pair :: e in r <==> e.1 == x && e.0 in s
  {
    var f := (w: nat) => (w, x);
    ImageSize(s, f);
    Image(s, f)
  }

  lemma OrderedPairsStep(rest: set<nat>, x: nat)
    requires x !in rest
    ensures |OrderedPairs(rest + {x})| == |OrderedPairs(rest)| + 2 * |rest|
  {
    hide PairsFrom, PairsTo, OrderedPairs;
    var out, back := PairsFrom(x, rest), PairsTo(x, rest);
    assert OrderedPairs(rest + {x}) == OrderedPairs(rest) + (out + back);
    assert out !! back && OrderedPairs(rest) !! (out + back);
  }

  /** At most every ordered pair of neighbours is joined. */
  lemma ArcsAmongBound(a: Arcs, n: nat, v: nat)
    ensures var d := |Neighbors(a, n, v)|;
      && |ArcsAmong(a, n, v)| <= d * (d - 1)
      && (|ArcsAmong(a, n, v)| == d * (d - 1) <==> OrderedPairs(Neighbors(a, n, v)) <= a)
  {
    var near := Neighbors(a, n, v);
    OrderedPairsSize(near);
    SubsetIsNoLarger(ArcsAmong(a, n, v), OrderedPairs(near));
    if OrderedPairs(near) <= a {
      assert ArcsAmong(a, n, v) == OrderedPairs(near);
    }
  }

  // ----- coefficients -----

  function Coefficient(links: nat, degree: nat): real
  {
    if degree < 2 then 0.0 else links as real / (degree as real * (degree - 1) as real)
  }

  /** The share of the ordered pairs of neighbours that are joined. */
  lemma CoefficientIsShare(links: nat, degree: nat)
    ensures degree < 2 ==> Coefficient(links, degree) == 0.0
    ensures degree >= 2 ==> Coefficient(links, degree) * (degree * (degree - 1)) as real == links as real
  {
    if degree >= 2 {
      var top, bottom := links as real, degree as real * (degree - 1) as real;
      assert bottom == (degree * (degree - 1)) as real && bottom > 0.0;
      assert top / bottom * bottom == top;
    }
  }

  lemma CoefficientRange(links: nat, degree: nat)
    requires links <= degree * (degree - 1)
    ensures 0.0 <= Coefficient(links, degree) <= 1.0
    ensures degree >= 2 ==> (Coefficient(links, degree) == 1.0 <==> links == degree * (degree - 1))
  {
    if degree >= 2 {
      var top, bottom := links as real, degree as real * (degree - 1) as real;
      assert bottom == (degree * (degree - 1)) as real && bottom > 0.0;
      QuotientOf(top, bottom);
    }
  }

  lemma QuotientOf(top: real, bottom: real)
    requires 0.0 <= top && 0.0 < bottom
    ensures 0.0 <= top / bottom && (top / bottom <= 1.0 <==> top <= bottom) && (top / bottom == 1.0 <==> top == bottom)
  {
    var q := top / bottom;
    assert q * bottom == top;
    if q > 1.0 {
      assert (q - 1.0) * bottom > 0.0;
    }
    if q < 1.0 {
      assert (1.0 - q) * bottom > 0.0;
    }
  }

  /** The clustering coefficient lies between 0 and 1, and is 1 exactly when the neighbours form a clique. */
  lemma ClusteringRange(a: Arcs, n: nat, v: nat)
    ensures var d, c := |Neighbors(a, n, v)|, Coefficient(|ArcsAmong(a, n, v)|, |Neighbors(a, n, v)|);
      && 0.0 <= c <= 1.0 && (d < 2 ==> c == 0.0)
      && (d >= 2 ==> c * |OrderedPairs(Neighbors(a, n, v))| as real == |ArcsAmong(a, n, v)| as real)
      && (d >= 2 ==> (c == 1.0 <==> OrderedPairs(Neighbors(a, n, v)) <= a))
  {
    hide Coefficient, ArcsAmong, OrderedPairs, Neighbors;
    OrderedPairsSize(Neighbors(a, n, v));
    CoefficientIsShare(|ArcsAmong(a, n, v)|, |Neighbors(a, n, v)|);
    ArcsAmongBound(a, n, v);
    CoefficientRange(|ArcsAmong(a, n, v)|, |Neighbors(a, n, v)|);
  }

  // ----- symmetric input gives the undirected coefficient -----

  ghost predicate IsSymmetric(a: Arcs)
  {
    forall u: nat, w: nat :: (u, w) in a ==> (w, u) in a
  }

  ghost function RisingArcs(a: Arcs, n: nat, v: nat): (s: set<Pair>)
    ensures forall e :: e in s <==> e in ArcsAmong(a, n, v) && e.0 < e.1
  {
    set e | e in ArcsAmong(a, n, v) && e.0 < e.1
  }

  function Swapped(e: Pair): Pair
  {
    (e.1, e.0)
  }

  lemma HalfRises(a: Arcs, n: nat, v: nat)
    requires IsSymmetric(a)
    ensures |ArcsAmong(a, n, v)| == 2 * |RisingArcs(a, n, v)|
  {
    var up := RisingArcs(a, n, v);
    var down := Image(up, Swapped);
    ImageSize(up, Swapped);
    forall e: Pair
      ensures e in down <==> e in ArcsAmong(a, n, v) && e.1 < e.0
    {
      if e in ArcsAmong(a, n, v) && e.1 < e.0 {
        assert Swapped(e) in up && Swapped(Swapped(e)) == e;
      }
    }
    assert ArcsAmong(a, n, v) == up + down && up !! down;
  }

  lemma RisingArcsAreTriangles(a: Arcs, n: nat, v: nat)
    requires IsSymmetric(a) && v < n
    ensures |RisingArcs(a, n, v)| == |TrianglesAt(a, n, v)|
  {
    var up := RisingArcs(a, n, v);
    var corners := (e: Pair) => {v, e.0, e.1};
    forall e, g | e in up && g in up && corners(e) == corners(g)
      ensures e == g
    {
      assert e.0 in corners(g) && e.1 in corners(g) && g.0 in corners(e) && g.1 in corners(e);
    }
    hide TrianglesAt, RisingArcs;
    ImageSize(up, corners);
    forall t: set<nat>
      ensures t in Image(up, corners) <==> t in TrianglesAt(a, n, v)
    {
      TriangleHasArc(a, n, v, corners, t);
    }
    assert Image(up, corners) == TrianglesAt(a, n, v);
  }

  lemma TriangleHasArc(a: Arcs, n: nat, v: nat, corners: Pair -> set<nat>, t: set<nat>)
    requires IsSymmetric(a) && v < n && forall e: Pair :: corners(e) == {v, e.0, e.1}
    ensures t in TrianglesAt(a, n, v) <==> exists e :: e in RisingArcs(a, n, v) && corners(e) == t
  {
    if e :| e in RisingArcs(a, n, v) && corners(e) == t {
      assert IsTriangle(a, v, e.0, e.1);
    }
    if t in TrianglesAt(a, n, v) {
      var e := OppositeArc(a, n, v, t);
      assert corners(e) == t;
    }
  }

  lemma OppositeArc(a: Arcs, n: nat, v: nat, t: set<nat>) returns (e: Pair)
    requires IsSymmetric(a) && t in TrianglesAt(a, n, v)
    ensures e in RisingArcs(a, n, v) && t == {v, e.0, e.1}
  {
    var x: nat, y: nat, z: nat :| x < n && y < n && z < n && IsTriangle(a, x, y, z) && t == {x, y, z};
    hide RisingArcs, ArcsAmong;
    if v == x {
      e := ArcBetween(a, n, v, y, z);
    } else if v == y {
      e := ArcBetween(a, n, v, x, z);
    } else {
      e := ArcBetween(a, n, v, x, y);
    }
  }

  lemma ArcBetween(a: Arcs, n: nat, v: nat, p: nat, q: nat) returns (e: Pair)
    requires IsSymmetric(a) && p < n && q < n && IsEdge(a, v, p) && IsEdge(a, v, q) && IsEdge(a, p, q)
    ensures e in RisingArcs(a, n, v) && {v, e.0, e.1} == {v, p, q}
  {
    e := Undirected((p, q));
    assert e in a;
  }

  /** On symmetric input every triangle through a vertex is counted once in each direction. */
  lemma SymmetricCountsTriangles(a: Arcs, n: nat, v: nat)
    requires IsSymmetric(a) && v < n
    ensures |ArcsAmong(a, n, v)| == 2 * |TrianglesAt(a, n, v)|
  {
    HalfRises(a, n, v);
    RisingArcsAreTriangles(a, n, v);
  }

  /** The triangle coefficient of any graph is the clustering coefficient of its symmetric closure, so at most 1. */
  lemma TriangleCoefficientIsClustering(a: Arcs, n: nat, v: nat)
    requires v < n
    ensures var d, c := |Neighbors(a, n, v)|, Coefficient(2 * |TrianglesAt(a, n, v)|, |Neighbors(a, n, v)|);
      && c == Coefficient(|ArcsAmong(Symmetric(a), n, v)|, d) && 0.0 <= c <= 1.0
  {
    var b := Symmetric(a);
    forall u: nat, w: nat
      ensures IsEdge(a, u, w) <==> IsEdge(b, u, w)
      ensures (u, w) in b <==> (u, w) in a || (w, u) in a
    {
    }
    assert Neighbors(a, n, v) == Neighbors(b, n, v);
    SameTriangles(a, b, n);
    SymmetricCountsTriangles(b, n, v);
    ClusteringRange(b, n, v);
  }

  lemma SameTriangles(a: Arcs, b: Arcs, n: nat)
    requires forall u: nat, w: nat :: IsEdge(a, u, w) <==> IsEdge(b, u, w)
    ensures AllTriangles(a, n) == AllTriangles(b, n)
  {
    forall x: nat, y: nat, z: nat
      ensures IsTriangle(a, x, y, z) <==> IsTriangle(b, x, y, z)
    {
    }
  }

  // ----- neighbour rows -----

  predicate Rising(row: seq<nat>)
  {
    forall i, j :: 0 <= i < j < |row| ==> row[i] < row[j]
  }

  ghost predicate ListsNeighbors(row: seq<nat>, a: Arcs, v: nat)
  {
    forall w: nat :: w in row <==> IsEdge(a, v, w)
  }

  /** Both ends of every pair, in the order the scatter visits them. */
  ghost function Ends(pairs: seq<Pair>): (s: seq<nat>)
    ensures |s| == 2 * |pairs|
    ensures forall i: nat :: i < |pairs| ==> s[2 * i] == pairs[i].0 && s[2 * i + 1] == pairs[i].1
  {
    seq(2 * |pairs|, i requires 0 <= i < 2 * |pairs| => if i % 2 == 0 then pairs[i / 2].0 else pairs[i / 2].1)
  }

  ghost function Others(pairs: seq<Pair>): seq<nat>
  {
    Ends(Flipped(pairs))
  }

  ghost function Flipped(pairs: seq<Pair>): (s: seq<Pair>)
    ensures |s| == |pairs| && forall i :: 0 <= i < |s| ==> s[i] == Swapped(pairs[i])
  {
    seq(|pairs|, i requires 0 <= i < |pairs| => Swapped(pairs[i]))
  }

  lemma CountTwice(keys: seq<nat>, v: nat, m: nat)
    requires m + 2 <= |keys|
    ensures Count(keys, v, m + 2) == Count(keys, v, m) + (if keys[m] == v then 1 else 0)
      + (if keys[m + 1] == v then 1 else 0)
  {
  }

  lemma {:induction false} EndsAtIsCount(pairs: seq<Pair>, v: nat, m: nat)
    requires m <= |pairs|
    ensures EndsAt(pairs, v, m) == Count(Ends(pairs), v, 2 * m)
  {
    hide Ends;
    if m > 0 {
      EndsAtIsCount(pairs, v, m - 1);
      EndsOf(pairs, m - 1);
      CountTwice(Ends(pairs), v, 2 * (m - 1));
    }
  }

  /** Adds up bucket sizes into offsets. */
  method PrefixSums(sizes: seq<nat>, ghost keys: seq<nat>) returns (offsets: seq<nat>)
    requires AllBelow(keys, |sizes|) && forall k: nat :: k < |sizes| ==> sizes[k] == Count(keys, k, |keys|)
    ensures OffsetsOk(keys, |sizes|, offsets)
  {
    BelowAll(keys, |sizes|, |keys|);
    offsets := [0];
    for k := 0 to |sizes|
      invariant |offsets| == k + 1 && forall j: nat :: j <= k ==> offsets[j] == Start(keys, j)
    {
      BelowStep(keys, k, |keys|);
      offsets := offsets + [offsets[k] + sizes[k]];
    }
  }

  /** Each pair puts either end into the row of the other. */
  method ScatterBoth(pairs: seq<Pair>, n: nat, offsets: seq<nat>, ghost keys: seq<nat>,
                     ghost values: seq<nat>)
    returns (column: seq<nat>)
    requires Interleaved(pairs, keys, values) && AllBelow(keys, n) && OffsetsOk(keys, n, offsets)
    ensures |column| == |keys| == |values| && Scattered(keys, values, column, |keys|)
  {
    hide Interleaved, CursorsAt, Scattered, AllBelow;
    var cursor: seq<nat> := offsets[..n];
    column := seq(2 * |pairs|, _ => 0);
    InterleavedSize(pairs, keys, values);
    ScatterStarts(keys, values, n, offsets, column);
    var i: nat := 0;
    ghost var m: nat := 0;
    while i < |pairs|
      invariant i <= |pairs| && m == 2 * i && |keys| == |values| == 2 * |pairs|
      invariant CursorsAt(keys, n, cursor, m) && Scattered(keys, values, column, m)
    {
      InterleavedAt(pairs, keys, values, i);
      column, cursor := PlaceNext(keys, values, n, column, cursor, m, pairs[i].0, pairs[i].1);
      column, cursor := PlaceNext(keys, values, n, column, cursor, m + 1, pairs[i].1, pairs[i].0);
      i, m := i + 1, m + 2;
    }
    ScatteredSize(keys, values, column, m);
  }

  /** The two columns hold both ends of every pair, one after the other. */
  ghost predicate Interleaved(pairs: seq<Pair>, keys: seq<nat>, values: seq<nat>)
  {
    keys == Ends(pairs) && values == Others(pairs)
  }

  lemma InterleavedSize(pairs: seq<Pair>, keys: seq<nat>, values: seq<nat>)
    requires Interleaved(pairs, keys, values)
    ensures |keys| == |values| == 2 * |pairs|
  {
  }

  lemma InterleavedAt(pairs: seq<Pair>, keys: seq<nat>, values: seq<nat>, i: nat)
    requires Interleaved(pairs, keys, values) && i < |pairs|
    ensures |keys| == |values| == 2 * |pairs|
    ensures keys[2 * i] == pairs[i].0 && keys[2 * i + 1] == pairs[i].1 && values[2 * i] == pairs[i].1
      && values[2 * i + 1] == pairs[i].0
  {
  }

  lemma ScatteredSize(keys: seq<nat>, values: seq<nat>, column: seq<nat>, m: nat)
    requires m <= |keys| == |values| && Scattered(keys, values, column, m)
    ensures |column| == |keys|
  {
  }

  lemma ScatterStarts(keys: seq<nat>, values: seq<nat>, n: nat, offsets: seq<nat>, column: seq<nat>)
    requires OffsetsOk(keys, n, offsets) && |keys| == |values| == |column|
    ensures CursorsAt(keys, n, offsets[..n], 0) && Scattered(keys, values, column, 0)
  {
  }

  lemma EndsOf(pairs: seq<Pair>, i: nat)
    requires i < |pairs|
    ensures Ends(pairs)[2 * i] == pairs[i].0 && Ends(pairs)[2 * i + 1] == pairs[i].1
    ensures |Others(pairs)| == 2 * |pairs| && Others(pairs)[2 * i] == pairs[i].1
      && Others(pairs)[2 * i + 1] == pairs[i].0
  {
  }

  method PlaceNext(ghost keys: seq<nat>, ghost values: seq<nat>, n: nat, column: seq<nat>, cursor: seq<nat>,
                   ghost m: nat, key: nat, value: nat)
    returns (after: seq<nat>, advanced: seq<nat>)
    requires AllBelow(keys, n) && m < |keys| == |values| && keys[m] == key && values[m] == value
    requires CursorsAt(keys, n, cursor, m) && Scattered(keys, values, column, m)
    ensures CursorsAt(keys, n, advanced, m + 1) && Scattered(keys, values, after, m + 1)
  {
    ScatterNext(keys, n, values, column, m);
    after := column[cursor[key] := value];
    advanced := cursor[key := cursor[key] + 1];
  }

  /** A scattered row lists the neighbours of its vertex, each once. */
  lemma ScatteredIsNeighbors(pairs: seq<Pair>, a: Arcs, n: nat, offsets: seq<nat>, column: seq<nat>, v: nat)
    requires Lists(pairs, a, false) && AllBelow(Ends(pairs), n) && OffsetsOk(Ends(pairs), n, offsets) && v < n
    requires Scattered(Ends(pairs), Others(pairs), column, 2 * |pairs|)
    ensures HasSlots(offsets, column, v) && Distinct(RowIn(offsets, column, v))
      && ListsNeighbors(RowIn(offsets, column, v), a, v)
  {
    var keys, values := Ends(pairs), Others(pairs);
    ScatteredRowAt(keys, n, values, offsets, column, v);
    PickedIsPickedBy(keys, v);
    PickedAreNeighbors(pairs, a, Picked(keys, v, |keys|), RowIn(offsets, column, v), v);
  }

  lemma EndIsPair(pairs: seq<Pair>, i: nat)
    requires i < 2 * |pairs|
    ensures |Ends(pairs)| == |Others(pairs)| == 2 * |pairs|
    ensures i % 2 == 0 ==> (Ends(pairs)[i], Others(pairs)[i]) == pairs[i / 2]
    ensures i % 2 == 1 ==> (Others(pairs)[i], Ends(pairs)[i]) == pairs[i / 2]
  {
    EndsOf(pairs, i / 2);
    assert i == 2 * (i / 2) || i == 2 * (i / 2) + 1;
  }

  lemma PickedAreNeighbors(pairs: seq<Pair>, a: Arcs, picked: seq<nat>, row: seq<nat>, v: nat)
    requires Lists(pairs, a, false) && PickedBy(Ends(pairs), v, picked) && |Others(pairs)| == |Ends(pairs)|
    requires |row| == |picked| && forall j :: 0 <= j < |row| ==> row[j] == Others(pairs)[picked[j]]
    ensures Distinct(row) && ListsNeighbors(row, a, v)
  {
    hide Ends, Others;
    forall w: nat
      ensures w in row <==> IsEdge(a, v, w)
    {
      if w in row {
        var j: nat :| j < |row| && row[j] == w;
        EndIsPair(pairs, picked[j]);
        assert pairs[picked[j] / 2] in pairs;
      }
      if IsEdge(a, v, w) {
        var e := Undirected((v, w));
        assert e in pairs;
        var i: nat :| i < |pairs| && pairs[i] == e;
        EndsOf(pairs, i);
        var k := if v < w then 2 * i else 2 * i + 1;
        assert Ends(pairs)[k] == v && Others(pairs)[k] == w && k in picked;
        var j: nat :| j < |picked| && picked[j] == k;
        assert row[j] == w;
      }
    }
    forall i, j | 0 <= i < j < |row|
      ensures row[i] != row[j]
    {
      var p, q := picked[i], picked[j];
      EndIsPair(pairs, p);
      EndIsPair(pairs, q);
      assert pairs[p / 2] in pairs && pairs[q / 2] in pairs;
    }
  }

  /** Sorts every row where it stands. */
  method SortRows(n: nat, offsets: seq<nat>, column: seq<nat>) returns (sorted: seq<nat>)
    requires forall v: nat :: v < n ==> HasSlots(offsets, column, v)
    requires |offsets| == n + 1 && forall i, j :: 0 <= i <= j <= n ==> offsets[i] <= offsets[j]
    ensures |sorted| == |column| && forall v: nat :: v < n ==>
      RowIn(offsets, sorted, v) == Sorted(RowIn(offsets, column, v))
  {
    hide Sorted;
    sorted := column;
    var v: nat := 0;
    while v < n
      invariant v <= n && |sorted| == |column|
      invariant forall u: nat :: u < n ==> RowIn(offsets, sorted, u) == SortedIf(u < v, RowIn(offsets, column, u))
    {
      assert HasSlots(offsets, column, v);
      var row := Sorted(sorted[offsets[v]..offsets[v + 1]]);
      SortedLength(sorted[offsets[v]..offsets[v + 1]]);
      ghost var before := sorted;
      sorted := sorted[..offsets[v]] + row + sorted[offsets[v + 1]..];
      forall u: nat | u < n
        ensures RowIn(offsets, sorted, u) == if u == v then row else RowIn(offsets, before, u)
      {
        assert HasSlots(offsets, column, u);
        OtherRowsStay(offsets, before, sorted, n, v, u, row);
      }
      v := v + 1;
    }
  }

  ghost function SortedIf(done: bool, row: seq<nat>): seq<nat>
  {
    if done then Sorted(row) else row
  }

  lemma SortedLength(s: seq<nat>)
    ensures |Sorted(s)| == |s|
  {
    SortedIsSort(s);
    assert |multiset(Sorted(s))| == |multiset(s)|;
  }

  lemma OtherRowsStay(offsets: seq<nat>, before: seq<nat>, after: seq<nat>, n: nat, v: nat, u: nat, row: seq<nat>)
    requires |offsets| == n + 1 && (forall i, j :: 0 <= i <= j <= n ==> offsets[i] <= offsets[j]) && v < n && u < n
    requires HasSlots(offsets, before, v) && HasSlots(offsets, before, u) && |row| == offsets[v + 1] - offsets[v]
    requires after == before[..offsets[v]] + row + before[offsets[v + 1]..]
    ensures RowIn(offsets, after, u) == if u == v then row else RowIn(offsets, before, u)
  {
    var lo, hi := offsets[v], offsets[v + 1];
    if u < v {
      assert offsets[u + 1] <= lo;
      KeptBelow(before, row, lo, hi, offsets[u], offsets[u + 1]);
    } else if v < u {
      assert hi <= offsets[u];
      KeptAbove(before, row, lo, hi, offsets[u], offsets[u + 1]);
    } else {
      assert after[lo..hi] == row;
    }
  }

  lemma KeptBelow(before: seq<nat>, row: seq<nat>, lo: nat, hi: nat, a: nat, b: nat)
    requires a <= b <= lo <= hi <= |before| && |row| == hi - lo
    ensures b <= |before[..lo] + row + before[hi..]| && (before[..lo] + row + before[hi..])[a..b] == before[a..b]
  {
  }

  lemma KeptAbove(before: seq<nat>, row: seq<nat>, lo: nat, hi: nat, a: nat, b: nat)
    requires lo <= hi <= a <= b <= |before| && |row| == hi - lo
    ensures b <= |before[..lo] + row + before[hi..]| && (before[..lo] + row + before[hi..])[a..b] == before[a..b]
  {
    var after := before[..lo] + row + before[hi..];
    forall i | a <= i < b
      ensures after[i] == before[i]
    {
      assert after[i] == before[hi..][i - hi];
    }
  }

  lemma SortedRowIsNeighbors(row: seq<nat>, a: Arcs, v: nat)
    requires Distinct(row) && ListsNeighbors(row, a, v)
    ensures Rising(Sorted(row)) && ListsNeighbors(Sorted(row), a, v)
  {
    SortedIsSort(row);
    SameMultiset(row, Sorted(row));
    forall w: nat
      ensures w in Sorted(row) <==> w in row
    {
      assert w in Elements(row) <==> w in Elements(Sorted(row));
    }
  }

  /** Sorted rows of all neighbours. */
  ghost predicate NeighborhoodOk(offsets: seq<nat>, column: seq<nat>, n: nat, rows: NeighborRows, a: Arcs)
  {
    && |offsets| == n + 1 && rows == RowsOf(offsets, column)
    && forall v: nat :: v < n ==> RowOk(offsets, column, rows, a, n, v)
  }

  ghost predicate RowOk(offsets: seq<nat>, column: seq<nat>, rows: NeighborRows, a: Arcs, n: nat, v: nat)
  {
    && HasSlots(offsets, column, v) && Rising(rows(v)) && ListsNeighbors(rows(v), a, v)
    && rows(v) == column[offsets[v]..offsets[v + 1]] && forall w: nat :: w in rows(v) ==> w < n
  }

  method BuildNeighborhood(n: nat, pairs: seq<Pair>, degrees: seq<nat>, ghost a: Arcs)
    returns (offsets: seq<nat>, column: seq<nat>)
    requires Lists(pairs, a, false) && forall e :: e in a ==> e.0 < n && e.1 < n
    requires |degrees| == n && forall v: nat :: v < n ==> degrees[v] == EndsAt(pairs, v, |pairs|)
    ensures NeighborhoodOk(offsets, column, n, RowsOf(offsets, column), a)
  {
    EndsAreBelow(pairs, a, n);
    forall v: nat | v < n
      ensures degrees[v] == Count(Ends(pairs), v, 2 * |pairs|)
    {
      EndsAtIsCount(pairs, v, |pairs|);
    }
    offsets := PrefixSums(degrees, Ends(pairs));
    var scattered := ScatterBoth(pairs, n, offsets, Ends(pairs), Others(pairs));
    forall v: nat | v < n
      ensures HasSlots(offsets, scattered, v) && Distinct(RowIn(offsets, scattered, v))
        && ListsNeighbors(RowIn(offsets, scattered, v), a, v)
    {
      ScatteredIsNeighbors(pairs, a, n, offsets, scattered, v);
    }
    forall i, j | 0 <= i <= j <= n
      ensures offsets[i] <= offsets[j]
    {
      StartMonotone(Ends(pairs), i, j);
    }
    column := SortRows(n, offsets, scattered);
    ghost var rows := RowsOf(offsets, column);
    forall v: nat | v < n
      ensures RowOk(offsets, column, rows, a, n, v)
    {
      assert HasSlots(offsets, scattered, v);
      SortedRowIsNeighbors(RowIn(offsets, scattered, v), a, v);
    }
  }

  lemma EndsAreBelow(pairs: seq<Pair>, a: Arcs, n: nat)
    requires Lists(pairs, a, false) && forall e :: e in a ==> e.0 < n && e.1 < n
    ensures AllBelow(Ends(pairs), n)
  {
    forall i: nat | i < |Ends(pairs)|
      ensures Ends(pairs)[i] < n
    {
      EndIsPair(pairs, i);
      assert pairs[i / 2] in pairs;
    }
  }

  // ----- merging rows -----

  /** How much the counter of `v` grows when both rows are met. */
  ghost function Shared(left: seq<nat>, right: seq<nat>, v: nat): nat
  {
    if v in left && v in right then 1 else 0
  }

  /** What is left of either row lies above what was passed of the other. */
  ghost predicate Apart(left: seq<nat>, right: seq<nat>, i: nat, j: nat)
  {
    && i <= |left| && j <= |right|
    && (forall k, m :: 0 <= k < i && j <= m < |right| ==> left[k] < right[m])
    && (forall k, m :: i <= k < |left| && 0 <= m < j ==> right[m] < left[k])
  }

  /** Bumps the counter of every vertex that both rows hold. */
  method MergeRows(column: seq<nat>, start: nat, end: nat, otherStart: nat, otherEnd: nat, counts: array<nat>)
    requires start <= end <= |column| && otherStart <= otherEnd <= |column|
    requires Rising(column[start..end]) && Rising(column[otherStart..otherEnd])
    requires forall w: nat :: w in column[start..end] ==> w < counts.Length
    modifies counts
    ensures forall v: nat :: v < counts.Length ==>
      counts[v] == old(counts[v]) + Shared(column[start..end], column[otherStart..otherEnd], v)
  {
    ghost var l, r := column[start..end], column[otherStart..otherEnd];
    ghost var i: nat, j: nat := 0, 0;
    var left, right := start, otherStart;
    while left < end && right < otherEnd
      invariant left == start + i && right == otherStart + j && Apart(l, r, i, j)
      invariant forall v: nat :: v < counts.Length ==> counts[v] == old(counts[v]) + Shared(l[..i], r[..j], v)
    {
      assert column[left] == l[i] && column[right] == r[j] && l[i] in l;
      PassedGrow(l, r, i, j);
      if column[left] < column[right] {
        left, i := left + 1, i + 1;
      } else if column[right] < column[left] {
        right, j := right + 1, j + 1;
      } else {
        counts[column[left]] := counts[column[left]] + 1;
        left, right, i, j := left + 1, right + 1, i + 1, j + 1;
      }
    }
    NothingIsLeft(l, r, i, j);
  }

  lemma PassedGrow(l: seq<nat>, r: seq<nat>, i: nat, j: nat)
    requires Rising(l) && Rising(r) && i < |l| && j < |r| && Apart(l, r, i, j)
    ensures l[i] < r[j] ==>
      Apart(l, r, i + 1, j) && forall v: nat :: Shared(l[..i + 1], r[..j], v) == Shared(l[..i], r[..j], v)
    ensures r[j] < l[i] ==>
      Apart(l, r, i, j + 1) && forall v: nat :: Shared(l[..i], r[..j + 1], v) == Shared(l[..i], r[..j], v)
    ensures r[j] == l[i] ==> Apart(l, r, i + 1, j + 1)
    ensures r[j] == l[i] ==>
      forall v: nat :: Shared(l[..i + 1], r[..j + 1], v) == Shared(l[..i], r[..j], v) + (if v == l[i] then 1 else 0)
  {
    assert l[..i + 1] == l[..i] + [l[i]] && r[..j + 1] == r[..j] + [r[j]];
    assert l[i] !in r[..j] && r[j] !in l[..i];
  }

  lemma NothingIsLeft(l: seq<nat>, r: seq<nat>, i: nat, j: nat)
    requires Apart(l, r, i, j) && (i == |l| || j == |r|)
    ensures forall v: nat :: Shared(l, r, v) == Shared(l[..i], r[..j], v)
  {
    assert l == l[..i] + l[i..] && r == r[..j] + r[j..];
  }

  // ----- counting over all arcs -----

  ghost predicate Sees(rows: NeighborRows, p: Pair, v: nat)
  {
    v in rows(p.0) && v in rows(p.1)
  }

  /** The pairs among the first `m` whose ends both have `v` in their rows. */
  ghost function Seen(pairs: seq<Pair>, rows: NeighborRows, v: nat, m: nat): (s: seq<Pair>)
    requires m <= |pairs|
  {
    if m == 0 then [] else Seen(pairs, rows, v, m - 1) + (if Sees(rows, pairs[m - 1], v) then [pairs[m - 1]] else [])
  }

  lemma {:induction false} SeenIsFilter(pairs: seq<Pair>, rows: NeighborRows, v: nat, m: nat)
    requires m <= |pairs| && Distinct(pairs)
    ensures Distinct(Seen(pairs, rows, v, m))
    ensures forall p :: p in Seen(pairs, rows, v, m) <==> p in pairs[..m] && Sees(rows, p, v)
  {
    if m > 0 {
      SeenIsFilter(pairs, rows, v, m - 1);
      assert pairs[..m] == pairs[..m - 1] + [pairs[m - 1]];
      assert pairs[m - 1] !in pairs[..m - 1];
    }
  }

  lemma SeenAreArcsAmong(pairs: seq<Pair>, rows: NeighborRows, a: Arcs, n: nat, v: nat)
    requires Lists(pairs, a, true) && (forall e :: e in a ==> e.0 < n && e.1 < n)
    requires forall u: nat :: u < n ==> ListsNeighbors(rows(u), a, u)
    ensures |Seen(pairs, rows, v, |pairs|)| == |ArcsAmong(a, n, v)|
  {
    var seen := Seen(pairs, rows, v, |pairs|);
    SeenIsFilter(pairs, rows, v, |pairs|);
    assert pairs[..|pairs|] == pairs;
    forall p: Pair
      ensures p in seen <==> p in ArcsAmong(a, n, v)
    {
      if p in pairs {
        assert ListsNeighbors(rows(p.0), a, p.0) && ListsNeighbors(rows(p.1), a, p.1);
      }
    }
    assert Elements(seen) == ArcsAmong(a, n, v);
    DistinctCardinality(seen);
  }

  ghost predicate CountsSeen(counts: seq<nat>, pairs: seq<Pair>, rows: NeighborRows, m: nat)
  {
    m <= |pairs| && forall v: nat :: v < |counts| ==> counts[v] == |Seen(pairs, rows, v, m)|
  }

  method CountShared(offsets: seq<nat>, column: seq<nat>, n: nat, pairs: seq<Pair>, ghost rows: NeighborRows,
                     ghost a: Arcs)
    returns (counts: array<nat>)
    requires NeighborhoodOk(offsets, column, n, rows, a) && forall p :: p in pairs ==> p.0 < n && p.1 < n
    ensures fresh(counts) && counts.Length == n && CountsSeen(counts[..], pairs, rows, |pairs|)
  {
    counts := new nat[n](_ => 0);
    var i: nat := 0;
    assert CountsSeen(counts[..], pairs, rows, 0);
    hide CountsSeen, Shared;
    while i < |pairs|
      invariant i <= |pairs| && counts.Length == n && fresh(counts) && CountsSeen(counts[..], pairs, rows, i)
    {
      var edge := pairs[i];
      assert edge in pairs;
      assert RowOk(offsets, column, rows, a, n, edge.0) && RowOk(offsets, column, rows, a, n, edge.1);
      ghost var before := counts[..];
      MergeRows(column, offsets[edge.0], offsets[edge.0 + 1], offsets[edge.1], offsets[edge.1 + 1], counts);
      SeenNext(before, counts[..], pairs, rows, i);
      i := i + 1;
    }
  }

  lemma SeenNext(before: seq<nat>, after: seq<nat>, pairs: seq<Pair>, rows: NeighborRows, i: nat)
    requires i < |pairs| && CountsSeen(before, pairs, rows, i) && |after| == |before|
    requires forall v: nat :: v < |after| ==> after[v] == before[v] + Shared(rows(pairs[i].0), rows(pairs[i].1), v)
    ensures CountsSeen(after, pairs, rows, i + 1)
  {
  }

  /** Drops the direction of every listed arc. */
  method DropDirections(directed: seq<Pair>, ghost a: Arcs) returns (pairs: seq<Pair>)
    requires Lists(directed, a, true)
    ensures Lists(pairs, a, false)
  {
    var collected: seq<Pair> := [];
    var i: nat := 0;
    while i < |directed|
      invariant i <= |directed| && |collected| == i
      invariant forall j :: 0 <= j < i ==> collected[j] == Undirected(directed[j])
    {
      collected := collected + [Undirected(directed[i])];
      i := i + 1;
    }
    pairs := SortedUnique(collected);
    DroppedIsList(directed, collected, a);
  }

  lemma DroppedIsList(directed: seq<Pair>, collected: seq<Pair>, a: Arcs)
    requires Lists(directed, a, true) && |collected| == |directed|
    requires forall j :: 0 <= j < |collected| ==> collected[j] == Undirected(directed[j])
    ensures Lists(SortedUnique(collected), a, false)
  {
    SortedUniqueIsSort(collected);
    forall p: Pair
      ensures p in collected <==> IsEdge(a, p.0, p.1) && p.0 < p.1
    {
      if p in collected {
        var j :| 0 <= j < |collected| && collected[j] == p;
        assert directed[j] in directed;
      }
      if IsEdge(a, p.0, p.1) && p.0 < p.1 {
        var e := if p in a then p else Swapped(p);
        assert e in directed;
        var j :| 0 <= j < |directed| && directed[j] == e;
        assert collected[j] == p;
      }
    }
  }

  /** The arcs among the neighbours of each vertex, and its degree. */
  method ComputeLcc(s: Snapshot, pr: Projection) returns (counts: array<nat>, degrees: seq<nat>)
    requires s.Valid() && pr.Valid(|s.vertexIds|)
    ensures var n, a := |s.vertexIds|, ProjectedArcs(|s.vertexIds|, s.outgoing, pr);
      && counts.Length == |degrees| == n
      && (forall v: nat :: v < n ==> counts[v] == |ArcsAmong(a, n, v)| && degrees[v] == |Neighbors(a, n, v)|)
  {
    var n := |s.vertexIds|;
    ghost var a := ProjectedArcs(n, s.outgoing, pr);
    ArcsInside(n, s.outgoing, pr, a);
    var directed := ListPairs(n, s.outgoing, pr, true, a);
    hide ProjectedArcs;
    var pairs := DropDirections(directed, a);
    PairsAreInside(pairs, a, n);
    degrees := CountDegrees(pairs, n);
    var offsets, column := BuildNeighborhood(n, pairs, degrees, a);
    ghost var rows := RowsOf(offsets, column);
    counts := CountShared(offsets, column, n, directed, rows, a);
    forall u: nat | u < n
      ensures ListsNeighbors(rows(u), a, u)
    {
      assert RowOk(offsets, column, rows, a, n, u);
    }
    forall v: nat | v < n
      ensures counts[v] == |ArcsAmong(a, n, v)| && degrees[v] == |Neighbors(a, n, v)|
    {
      SeenAreArcsAmong(directed, rows, a, n, v);
      DegreeIsNeighbors(pairs, a, n, v);
    }
  }
}
