/** Contracting communities into vertices, and the levels of local moves and contractions. */
module LouvainLevels {
  import opened Coarsening
  import opened CountingSort
  import opened Louvain
  import opened Merges
  import opened Modularities
  import opened Sequences
  import opened Sums

  /** The listed members of one community, in vertex order. */
  ghost predicate Lists(offsets: seq<nat>, members: seq<nat>, c: seq<nat>, a: nat)
  {
    && a + 1 < |offsets| && offsets[a] <= offsets[a + 1] <= |members|
    && members[offsets[a]..offsets[a + 1]] == Picked(c, a, |c|)
  }

  /** Lists the members of each community by counting. */
  method Members(c: seq<nat>, k: nat) returns (offsets: seq<nat>, members: seq<nat>)
    requires forall v :: 0 <= v < |c| ==> c[v] < k
    ensures |offsets| == k + 1 && |members| == |c|
    ensures forall a: nat :: a < k ==> Lists(offsets, members, c, a)
  {
    offsets := Offsets(c, k);
    members := seq(|c|, _ => 0);
    var cursors := offsets;
    for vertex := 0 to |c|
      invariant |members| == |c| && |cursors| == k + 1
      invariant forall a: nat :: a < k ==> cursors[a] == Start(c, a) + Count(c, a, vertex)
      invariant forall v: nat :: v < vertex ==> Slot(c, v) < |c| && members[Slot(c, v)] == v
    {
      SlotInside(c, k, vertex);
      forall v: nat | v < vertex
        ensures Slot(c, v) != Slot(c, vertex)
      {
        SlotsDiffer(c, v, vertex);
      }
      members := members[cursors[c[vertex]] := vertex];
      cursors := cursors[c[vertex] := cursors[c[vertex]] + 1];
    }
    forall a: nat | a < k
      ensures Lists(offsets, members, c, a)
    {
      ScatteredRow(c, k, Singletons(|c|), members, a);
      var picked := Picked(c, a, |c|);
      assert seq(|picked|, j requires 0 <= j < |picked| => Singletons(|c|)[picked[j]]) == picked;
    }
  }

  /** The weight from the listed vertices into a community. */
  ghost function MembersInto(g: LouvainGraph, c: seq<nat>, members: seq<nat>, b: nat): real
  {
    if |members| == 0 then 0.0
    else MembersInto(g, c, members[..|members| - 1], b) + Into(g, c, members[|members| - 1], b)
  }

  lemma {:induction false} MembersAreBlock(g: LouvainGraph, c: seq<nat>, a: nat, b: nat, m: nat)
    requires m <= |c|
    ensures MembersInto(g, c, Picked(c, a, m), b) == Sum(m, BlockTerm(g, c, a, b))
  {
    if m > 0 {
      MembersAreBlock(g, c, a, b, m - 1);
      if c[m - 1] == a {
        assert Picked(c, a, m)[..|Picked(c, a, m)| - 1] == Picked(c, a, m - 1);
      } else {
        assert Picked(c, a, m) == Picked(c, a, m - 1);
      }
    }
  }

  /** A row of the contracted graph under construction: its targets and their weights so far. */
  ghost predicate Collected(c: seq<nat>, k: nat, community: nat, markers: seq<nat>, affinities: seq<real>,
                            targets: seq<nat>,
                            weight: nat -> real)
  {
    && |markers| == |affinities| == k && Distinct(targets)
    && (forall b :: 0 <= b < k ==> (markers[b] == community <==> b in targets))
    && (forall b :: b in targets ==> b < k && affinities[b] == weight(b))
    && (forall b: nat :: b < k && b !in targets ==> weight(b) == 0.0)
  }

  ghost function PartialRow(g: LouvainGraph, c: seq<nat>, members: seq<nat>, u: nat, hi: nat): nat -> real
    requires g.Shaped() && u < |g.degrees| && hi <= |g.neighbors|
  {
    (b: nat) => MembersInto(g, c, members, b) + SlotSum(g, g.offsets[u], hi, (v: nat) => In(c, v, b))
  }

  ghost function FullRow(g: LouvainGraph, c: seq<nat>, members: seq<nat>): nat -> real
  {
    (b: nat) => MembersInto(g, c, members, b)
  }

  /** Adds the weight of one slot to the row. */
  method CollectSlot(c: seq<nat>, k: nat, community: nat, target: nat, amount: real, markers0: seq<nat>,
                     affinities0: seq<real>, targets0: seq<nat>, ghost weight: nat -> real, ghost next: nat -> real)
    returns (markers: seq<nat>, affinities: seq<real>, targets: seq<nat>)
    requires Collected(c, k, community, markers0, affinities0, targets0, weight) && target < k
    requires forall b: nat :: b < k ==> next(b) == weight(b) + (if b == target then amount else 0.0)
    ensures Collected(c, k, community, markers, affinities, targets, next)
    ensures |markers| == k && forall b :: 0 <= b < k && markers[b] != community ==> markers[b] == markers0[b]
  {
    markers, affinities, targets := markers0, affinities0, targets0;
    if markers[target] != community {
      markers, affinities, targets := markers[target := community], affinities[target := 0.0], targets + [target];
    }
    affinities := affinities[target := affinities[target] + amount];
  }

  /** Adds one member's edges to the row. */
  method CollectMember(g: LouvainGraph, c: seq<nat>, k: nat, community: nat, ghost before: seq<nat>, u: nat,
                       markers0: seq<nat>, affinities0: seq<real>, targets0: seq<nat>)
    returns (markers: seq<nat>, affinities: seq<real>, targets: seq<nat>)
    requires g.Shaped() && Partitions(c, g, k) && u < |g.degrees|
    requires Collected(c, k, community, markers0, affinities0, targets0, FullRow(g, c, before))
    ensures Collected(c, k, community, markers, affinities, targets, FullRow(g, c, before + [u]))
    ensures forall b :: 0 <= b < k && markers[b] != community ==> markers[b] == markers0[b]
  {
    markers, affinities, targets := markers0, affinities0, targets0;
    CollectedExt(c, k, community, markers, affinities, targets, FullRow(g, c, before),
                 PartialRow(g, c, before, u, g.offsets[u]));
    hide Collected;
    for slot := g.offsets[u] to g.offsets[u + 1]
      invariant |markers| == k == |markers0|
      invariant Collected(c, k, community, markers, affinities, targets, PartialRow(g, c, before, u, slot))
      invariant forall b :: 0 <= b < k && markers[b] != community ==> markers[b] == markers0[b]
    {
      markers, affinities, targets :=
        CollectSlot(c, k, community, c[g.neighbors[slot]], g.EdgeWeight(slot), markers, affinities, targets,
                    PartialRow(g, c, before, u, slot), PartialRow(g, c, before, u, slot + 1));
    }
    forall b: nat
      ensures FullRow(g, c, before + [u])(b) == PartialRow(g, c, before, u, g.offsets[u + 1])(b)
    {
      assert (before + [u])[..|before|] == before;
      RowByNeighbor(g, u, (v: nat) => In(c, v, b), IntoTerm(g, c, u, b));
    }
    CollectedExt(c, k, community, markers, affinities, targets, PartialRow(g, c, before, u, g.offsets[u + 1]),
                 FullRow(g, c, before + [u]));
  }

  lemma CollectedExt(c: seq<nat>, k: nat, community: nat, markers: seq<nat>, affinities: seq<real>, targets: seq<nat>,
                     weight: nat -> real, other: nat -> real)
    requires Collected(c, k, community, markers, affinities, targets, weight)
    requires forall b: nat :: b < k ==> other(b) == weight(b)
    ensures Collected(c, k, community, markers, affinities, targets, other)
  {
  }

  /** The columns of the contracted graph while its rows are appended. */
  datatype Columns = Columns(offsets: seq<nat>, neighbors: seq<nat>, weights: seq<real>, degrees: seq<real>)
  {
    ghost predicate Shaped(k: nat)
    {
      && |offsets| == |degrees| + 1 && |weights| == |neighbors|
      && (forall i, j :: 0 <= i <= j <= |degrees| ==> offsets[i] <= offsets[j])
      && offsets[|degrees|] == |neighbors|
      && (forall slot :: 0 <= slot < |neighbors| ==> neighbors[slot] < k)
    }
  }

  /** The weight of the slots from `lo` to `hi` that lead to `b`. */
  ghost function ColumnSum(neighbors: seq<nat>, weights: seq<real>, lo: nat, hi: nat, b: nat): real
    requires hi <= |neighbors| && hi <= |weights|
    decreases hi
  {
    if hi <= lo then 0.0
    else ColumnSum(neighbors, weights, lo, hi - 1, b) + (if neighbors[hi - 1] == b then weights[hi - 1] else 0.0)
  }

  lemma {:induction false} ColumnSumPrefix(neighbors: seq<nat>, weights: seq<real>, moreNeighbors: seq<nat>,
                                           moreWeights: seq<real>,
                                           lo: nat, hi: nat, b: nat)
    requires hi <= |neighbors| && hi <= |weights| && |neighbors| == |weights|
    ensures ColumnSum(neighbors + moreNeighbors, weights + moreWeights, lo, hi, b)
      == ColumnSum(neighbors, weights, lo, hi, b)
    decreases hi
  {
    if hi > lo {
      ColumnSumPrefix(neighbors, weights, moreNeighbors, moreWeights, lo, hi - 1, b);
    }
  }

  lemma {:induction false} ColumnSumIsSlotsTo(g: LouvainGraph, lo: nat, hi: nat, b: nat)
    requires g.Shaped() && |g.weights| == |g.neighbors| && hi <= |g.neighbors|
    ensures SlotsTo(g, lo, hi, b) == ColumnSum(g.neighbors, g.weights, lo, hi, b)
    decreases hi
  {
    if hi > lo {
      ColumnSumIsSlotsTo(g, lo, hi - 1, b);
    }
  }

  /** The row `a` holds these weights, and their sum is its degree. */
  ghost predicate RowHolds(t: Columns, k: nat, a: nat, weight: nat -> real)
    requires t.Shaped(k) && a < |t.degrees|
  {
    && (forall b: nat :: b < k ==> ColumnSum(t.neighbors, t.weights, t.offsets[a], t.offsets[a + 1], b) == weight(b))
    && t.degrees[a] == Sum(k, weight)
  }

  ghost function Listed(affinities: seq<real>, targets: seq<nat>, i: nat): nat -> real
    requires i <= |targets|
  {
    (b: nat) => if b in targets[..i] && b < |affinities| then affinities[b] else 0.0
  }

  /** Appends the collected row, in ascending order of its targets. */
  method AppendRow(t0: Columns, k: nat, targets: seq<nat>, affinities: seq<real>) returns (t: Columns)
    requires t0.Shaped(k) && |affinities| == k && Distinct(targets) && forall b :: b in targets ==> b < k
    ensures t.Shaped(k) && |t.degrees| == |t0.degrees| + 1
    ensures RowHolds(t, k, |t0.degrees|, Listed(affinities, targets, |targets|))
    ensures forall a: nat, weight :: a < |t0.degrees| && RowHolds(t0, k, a, weight) ==> RowHolds(t, k, a, weight)
  {
    var neighbors: seq<nat>, weights: seq<real>, degree := t0.neighbors, t0.weights, 0.0;
    ghost var start := |neighbors|;
    SumZero(k, Listed(affinities, targets, 0));
    for i := 0 to |targets|
      invariant start <= |neighbors| == |weights|
      invariant neighbors[..start] == t0.neighbors && weights[..start] == t0.weights
      invariant forall slot :: 0 <= slot < |neighbors| ==> neighbors[slot] < k
      invariant forall b: nat :: b < k ==>
        ColumnSum(neighbors, weights, start, |neighbors|, b) == Listed(affinities, targets, i)(b)
      invariant degree == Sum(k, Listed(affinities, targets, i))
    {
      var target := targets[i];
      assert target in targets;
      var neighbors': seq<nat>, weights': seq<real> := neighbors + [target], weights + [affinities[target]];
      assert target in targets && target !in targets[..i] && targets[..i + 1] == targets[..i] + [target];
      forall b: nat | b < k
        ensures ColumnSum(neighbors', weights', start, |neighbors'|, b) == Listed(affinities, targets, i + 1)(b)
      {
        ColumnSumPrefix(neighbors, weights, [target], [affinities[target]], start, |neighbors|, b);
      }
      SumPoint(k, Listed(affinities, targets, i), Listed(affinities, targets, i + 1), target);
      neighbors, weights := neighbors', weights';
      degree := degree + affinities[target];
    }
    t := Columns(t0.offsets + [|neighbors|], neighbors, weights, t0.degrees + [degree]);
    forall a: nat, weight | a < |t0.degrees| && RowHolds(t0, k, a, weight)
      ensures RowHolds(t, k, a, weight)
    {
      RowKept(t0, t, k, a, weight);
    }
  }

  lemma RowKept(t0: Columns, t: Columns, k: nat, a: nat, weight: nat -> real)
    requires t0.Shaped(k) && t.Shaped(k) && a < |t0.degrees| < |t.degrees| && RowHolds(t0, k, a, weight)
    requires t0.offsets <= t.offsets && t0.neighbors <= t.neighbors && t0.weights <= t.weights
      && t0.degrees <= t.degrees
    ensures RowHolds(t, k, a, weight)
  {
    var more := |t0.neighbors|;
    assert t.neighbors == t0.neighbors + t.neighbors[more..] && t.weights == t0.weights + t.weights[more..];
    assert t.offsets[a] == t0.offsets[a] && t.offsets[a + 1] == t0.offsets[a + 1] <= |t0.neighbors|;
    forall b: nat | b < k
      ensures ColumnSum(t.neighbors, t.weights, t.offsets[a], t.offsets[a + 1], b) == weight(b)
    {
      ColumnSumPrefix(t0.neighbors, t0.weights, t.neighbors[more..], t.weights[more..], t.offsets[a], t.offsets[a + 1],
                      b);
    }
  }

  /** Collects the row of one community from its members. */
  method CollectRow(g: LouvainGraph, c: seq<nat>, k: nat, community: nat, members: seq<nat>, markers0: seq<nat>,
                    affinities0: seq<real>)
    returns (markers: seq<nat>, affinities: seq<real>, targets: seq<nat>)
    requires g.Shaped() && Partitions(c, g, k) && members == Picked(c, community, |c|)
    requires |markers0| == |affinities0| == k && forall b :: 0 <= b < k ==> markers0[b] != community
    ensures Collected(c, k, community, markers, affinities, targets, FullRow(g, c, members))
    ensures forall b :: 0 <= b < k && markers[b] != community ==> markers[b] == markers0[b]
  {
    markers, affinities, targets := markers0, affinities0, [];
    for i := 0 to |members|
      invariant Collected(c, k, community, markers, affinities, targets, FullRow(g, c, members[..i]))
      invariant forall b :: 0 <= b < k && markers[b] != community ==> markers[b] == markers0[b]
    {
      markers, affinities, targets :=
        CollectMember(g, c, k, community, members[..i], members[i], markers, affinities, targets);
      assert members[..i + 1] == members[..i] + [members[i]];
    }
    assert members[..|members|] == members;
  }

  ghost function BlockRow(g: LouvainGraph, c: seq<nat>, a: nat): nat -> real
  {
    (b: nat) => Block(g, c, a, b)
  }

  lemma CollectedIsBlock(g: LouvainGraph, c: seq<nat>, k: nat, community: nat, markers: seq<nat>, affinities: seq<real>,
                         targets: seq<nat>, sorted: seq<nat>, b: nat)
    requires Partitions(c, g, k) && b < k && Elements(sorted) == Elements(targets)
    requires Collected(c, k, community, markers, affinities, targets, FullRow(g, c, Picked(c, community, |c|)))
    ensures Listed(affinities, sorted, |sorted|)(b) == Block(g, c, community, b)
  {
    MembersAreBlock(g, c, community, b, |c|);
    assert sorted[..|sorted|] == sorted;
    assert b in sorted <==> b in targets;
  }

  lemma RowHoldsExt(t: Columns, k: nat, a: nat, weight: nat -> real, other: nat -> real)
    requires t.Shaped(k) && a < |t.degrees| && RowHolds(t, k, a, weight) && forall b: nat :: b < k ==>
      weight(b) == other(b)
    ensures RowHolds(t, k, a, other)
  {
    SumExt(k, weight, other);
  }

  /** Appends the row of one community. */
  method CoarsenRow(g: LouvainGraph, c: seq<nat>, k: nat, community: nat, members: seq<nat>, markers0: seq<nat>,
                    affinities0: seq<real>, t0: Columns)
    returns (markers: seq<nat>, affinities: seq<real>, t: Columns)
    requires g.Shaped() && Partitions(c, g, k) && members == Picked(c, community, |c|)
    requires t0.Shaped(k) && |t0.degrees| == community
    requires |markers0| == |affinities0| == k && forall b :: 0 <= b < k ==> markers0[b] != community
    ensures |markers| == |affinities| == k
    ensures forall b :: 0 <= b < k && markers[b] != community ==> markers[b] == markers0[b]
    ensures t.Shaped(k) && |t.degrees| == community + 1 && RowHolds(t, k, community, BlockRow(g, c, community))
    ensures forall a: nat, weight :: a < community && RowHolds(t0, k, a, weight) ==> RowHolds(t, k, a, weight)
  {
    var targets;
    markers, affinities, targets := CollectRow(g, c, k, community, members, markers0, affinities0);
    var sorted := Sorted(targets);
    SortedIsSort(targets);
    SameMultiset(targets, sorted);
    forall b: nat | b < k
      ensures Listed(affinities, sorted, |sorted|)(b) == BlockRow(g, c, community)(b)
    {
      CollectedIsBlock(g, c, k, community, markers, affinities, targets, sorted, b);
    }
    hide RowHolds;
    t := AppendRow(t0, k, sorted, affinities);
    RowHoldsExt(t, k, community, Listed(affinities, sorted, |sorted|), BlockRow(g, c, community));
  }

  /** Contracts each community to a vertex. */
  method CoarsenLouvainGraph(g: LouvainGraph, c: seq<nat>, k: nat) returns (coarse: LouvainGraph)
    requires g.Valid() && Partitions(c, g, k)
    ensures Contracts(coarse, g, c, k)
  {
    var offsets, members := Members(c, k);
    var markers: seq<nat>, affinities: seq<real> := seq(k, _ => k), seq(k, _ => 0.0);
    var t := Columns([0], [], [], []);
    for community := 0 to k
      invariant t.Shaped(k) && |t.degrees| == community && |markers| == |affinities| == k
      invariant forall b :: 0 <= b < k ==> markers[b] == k || markers[b] < community
      invariant forall a: nat :: a < community ==> RowHolds(t, k, a, BlockRow(g, c, a))
    {
      assert Lists(offsets, members, c, community);
      hide RowHolds, Partitions, Picked;
      markers, affinities, t :=
        CoarsenRow(g, c, k, community, members[offsets[community]..offsets[community + 1]], markers, affinities, t);
    }
    coarse := LouvainGraph(t.offsets, t.neighbors, t.weights, t.degrees, g.totalDegree);
    RowsContract(coarse, t, g, c, k);
  }

  lemma RowsContract(coarse: LouvainGraph, t: Columns, g: LouvainGraph, c: seq<nat>, k: nat)
    requires t.Shaped(k) && |t.degrees| == k && forall a: nat :: a < k ==> RowHolds(t, k, a, BlockRow(g, c, a))
    requires coarse == LouvainGraph(t.offsets, t.neighbors, t.weights, t.degrees, g.totalDegree)
    ensures Contracts(coarse, g, c, k)
  {
    forall a: nat, b: nat | a < k && b < k
      ensures W(coarse, a, b) == Block(g, c, a, b)
    {
      ColumnsAreGraph(coarse, t, k, a, BlockRow(g, c, a));
      assert BlockRow(g, c, a)(b) == Block(g, c, a, b);
    }
    forall a: nat | a < k
      ensures coarse.degrees[a] == Sum(k, WeightTerm(coarse, a))
    {
      ColumnsAreGraph(coarse, t, k, a, BlockRow(g, c, a));
    }
  }

  lemma ColumnsAreGraph(coarse: LouvainGraph, t: Columns, k: nat, a: nat, weight: nat -> real)
    requires t.Shaped(k) && |t.degrees| == k && a < k && RowHolds(t, k, a, weight) && coarse.Shaped()
    requires coarse == LouvainGraph(t.offsets, t.neighbors, t.weights, t.degrees, coarse.totalDegree)
    ensures coarse.degrees[a] == Sum(k, WeightTerm(coarse, a)) && forall b: nat :: b < k ==>
      W(coarse, a, b) == weight(b)
  {
    forall b: nat | b < k
      ensures W(coarse, a, b) == weight(b)
    {
      ColumnSumIsSlotsTo(coarse, t.offsets[a], t.offsets[a + 1], b);
    }
    SumExt(k, weight, WeightTerm(coarse, a));
  }

  // ----- the reported modularity -----

  ghost function InternalTerm(g: LouvainGraph, c: seq<nat>): nat -> real
  {
    (u: nat) => if u < |c| then Into(g, c, u, c[u]) else 0.0
  }

  ghost function FractionTerm(g: LouvainGraph, c: seq<nat>): nat -> real
    requires g.totalDegree != 0.0
  {
    (a: nat) => (Total(g, c, a) / g.totalDegree) * (Total(g, c, a) / g.totalDegree)
  }

  /** Each vertex's degree times the total of its community. */
  ghost function WeightedTerm(g: LouvainGraph, c: seq<nat>): nat -> real
  {
    (u: nat) => if u < |c| then Degree(g, u) * Total(g, c, c[u]) else 0.0
  }

  ghost function SquareTerm(g: LouvainGraph, c: seq<nat>): nat -> real
  {
    (a: nat) => Total(g, c, a) * Total(g, c, a)
  }

  ghost function DegreeTimesTotal(g: LouvainGraph, c: seq<nat>): (nat, nat) -> real
  {
    (a: nat, u: nat) => Degree(g, u) * Total(g, c, a)
  }

  lemma SquareOfBucket(g: LouvainGraph, c: seq<nat>, a: nat)
    requires |c| == |g.degrees|
    ensures SquareTerm(g, c)(a) == Sum(|c|, Bucket(c, DegreeTimesTotal(g, c), a))
  {
    forall u: nat | u < |c|
      ensures Bucket(c, DegreeTimesTotal(g, c), a)(u) == Total(g, c, a) * TotalTerm(g, c, a)(u)
    {
      assert Total(g, c, a) * 0.0 == 0.0;
    }
    SumScale(|c|, Total(g, c, a), TotalTerm(g, c, a), Bucket(c, DegreeTimesTotal(g, c), a));
  }

  /** The squared totals of the communities, added up vertex by vertex. */
  lemma SquaresByVertex(g: LouvainGraph, c: seq<nat>, k: nat)
    requires Partitions(c, g, k)
    ensures Sum(k, SquareTerm(g, c)) == Sum(|c|, WeightedTerm(g, c))
  {
    forall a: nat | a < k
      ensures SquareTerm(g, c)(a) == Sum(|c|, Bucket(c, DegreeTimesTotal(g, c), a))
    {
      SquareOfBucket(g, c, a);
    }
    SumByBucket(c, k, DegreeTimesTotal(g, c), SquareTerm(g, c), WeightedTerm(g, c));
  }

  lemma FractionIsSquare(g: LouvainGraph, c: seq<nat>, a: nat, share2: real)
    requires g.totalDegree != 0.0 && share2 == Share(g) * Share(g)
    ensures FractionTerm(g, c)(a) == share2 * SquareTerm(g, c)(a)
  {
    DivideIsShare(g, Total(g, c, a));
    ProductOfShares(Share(g), Total(g, c, a));
  }

  lemma FractionsByVertex(g: LouvainGraph, c: seq<nat>, k: nat, share2: real)
    requires g.totalDegree != 0.0 && share2 == Share(g) * Share(g) && Partitions(c, g, k)
    ensures Sum(k, FractionTerm(g, c)) == share2 * Sum(|c|, WeightedTerm(g, c))
  {
    forall a: nat | a < k
      ensures FractionTerm(g, c)(a) == share2 * SquareTerm(g, c)(a)
    {
      FractionIsSquare(g, c, a, share2);
    }
    SumScale(k, share2, SquareTerm(g, c), FractionTerm(g, c));
    SquaresByVertex(g, c, k);
  }

  lemma ProductOfShares(share: real, t: real)
    ensures (share * t) * (share * t) == (share * share) * (t * t)
  {
  }

  lemma RowIsLinear(g: LouvainGraph, resolution: real, c: seq<nat>, u: nat, x: real, y: real)
    requires g.totalDegree != 0.0 && |c| == |g.degrees| && u < |c|
    requires x == Share(g) && y == Penalty(g, resolution, 1.0)
    ensures RowTerm(g, resolution, c)(u) == Combine(x, InternalTerm(g, c)(u), y, WeightedTerm(g, c)(u))
  {
    hide Pair, Share, Penalty, W, Into;
    SumExt(|c|, PairTerm(g, resolution, c, u), PairIntoTerm(g, resolution, c, u, c[u]));
    PairIntoIsLinear(g, resolution, c, u, c[u], x, Penalty(g, resolution, Degree(g, u)));
    PenaltyPerDegree(g, resolution, Degree(g, u), Total(g, c, c[u]));
  }

  lemma PenaltyPerDegree(g: LouvainGraph, resolution: real, degree: real, total: real)
    requires g.totalDegree != 0.0
    ensures Penalty(g, resolution, degree) * total == Penalty(g, resolution, 1.0) * (degree * total)
  {
  }

  lemma ModularityArithmetic(g: LouvainGraph, resolution: real, internal: real, squares: real, quotient: real,
                             fractions: real)
    requires g.totalDegree != 0.0
    requires quotient == Share(g) * internal && fractions == (Share(g) * Share(g)) * squares
    ensures Combine(Share(g), internal, Penalty(g, resolution, 1.0), squares) == quotient - resolution * fractions
  {
    var share := Share(g);
    assert Penalty(g, resolution, 1.0) * squares == -(resolution * ((share * share) * squares));
  }

  lemma ModularityIsLinear(g: LouvainGraph, resolution: real, c: seq<nat>, x: real, y: real)
    requires g.totalDegree != 0.0 && |c| == |g.degrees|
    requires x == Share(g) && y == Penalty(g, resolution, 1.0)
    ensures Modularity(g, resolution, c) == Combine(x, Sum(|c|, InternalTerm(g, c)), y, Sum(|c|, WeightedTerm(g, c)))
  {
    forall u: nat | u < |c|
      ensures RowTerm(g, resolution, c)(u) == Combine(x, InternalTerm(g, c)(u), y, WeightedTerm(g, c)(u))
    {
      RowIsLinear(g, resolution, c, u, x, y);
    }
    SumLinear(|c|, x, InternalTerm(g, c), y, WeightedTerm(g, c), RowTerm(g, resolution, c));
  }

  /** The community form that the code evaluates is the pairwise definition. */
  lemma ModularityByCommunity(g: LouvainGraph, resolution: real, c: seq<nat>, k: nat)
    requires g.totalDegree != 0.0 && Partitions(c, g, k)
    ensures Sum(|c|, InternalTerm(g, c)) / g.totalDegree - resolution * Sum(k, FractionTerm(g, c))
      == Modularity(g, resolution, c)
  {
    ModularityIsLinear(g, resolution, c, Share(g), Penalty(g, resolution, 1.0));
    FractionsByVertex(g, c, k, Share(g) * Share(g));
    DivideIsShare(g, Sum(|c|, InternalTerm(g, c)));
    ModularityArithmetic(g, resolution, Sum(|c|, InternalTerm(g, c)), Sum(|c|, WeightedTerm(g, c)),
                         Sum(|c|, InternalTerm(g, c)) / g.totalDegree, Sum(k, FractionTerm(g, c)));
  }

  /** The weight that a vertex shares with its own community. */
  method InternalWeight(g: LouvainGraph, c: seq<nat>, k: nat, vertex: nat, internal0: real) returns (internal: real)
    requires g.Shaped() && Partitions(c, g, k) && vertex < |c|
    ensures internal == internal0 + InternalTerm(g, c)(vertex)
  {
    internal := internal0;
    for slot := g.offsets[vertex] to g.offsets[vertex + 1]
      invariant internal == internal0 + SlotSum(g, g.offsets[vertex], slot, (v: nat) => In(c, v, c[vertex]))
    {
      if c[g.neighbors[slot]] == c[vertex] {
        internal := internal + g.EdgeWeight(slot);
      }
    }
    RowByNeighbor(g, vertex, (v: nat) => In(c, v, c[vertex]), IntoTerm(g, c, vertex, c[vertex]));
  }

  /** The squared shares of the total degree that the communities hold. */
  method DegreePenalty(g: LouvainGraph, c: seq<nat>, k: nat, degrees: seq<real>) returns (penalty: real)
    requires g.totalDegree != 0.0 && |degrees| == k && forall a: nat :: a < k ==> degrees[a] == Total(g, c, a)
    ensures penalty == Sum(k, FractionTerm(g, c))
  {
    penalty := 0.0;
    for a := 0 to k
      invariant penalty == Sum(a, FractionTerm(g, c))
    {
      var fraction := degrees[a] / g.totalDegree;
      penalty := penalty + fraction * fraction;
    }
  }

  method LouvainModularity(g: LouvainGraph, c: seq<nat>, k: nat, resolution: real) returns (modularity: real)
    requires g.Valid() && Partitions(c, g, k)
    ensures modularity == if g.totalDegree == 0.0 then 0.0 else Modularity(g, resolution, c)
  {
    if g.totalDegree == 0.0 {
      return 0.0;
    }
    var degrees, internal := CommunitySums(g, c, k);
    var penalty := DegreePenalty(g, c, k, degrees);
    ModularityByCommunity(g, resolution, c, k);
    modularity := internal / g.totalDegree - resolution * penalty;
  }

  /** The total of each community and the weight inside communities. */
  method CommunitySums(g: LouvainGraph, c: seq<nat>, k: nat) returns (degrees: seq<real>, internal: real)
    requires g.Shaped() && Partitions(c, g, k)
    ensures |degrees| == k && forall a: nat :: a < k ==> degrees[a] == Total(g, c, a)
    ensures internal == Sum(|c|, InternalTerm(g, c))
  {
    degrees, internal := seq(k, _ => 0.0), 0.0;
    for vertex := 0 to |c|
      invariant |degrees| == k && forall a: nat :: a < k ==> degrees[a] == Sum(vertex, TotalTerm(g, c, a))
      invariant internal == Sum(vertex, InternalTerm(g, c))
    {
      degrees := degrees[c[vertex] := degrees[c[vertex]] + g.degrees[vertex]];
      internal := InternalWeight(g, c, k, vertex, internal);
    }
  }

  // ----- levels -----

  /** Every partition of the current graph's vertices has the modularity of what it amounts to in the original. */
  ghost predicate Lifts(g: LouvainGraph, original: LouvainGraph, resolution: real, c: seq<nat>)
    requires g.totalDegree != 0.0 && original.totalDegree != 0.0
  {
    && |c| == |original.degrees| && (forall u :: 0 <= u < |c| ==> c[u] < |g.degrees|)
    && forall d: seq<nat> :: |d| == |g.degrees| ==>
         Modularity(g, resolution, d) == Modularity(original, resolution, Compose(d, c))
  }

  lemma ContractionLifts(coarse: LouvainGraph, g: LouvainGraph, original: LouvainGraph, resolution: real, c: seq<nat>,
                         k: nat, lift: seq<nat>)
    requires g.Valid() && g.totalDegree != 0.0 && original.totalDegree != 0.0
    requires Lifts(g, original, resolution, lift) && Partitions(c, g, k) && Contracts(coarse, g, c, k)
    ensures Lifts(coarse, original, resolution, Compose(c, lift))
  {
    forall d: seq<nat> | |d| == k
      ensures Modularity(coarse, resolution, d) == Modularity(original, resolution, Compose(d, Compose(c, lift)))
    {
      ContractionKeepsModularity(coarse, g, resolution, c, k, d);
      assert Compose(Compose(d, c), lift) == Compose(d, Compose(c, lift));
    }
  }

  datatype LouvainResult = LouvainResult(communities: seq<nat>, communityCount: nat, modularity: real, levels: nat,
                                         iterations: nat, converged: bool)

  /** What holds at the start of a level. */
  ghost predicate AtLevel(g: LouvainGraph, original: LouvainGraph, p: Parameters, c: seq<nat>)
  {
    && g.Valid() && original.Valid() && g.totalDegree == original.totalDegree
    && |c| == |original.degrees| && (forall u :: 0 <= u < |c| ==> c[u] < |g.degrees|)
    && (original.totalDegree != 0.0 ==>
          && Lifts(g, original, p.resolution, c)
          && Modularity(original, p.resolution, c) >= Modularity(original, p.resolution, Singletons(|c|)))
  }

  /** What a number of moves has done for a partition. */
  ghost predicate Risen(g: LouvainGraph, p: Parameters, c: seq<nat>, d: seq<nat>, moves: nat)
    requires g.totalDegree != 0.0
  {
    if moves == 0 then Modularity(g, p.resolution, d) == Modularity(g, p.resolution, c)
    else Modularity(g, p.resolution, d) > Modularity(g, p.resolution, c) + Gains(p.tolerance, moves)
  }

  lemma LevelRaises(g: LouvainGraph, original: LouvainGraph, p: Parameters, c: seq<nat>, move: seq<nat>, moves: nat)
    requires p.Valid() && AtLevel(g, original, p, c) && original.totalDegree != 0.0 && |move| == |g.degrees|
    requires Risen(g, p, Singletons(|g.degrees|), move, moves)
    ensures Risen(original, p, c, Compose(move, c), moves)
    ensures Modularity(original, p.resolution, Compose(move, c)) >= Modularity(original, p.resolution, c)
  {
    assert Compose(Singletons(|g.degrees|), c) == c;
    assert Gains(p.tolerance, moves) >= 0.0;
  }

  /** Gains of one level after another add up. */
  lemma RisesAdd(g: LouvainGraph, p: Parameters, b: seq<nat>, c: seq<nat>, d: seq<nat>, moves: nat, more: nat)
    requires g.totalDegree != 0.0 && Risen(g, p, b, c, moves) && Risen(g, p, c, d, more)
    ensures Risen(g, p, b, d, moves + more)
  {
    hide Modularity;
    GainsAdd(p.tolerance, moves, more);
  }

  lemma FirstLevel(original: LouvainGraph, p: Parameters)
    requires original.Valid()
    ensures AtLevel(original, original, p, Singletons(|original.degrees|))
  {
    var c := Singletons(|original.degrees|);
    forall d: seq<nat> | |d| == |c|
      ensures Compose(d, c) == d
    {
    }
  }

  /** The communities after a level's moves, and whether another level can follow. */
  ghost predicate AfterMoves(original: LouvainGraph, p: Parameters, c: seq<nat>, count: nat)
  {
    && original.Valid() && |c| == |original.degrees| && (forall u :: 0 <= u < |c| ==> c[u] < count)
    && (original.totalDegree != 0.0 ==>
          Modularity(original, p.resolution, c) >= Modularity(original, p.resolution, Singletons(|c|)))
  }

  ghost predicate AllSettled(g: LouvainGraph, p: Parameters, c: seq<nat>)
  {
    g.Shaped() && |c| == |g.degrees| && g.totalDegree != 0.0 ==>
      forall x: nat :: x < |g.degrees| && g.degrees[x] != 0.0 ==> Settled(g, p, c, x)
  }

  /** A graph with edges, none of negative weight. */
  ghost predicate Positive(g: LouvainGraph)
  {
    NonNegative(g) && g.totalDegree != 0.0
  }

  /** What merging gains among the vertices of a level it gains among the communities they stand for. */
  lemma MergesLift(g: LouvainGraph, original: LouvainGraph, p: Parameters, lift: seq<nat>, c: seq<nat>, count: nat)
    requires g.totalDegree != 0.0 && original.totalDegree != 0.0 && |c| == |g.degrees|
    requires Lifts(g, original, p.resolution, lift) && MergesGainLittle(g, p, c, count)
    ensures MergesGainLittle(original, p, Compose(c, lift), count)
  {
    hide Modularity;
    forall a: nat, b: nat | a < count && b < count && a != b
      ensures GainsLittle(original, p, Compose(c, lift), a, b)
    {
      assert GainsLittle(g, p, c, a, b);
      assert Compose(Merged(c, a, b), lift) == Merged(Compose(c, lift), a, b);
    }
  }

  /** A converged level that merges nothing ends with communities that are not worth merging. */
  lemma LastLevelMergesGainLittle(g: LouvainGraph, original: LouvainGraph, p: Parameters, lift: seq<nat>,
                                  move: MoveResult)
    requires p.Valid() && AtLevel(g, original, p, lift) && Positive(g) && |move.communities| == |g.degrees|
    requires Compact(move.communities, move.communityCount) && move.communityCount == |g.degrees|
    requires AllSettled(g, p, move.communities)
    ensures MergesGainLittle(original, p, Compose(move.communities, lift), move.communityCount)
  {
    hide MergesGainLittle, Lifts, Settled, Compact, Modularity, NonNegative;
    SettledMergesGainLittle(g, p, move.communities, move.communityCount);
    MergesLift(g, original, p, lift, move.communities, move.communityCount);
  }

  /** Moves vertices of the current graph and composes the labels. */
  method MoveLevel(g: LouvainGraph, ghost original: LouvainGraph, p: Parameters, c: seq<nat>)
    returns (move: MoveResult, c': seq<nat>, ghost moves: nat)
    requires p.Valid() && AtLevel(g, original, p, c)
    ensures Compact(move.communities, move.communityCount) && Partitions(move.communities, g, move.communityCount)
    ensures c' == Compose(move.communities, c) && AfterMoves(original, p, c', move.communityCount)
    ensures 0 < |g.degrees| ==> 1 <= move.iterations <= p.maxIterations && 0 < move.communityCount
    ensures !move.converged ==> move.iterations == p.maxIterations
    ensures move.converged ==> AllSettled(g, p, move.communities)
    ensures original.totalDegree == 0.0 ==>
      move.communities == Singletons(|g.degrees|) && move.converged && move.iterations <= 1
    ensures original.totalDegree != 0.0 ==> moves >= move.iterations - 1 && Risen(original, p, c, c', moves)
    ensures original.totalDegree != 0.0 && !SinglesSettled(g, p) ==> moves > 0
  {
    move, moves := LouvainLocalMove(g, p);
    assert 0 < |g.degrees| ==> move.communities[0] < move.communityCount;
    if original.totalDegree != 0.0 {
      LevelRaises(g, original, p, c, move.communities, moves);
    }
    c' := Compose(move.communities, c);
  }

  /** Contracts the communities of a level. */
  method NextLevel(g: LouvainGraph, ghost original: LouvainGraph, p: Parameters, ghost c: seq<nat>, move: seq<nat>,
                   count: nat)
    returns (coarse: LouvainGraph)
    requires AtLevel(g, original, p, c) && Partitions(move, g, count)
      && AfterMoves(original, p, Compose(move, c), count)
    ensures AtLevel(coarse, original, p, Compose(move, c)) && |coarse.degrees| == count
    ensures coarse.Valid() && coarse.totalDegree == g.totalDegree && (Positive(g) ==> Positive(coarse))
  {
    coarse := CoarsenLouvainGraph(g, move, count);
    ContractedIsValid(coarse, g, move, count);
    if NonNegative(g) {
      ContractedNonNegative(coarse, g, move, count);
    }
    if original.totalDegree != 0.0 {
      ContractionLifts(coarse, g, original, p.resolution, move, count, c);
    }
  }

  /** The counts after some levels: no more passes than the limits allow, and at least one for each level. */
  ghost predicate Counted(p: Parameters, levels: nat, iterations: nat, converged: bool)
  {
    levels <= iterations <= levels * p.maxIterations && (!converged ==> iterations >= p.maxIterations)
  }

  lemma CountsNext(p: Parameters, levels: nat, iterations: nat, converged: bool, move: MoveResult)
    requires Counted(p, levels, iterations, converged) && 1 <= move.iterations <= p.maxIterations
    requires !move.converged ==> move.iterations == p.maxIterations
    ensures Counted(p, levels + 1, iterations + move.iterations, converged && move.converged)
  {
  }

  /** The partition has risen from single vertices by these moves. */
  ghost predicate Climbed(original: LouvainGraph, p: Parameters, c: seq<nat>, moves: nat, passes: int)
  {
    original.totalDegree != 0.0 ==> moves >= passes && Risen(original, p, Singletons(|original.degrees|), c, moves)
  }

  lemma ClimbsOn(original: LouvainGraph, p: Parameters, c: seq<nat>, moves: nat, passes: int, next: seq<nat>, more: nat,
                 iterations: nat)
    requires Climbed(original, p, c, moves, passes)
    requires original.totalDegree != 0.0 ==> more >= iterations - 1 && Risen(original, p, c, next, more)
    ensures Climbed(original, p, next, moves + more, passes + iterations - 1)
  {
    if original.totalDegree != 0.0 {
      RisesAdd(original, p, Singletons(|original.degrees|), c, next, moves, more);
    }
  }

  /** What the moves made say of the modularity reached. */
  lemma ClimbedHigh(original: LouvainGraph, p: Parameters, c: seq<nat>, moves: nat, passes: nat)
    requires p.Valid() && original.totalDegree != 0.0 && Climbed(original, p, c, moves, passes)
    ensures var singles, reached := Modularity(original, p.resolution, Singletons(|original.degrees|)),
      Modularity(original, p.resolution, c);
      && reached >= singles && (moves > 0 ==> reached > singles)
      && (passes > 0 ==> reached > singles + Gains(p.tolerance, passes))
  {
    hide Modularity;
    GainsAdd(p.tolerance, passes, moves - passes);
    assert Gains(p.tolerance, moves) >= 0.0;
  }

  lemma SinglesAreCompact(n: nat)
    ensures Compact(Singletons(n), n) && forall count: nat :: Compact(Singletons(n), count) ==> count == n
  {
    forall count: nat | Compact(Singletons(n), count)
      ensures count == n
    {
      assert n > 0 ==> Singletons(n)[n - 1] == n - 1;
      assert n < count ==> n in Singletons(n);
    }
    forall k: nat | k < n
      ensures k in Singletons(n)
    {
      assert Singletons(n)[k] == k;
    }
  }

  lemma ComposedIsCompact(d: seq<nat>, count: nat, c: seq<nat>)
    requires Compact(d, count) && Compact(c, |d|)
    ensures Compact(Compose(d, c), count)
  {
    forall k: nat | k < count
      ensures k in Compose(d, c)
    {
      assert k in d;
      var v: nat :| v < |d| && d[v] == k;
      assert v in c;
      var u: nat :| u < |c| && c[u] == v;
      assert Compose(d, c)[u] == k;
    }
  }

  /** How far the levels so far have come. */
  ghost predicate Reached(original: LouvainGraph, p: Parameters, c: seq<nat>, levels: nat, iterations: nat,
                          converged: bool, moves: nat)
  {
    && Counted(p, levels, iterations, converged) && Climbed(original, p, c, moves, iterations - levels)
    && (original.totalDegree == 0.0 ==>
          c == Singletons(|original.degrees|) && converged && iterations == levels)
  }

  /** If single vertices are not settled, some vertex has moved or still will. */
  ghost predicate Moving(original: LouvainGraph, p: Parameters, g: LouvainGraph, moves: nat)
  {
    && g.Valid() && original.Valid() && g.totalDegree == original.totalDegree
    && (g.totalDegree != 0.0 && !SinglesSettled(original, p) ==> moves > 0 || !SinglesSettled(g, p))
  }

  /** What holds before a level is run. */
  ghost predicate BeforeLevel(original: LouvainGraph, p: Parameters, g: LouvainGraph, c: seq<nat>, levels: nat,
                              iterations: nat, converged: bool, moves: nat)
  {
    && AtLevel(g, original, p, c) && Compact(c, |g.degrees|) && 0 < |g.degrees|
    && (Positive(original) ==> Positive(g)) && (original.totalDegree == 0.0 ==> levels == 0)
    && Reached(original, p, c, levels, iterations, converged, moves) && Moving(original, p, g, moves)
  }

  /** What holds once a level has been run. */
  ghost predicate LevelDone(original: LouvainGraph, p: Parameters, g: LouvainGraph, before: seq<nat>, move: MoveResult,
                            c: seq<nat>, levels: nat, iterations: nat, converged: bool, moves: nat)
  {
    && AtLevel(g, original, p, before) && (Positive(original) ==> Positive(g))
    && Compact(move.communities, move.communityCount) && Partitions(move.communities, g, move.communityCount)
    && 0 < move.communityCount && c == Compose(move.communities, before) && Compact(c, move.communityCount)
    && AfterMoves(original, p, c, move.communityCount) && (converged ==> AllSettled(g, p, move.communities))
    && Reached(original, p, c, levels, iterations, converged, moves)
    && (original.totalDegree != 0.0 && !SinglesSettled(original, p) ==> moves > 0)
    && (original.totalDegree == 0.0 ==> move.communityCount == |g.degrees| && levels == 1)
  }

  /** Moves vertices of the current graph and keeps count. */
  method RunLevel(g: LouvainGraph, ghost original: LouvainGraph, p: Parameters, c: seq<nat>, ghost levels: nat,
                  iterations: nat, converged: bool, ghost moves: nat)
    returns (move: MoveResult, c': seq<nat>, iterations': nat, converged': bool, ghost moves': nat)
    requires p.Valid() && BeforeLevel(original, p, g, c, levels, iterations, converged, moves)
    ensures LevelDone(original, p, g, c, move, c', levels + 1, iterations', converged', moves')
  {
    ghost var more;
    hide Lifts, AllSettled, Settled, Risen, NonNegative, Climbed, Counted;
    SinglesAreCompact(|g.degrees|);
    move, c', more := MoveLevel(g, original, p, c);
    ComposedIsCompact(move.communities, move.communityCount, c);
    CountsNext(p, levels, iterations, converged, move);
    ClimbsOn(original, p, c, moves, iterations - levels, c', more, move.iterations);
    iterations', converged', moves' := iterations + move.iterations, converged && move.converged, moves + more;
  }

  /** What is returned: a partition that has come as far as the counts say, and not worth merging further
      when the call converges. */
  ghost predicate LevelsDone(original: LouvainGraph, p: Parameters, c: seq<nat>, count: nat, levels: nat,
                             iterations: nat, converged: bool, met: bool, moves: nat)
  {
    && Partitions(c, original, count) && Compact(c, count)
    && Reached(original, p, c, levels, iterations, met, moves) && 1 <= levels <= p.maxLevels
    && (converged ==> met && (Positive(original) ==> MergesGainLittle(original, p, c, count)))
    && (!converged && met ==> levels == p.maxLevels)
    && (original.totalDegree == 0.0 ==> levels == 1 && converged)
    && (original.Shaped() && original.totalDegree != 0.0 && !SinglesSettled(original, p) ==> moves > 0)
  }

  lemma LevelEndsAll(original: LouvainGraph, p: Parameters, g: LouvainGraph, before: seq<nat>, move: MoveResult,
                     c: seq<nat>, levels: nat, iterations: nat, converged: bool, moves: nat)
    requires p.Valid() && LevelDone(original, p, g, before, move, c, levels, iterations, converged, moves)
    requires 1 <= levels <= p.maxLevels
    ensures move.communityCount == |g.degrees| ==>
      LevelsDone(original, p, c, move.communityCount, levels, iterations, converged, converged, moves)
    ensures move.communityCount != |g.degrees| && levels == p.maxLevels ==>
      LevelsDone(original, p, c, move.communityCount, levels, iterations, false, converged, moves)
  {
    hide Modularity, Lifts, Settled, Gains, Compact, Climbed, MergesGainLittle, AllSettled, SinglesSettled, NonNegative;
    if Positive(original) && converged && move.communityCount == |g.degrees| {
      LastLevelMergesGainLittle(g, original, p, before, move);
    }
  }

  /** The contracted graph is where the next level starts. */
  method ContractLevel(g: LouvainGraph, ghost original: LouvainGraph, p: Parameters, ghost before: seq<nat>,
                       move: MoveResult, ghost c: seq<nat>, ghost levels: nat, ghost iterations: nat,
                       ghost converged: bool, ghost moves: nat)
    returns (coarse: LouvainGraph)
    requires LevelDone(original, p, g, before, move, c, levels, iterations, converged, moves)
    requires move.communityCount != |g.degrees|
    ensures BeforeLevel(original, p, coarse, c, levels, iterations, converged, moves)
  {
    hide Modularity, Lifts, Settled, Gains, Compact, Reached, AllSettled, SinglesSettled, NonNegative;
    coarse := NextLevel(g, original, p, before, move.communities, move.communityCount);
  }

  lemma StartsBeforeLevel(original: LouvainGraph, p: Parameters)
    requires original.Valid() && 0 < |original.degrees|
    ensures BeforeLevel(original, p, original, Singletons(|original.degrees|), 0, 0, true, 0)
  {
    FirstLevel(original, p);
    SinglesAreCompact(|original.degrees|);
  }

  /** What the counts say at the end, and how high the partition has climbed. */
  lemma ReachedEnds(original: LouvainGraph, p: Parameters, c: seq<nat>, levels: nat, iterations: nat, converged: bool,
                    moves: nat)
    requires p.Valid() && Reached(original, p, c, levels, iterations, converged, moves)
    ensures levels <= iterations <= levels * p.maxIterations && (!converged ==> iterations >= p.maxIterations)
    ensures original.totalDegree == 0.0 ==>
      c == Singletons(|original.degrees|) && converged && iterations == levels
    ensures original.totalDegree != 0.0 ==>
      var singles, reached := Modularity(original, p.resolution, Singletons(|original.degrees|)),
        Modularity(original, p.resolution, c);
      && reached >= singles && (moves > 0 ==> reached > singles)
      && (iterations > levels ==> reached > singles + Gains(p.tolerance, iterations - levels))
  {
    hide Modularity;
    if original.totalDegree != 0.0 {
      ClimbedHigh(original, p, c, moves, iterations - levels);
    }
  }

  /** Moves and contracts until a level merges nothing or the limit is met; `met` tells whether all
      levels converged. */
  method RunLevels(original: LouvainGraph, p: Parameters)
    returns (communities: seq<nat>, count: nat, levels: nat, iterations: nat, converged: bool, ghost met: bool,
             ghost moves: nat)
    requires original.Valid() && p.Valid() && 0 < |original.degrees|
    ensures LevelsDone(original, p, communities, count, levels, iterations, converged, met, moves)
  {
    hide BeforeLevel, LevelDone, LevelsDone;
    communities, count, levels := Singletons(|original.degrees|), |original.degrees|, 0;
    iterations, converged, met, moves := 0, true, true, 0;
    var g := original;
    StartsBeforeLevel(original, p);
    while true
      invariant levels < p.maxLevels
      invariant BeforeLevel(original, p, g, communities, levels, iterations, converged, moves)
      decreases p.maxLevels - levels
    {
      ghost var previous := communities;
      var move;
      move, communities, iterations, converged, moves :=
        RunLevel(g, original, p, communities, levels, iterations, converged, moves);
      levels, count, met := levels + 1, move.communityCount, converged;
      LevelEndsAll(original, p, g, previous, move, communities, levels, iterations, converged, moves);
      if move.communityCount == |g.degrees| {
        return;
      }
      if levels == p.maxLevels {
        converged := false;
        return;
      }
      g := ContractLevel(g, original, p, previous, move, communities, levels, iterations, converged, moves);
    }
  }

  /** Levels of local moves and contractions; the modularity reported is the composed partition's.  It
      has grown by more than twice the tolerance for every pass beyond the last of each level, and at
      all when single vertices were not settled.  A call that does not converge has met a limit; at
      convergence no merge of two communities would gain more than twice the tolerance. */
  method ClusterLevels(original: LouvainGraph, p: Parameters) returns (r: LouvainResult)
    requires original.Valid() && p.Valid()
    ensures |r.communities| == |original.degrees| && Compact(r.communities, r.communityCount)
    ensures r.levels <= p.maxLevels && r.levels <= r.iterations <= r.levels * p.maxIterations
    ensures 0 < |original.degrees| ==> 1 <= r.levels
    ensures !r.converged ==> r.levels == p.maxLevels || r.iterations >= p.maxIterations
    ensures r.converged && Positive(original) ==> MergesGainLittle(original, p, r.communities, r.communityCount)
    ensures original.totalDegree == 0.0 ==>
      && r.communities == Singletons(|original.degrees|) && r.modularity == 0.0
      && r.converged && r.iterations == r.levels <= 1
    ensures original.totalDegree != 0.0 ==>
      var singles := Modularity(original, p.resolution, Singletons(|original.degrees|));
      && r.modularity == Modularity(original, p.resolution, r.communities) >= singles
      && (r.iterations > r.levels ==> r.modularity > singles + Gains(p.tolerance, r.iterations - r.levels))
      && (!SinglesSettled(original, p) ==> r.modularity > singles)
  {
    var n := |original.degrees|;
    if n == 0 {
      assert original.totalDegree == 0.0;
      return LouvainResult([], 0, 0.0, 0, 0, true);
    }
    var communities, count, levels, iterations, converged;
    ghost var met, moves;
    communities, count, levels, iterations, converged, met, moves := RunLevels(original, p);
    ReachedEnds(original, p, communities, levels, iterations, met, moves);
    var modularity := LouvainModularity(original, communities, count, p.resolution);
    r := LouvainResult(communities, count, modularity, levels, iterations, converged);
  }
}
