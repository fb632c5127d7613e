/** Modularity of a partition of a weighted undirected graph, and what moving one vertex does to it. */
module Modularities {
  import opened Sums

  /** A graph whose edges are stored in the rows of both ends; an empty `weights` column stands for
      unit weights. */
  datatype LouvainGraph = LouvainGraph(offsets: seq<nat>, neighbors: seq<nat>, weights: seq<real>, degrees: seq<real>,
                                       totalDegree: real)
  {
    function EdgeWeight(slot: nat): real
      requires |weights| == 0 || slot < |weights|
    {
      if |weights| == 0 then 1.0 else weights[slot]
    }

    ghost predicate Shaped()
    {
      && |offsets| == |degrees| + 1 && (|weights| == 0 || |weights| == |neighbors|)
      && (forall i, j :: 0 <= i <= j <= |degrees| ==> offsets[i] <= offsets[j])
      && offsets[|degrees|] == |neighbors|
      && (forall slot :: 0 <= slot < |neighbors| ==> neighbors[slot] < |degrees|)
    }

    /** The degrees are row sums, the total is their sum, and each edge weighs the same from both ends. */
    ghost predicate Valid()
    {
      && Shaped()
      && (forall u: nat :: u < |degrees| ==> degrees[u] == Sum(|degrees|, WeightTerm(this, u)))
      && totalDegree == Sum(|degrees|, DegreeTerm(this)) && totalDegree >= 0.0
      && (forall u: nat, v: nat :: u < |degrees| && v < |degrees| ==> W(this, u, v) == W(this, v, u))
    }
  }

  ghost function Degree(g: LouvainGraph, u: nat): real
  {
    if u < |g.degrees| then g.degrees[u] else 0.0
  }

  ghost function DegreeTerm(g: LouvainGraph): nat -> real
  {
    (u: nat) => Degree(g, u)
  }

  ghost function WeightTerm(g: LouvainGraph, u: nat): nat -> real
  {
    (v: nat) => W(g, u, v)
  }

  /** The weight of the slots from `lo` to `hi` that lead to `v`. */
  ghost function SlotsTo(g: LouvainGraph, lo: nat, hi: nat, v: nat): real
    requires g.Shaped() && hi <= |g.neighbors|
    decreases hi
  {
    if hi <= lo then 0.0
    else SlotsTo(g, lo, hi - 1, v) + (if g.neighbors[hi - 1] == v then g.EdgeWeight(hi - 1) else 0.0)
  }

  /** The total weight of the edges from `u` to `v`. */
  ghost function W(g: LouvainGraph, u: nat, v: nat): real
  {
    if g.Shaped() && u < |g.degrees| then SlotsTo(g, g.offsets[u], g.offsets[u + 1], v) else 0.0
  }

  /** The weight of the slots from `lo` to `hi` whose neighbour is selected. */
  ghost function SlotSum(g: LouvainGraph, lo: nat, hi: nat, p: nat -> bool): real
    requires g.Shaped() && hi <= |g.neighbors|
    decreases hi
  {
    if hi <= lo then 0.0
    else SlotSum(g, lo, hi - 1, p) + (if p(g.neighbors[hi - 1]) then g.EdgeWeight(hi - 1) else 0.0)
  }

  ghost function Selected(g: LouvainGraph, lo: nat, hi: nat, p: nat -> bool): nat -> real
    requires g.Shaped() && hi <= |g.neighbors|
  {
    (v: nat) => if p(v) then SlotsTo(g, lo, hi, v) else 0.0
  }

  /** Adding a row slot by slot is adding it neighbour by neighbour. */
  lemma {:induction false} SlotsByNeighbor(g: LouvainGraph, lo: nat, hi: nat, p: nat -> bool)
    requires g.Shaped() && hi <= |g.neighbors|
    ensures SlotSum(g, lo, hi, p) == Sum(|g.degrees|, Selected(g, lo, hi, p))
    decreases hi
  {
    if hi <= lo {
      forall v: nat | v < |g.degrees|
        ensures Selected(g, lo, hi, p)(v) == 0.0
      {
        assert SlotsTo(g, lo, hi, v) == 0.0;
      }
      SumZero(|g.degrees|, Selected(g, lo, hi, p));
    } else {
      SlotsByNeighbor(g, lo, hi - 1, p);
      forall v: nat | v < |g.degrees|
        ensures Selected(g, lo, hi, p)(v) == Selected(g, lo, hi - 1, p)(v)
          + (if p(v) && g.neighbors[hi - 1] == v then g.EdgeWeight(hi - 1) else 0.0)
      {
      }
      SumPoint(|g.degrees|, Selected(g, lo, hi - 1, p), Selected(g, lo, hi, p), g.neighbors[hi - 1]);
    }
  }

  /** The same along one row. */
  lemma RowByNeighbor(g: LouvainGraph, u: nat, p: nat -> bool, f: nat -> real)
    requires g.Shaped() && u < |g.degrees|
    requires forall v: nat :: v < |g.degrees| ==> f(v) == if p(v) then W(g, u, v) else 0.0
    ensures g.offsets[u + 1] <= |g.neighbors|
    ensures SlotSum(g, g.offsets[u], g.offsets[u + 1], p) == Sum(|g.degrees|, f)
  {
    SlotsByNeighbor(g, g.offsets[u], g.offsets[u + 1], p);
    SumExt(|g.degrees|, Selected(g, g.offsets[u], g.offsets[u + 1], p), f);
  }

  // ----- modularity -----

  ghost predicate Same(c: seq<nat>, u: nat, v: nat)
  {
    u < |c| && v < |c| && c[u] == c[v]
  }

  ghost predicate In(c: seq<nat>, v: nat, community: nat)
  {
    v < |c| && c[v] == community
  }

  /** The factor that turns weights and degrees into shares of the total. */
  ghost function Share(g: LouvainGraph): real
    requires g.totalDegree != 0.0
  {
    1.0 / g.totalDegree
  }

  /** What a pair of vertices adds to modularity when it shares a community: the share of the weight
      between them, less the share that their degrees would give it. */
  ghost function Pair(g: LouvainGraph, resolution: real, u: nat, v: nat): real
    requires g.totalDegree != 0.0
  {
    Share(g) * W(g, u, v) - resolution * (Share(g) * Degree(g, u)) * (Share(g) * Degree(g, v))
  }

  ghost function PairTerm(g: LouvainGraph, resolution: real, c: seq<nat>, u: nat): nat -> real
    requires g.totalDegree != 0.0
  {
    (v: nat) => if Same(c, u, v) then Pair(g, resolution, u, v) else 0.0
  }

  ghost function RowTerm(g: LouvainGraph, resolution: real, c: seq<nat>): nat -> real
    requires g.totalDegree != 0.0
  {
    (u: nat) => Sum(|g.degrees|, PairTerm(g, resolution, c, u))
  }

  /** Newman's modularity of a partition: the sum of `Pair` over all ordered pairs in one community. */
  ghost function Modularity(g: LouvainGraph, resolution: real, c: seq<nat>): real
    requires g.totalDegree != 0.0
  {
    Sum(|g.degrees|, RowTerm(g, resolution, c))
  }

  // The weights to, the degrees of and the pairs with the members of a community other than `u`.

  ghost function AffinityTerm(g: LouvainGraph, c: seq<nat>, u: nat, community: nat): nat -> real
  {
    (v: nat) => if v != u && In(c, v, community) then W(g, u, v) else 0.0
  }

  ghost function VolumeTerm(g: LouvainGraph, c: seq<nat>, u: nat, community: nat): nat -> real
  {
    (v: nat) => if v != u && In(c, v, community) then Degree(g, v) else 0.0
  }

  ghost function BondTerm(g: LouvainGraph, resolution: real, c: seq<nat>, u: nat, community: nat): nat -> real
    requires g.totalDegree != 0.0
  {
    (v: nat) => if v != u && In(c, v, community) then Pair(g, resolution, u, v) else 0.0
  }

  ghost function Affinity(g: LouvainGraph, c: seq<nat>, u: nat, community: nat): real
  {
    Sum(|g.degrees|, AffinityTerm(g, c, u, community))
  }

  ghost function Volume(g: LouvainGraph, c: seq<nat>, u: nat, community: nat): real
  {
    Sum(|g.degrees|, VolumeTerm(g, c, u, community))
  }

  ghost function Bond(g: LouvainGraph, resolution: real, c: seq<nat>, u: nat, community: nat): real
    requires g.totalDegree != 0.0
  {
    Sum(|g.degrees|, BondTerm(g, resolution, c, u, community))
  }

  /** How well a vertex fits a community that it is not counted in. */
  ghost function Score(g: LouvainGraph, resolution: real, c: seq<nat>, u: nat, community: nat): real
    requires g.totalDegree != 0.0
  {
    Affinity(g, c, u, community) - resolution * Degree(g, u) * Volume(g, c, u, community) / g.totalDegree
  }

  /** The coefficient that `Pair` gives to the second degree. */
  ghost function Penalty(g: LouvainGraph, resolution: real, degree: real): real
    requires g.totalDegree != 0.0
  {
    -resolution * degree * Share(g) * Share(g)
  }

  lemma PairIsLinear(g: LouvainGraph, resolution: real, u: nat, v: nat)
    requires g.totalDegree != 0.0
    ensures Pair(g, resolution, u, v)
      == Combine(Share(g), W(g, u, v), Penalty(g, resolution, Degree(g, u)), Degree(g, v))
    ensures Pair(g, resolution, u, v)
      == Combine(Share(g), W(g, u, v), Penalty(g, resolution, Degree(g, v)), Degree(g, u))
  {
  }

  lemma DivideIsShare(g: LouvainGraph, x: real)
    requires g.totalDegree != 0.0
    ensures x / g.totalDegree == Share(g) * x
  {
  }

  lemma BondTermSplits(g: LouvainGraph, resolution: real, c: seq<nat>, u: nat, community: nat, v: nat, a: real, b: real)
    requires g.totalDegree != 0.0 && a == Share(g) && b == Penalty(g, resolution, Degree(g, u))
    ensures BondTerm(g, resolution, c, u, community)(v)
      == Combine(a, AffinityTerm(g, c, u, community)(v), b, VolumeTerm(g, c, u, community)(v))
  {
    if v != u && In(c, v, community) {
      PairIsLinear(g, resolution, u, v);
    } else {
      assert a * 0.0 == 0.0 && b * 0.0 == 0.0;
    }
  }

  lemma BondIsLinear(g: LouvainGraph, resolution: real, c: seq<nat>, u: nat, community: nat, a: real, b: real)
    requires g.totalDegree != 0.0 && a == Share(g) && b == Penalty(g, resolution, Degree(g, u))
    ensures Bond(g, resolution, c, u, community)
      == Combine(a, Affinity(g, c, u, community), b, Volume(g, c, u, community))
  {
    forall v: nat | v < |g.degrees|
      ensures BondTerm(g, resolution, c, u, community)(v)
        == Combine(a, AffinityTerm(g, c, u, community)(v), b, VolumeTerm(g, c, u, community)(v))
    {
      BondTermSplits(g, resolution, c, u, community, v, a, b);
    }
    SumLinear(|g.degrees|, a, AffinityTerm(g, c, u, community), b, VolumeTerm(g, c, u, community),
              BondTerm(g, resolution, c, u, community));
  }

  lemma BondArithmetic(share: real, resolution: real, degree: real, affinity: real, volume: real)
    ensures Combine(share, affinity, -resolution * degree * share * share, volume)
      == share * (affinity - share * (resolution * degree * volume))
  {
  }

  /** The score is the bond, in units of the total degree. */
  lemma BondIsScore(g: LouvainGraph, resolution: real, c: seq<nat>, u: nat, community: nat)
    requires g.totalDegree != 0.0
    ensures Bond(g, resolution, c, u, community) == Score(g, resolution, c, u, community) / g.totalDegree
  {
    var affinity, volume := Affinity(g, c, u, community), Volume(g, c, u, community);
    BondIsLinear(g, resolution, c, u, community, Share(g), Penalty(g, resolution, Degree(g, u)));
    BondArithmetic(Share(g), resolution, Degree(g, u), affinity, volume);
    DivideIsShare(g, resolution * Degree(g, u) * volume);
    DivideIsShare(g, Score(g, resolution, c, u, community));
  }

  lemma PairSymmetric(g: LouvainGraph, resolution: real, u: nat, v: nat)
    requires g.Valid() && g.totalDegree != 0.0 && u < |g.degrees| && v < |g.degrees|
    ensures Pair(g, resolution, u, v) == Pair(g, resolution, v, u)
  {
    assert W(g, u, v) == W(g, v, u);
  }

  /** A vertex's own row is its bond with its community and the pair with itself. */
  lemma OwnRow(g: LouvainGraph, resolution: real, c: seq<nat>, x: nat)
    requires g.totalDegree != 0.0 && |c| == |g.degrees| && x < |c|
    ensures RowTerm(g, resolution, c)(x) == Bond(g, resolution, c, x, c[x]) + Pair(g, resolution, x, x)
  {
    SumPoint(|c|, BondTerm(g, resolution, c, x, c[x]), PairTerm(g, resolution, c, x), x);
  }

  /** Another vertex's row changes only by the pair with the moved one. */
  lemma OtherRow(g: LouvainGraph, resolution: real, c: seq<nat>, x: nat, b: nat, u: nat)
    requires g.Valid() && g.totalDegree != 0.0 && |c| == |g.degrees| && x < |c| && u < |c| && u != x && b != c[x]
    ensures RowTerm(g, resolution, c[x := b])(u) == RowTerm(g, resolution, c)(u)
      + (BondTerm(g, resolution, c, x, b)(u) - BondTerm(g, resolution, c, x, c[x])(u))
  {
    SumPoint(|c|, PairTerm(g, resolution, c, u), PairTerm(g, resolution, c[x := b], u), x);
    PairSymmetric(g, resolution, u, x);
  }

  /** Members of a community other than `x` do not notice where `x` is. */
  lemma BondIgnoresSelf(g: LouvainGraph, resolution: real, c: seq<nat>, x: nat, b: nat, community: nat)
    requires g.totalDegree != 0.0 && x < |c|
    ensures Bond(g, resolution, c[x := b], x, community) == Bond(g, resolution, c, x, community)
  {
    SumExt(|g.degrees|, BondTerm(g, resolution, c[x := b], x, community), BondTerm(g, resolution, c, x, community));
  }

  /** What each row gains when `x` moves to community `b`. */
  ghost function RowGain(g: LouvainGraph, resolution: real, c: seq<nat>, x: nat, b: nat): nat -> real
    requires g.totalDegree != 0.0 && x < |c|
  {
    (u: nat) => if u == x then Bond(g, resolution, c, x, b) - Bond(g, resolution, c, x, c[x])
                else BondTerm(g, resolution, c, x, b)(u) - BondTerm(g, resolution, c, x, c[x])(u)
  }

  lemma RowGainsSum(g: LouvainGraph, resolution: real, c: seq<nat>, x: nat, b: nat)
    requires g.totalDegree != 0.0 && |c| == |g.degrees| && x < |c|
    ensures Sum(|c|, RowGain(g, resolution, c, x, b))
      == 2.0 * (Bond(g, resolution, c, x, b) - Bond(g, resolution, c, x, c[x]))
  {
    var on, off := BondTerm(g, resolution, c, x, b), BondTerm(g, resolution, c, x, c[x]);
    var change := (u: nat) => on(u) - off(u);
    SumAdd(|c|, change, off, on);
    SumPoint(|c|, change, RowGain(g, resolution, c, x, b), x);
  }

  lemma RowsGain(g: LouvainGraph, resolution: real, c: seq<nat>, x: nat, b: nat, u: nat)
    requires g.Valid() && g.totalDegree != 0.0 && |c| == |g.degrees| && x < |c| && b != c[x] && u < |c|
    ensures RowTerm(g, resolution, c[x := b])(u) == RowTerm(g, resolution, c)(u) + RowGain(g, resolution, c, x, b)(u)
  {
    if u == x {
      OwnRow(g, resolution, c, x);
      OwnRow(g, resolution, c[x := b], x);
      BondIgnoresSelf(g, resolution, c, x, b, b);
    } else {
      OtherRow(g, resolution, c, x, b, u);
    }
  }

  lemma GainArithmetic(m: real, s: real, t: real)
    requires m != 0.0
    ensures 2.0 * (s / m - t / m) == 2.0 / m * (s - t)
  {
    assert s / m - t / m == (s - t) / m;
    assert 2.0 * ((s - t) / m) == (2.0 * (s - t)) / m;
  }

  lemma MoveGainInBonds(g: LouvainGraph, resolution: real, c: seq<nat>, x: nat, b: nat)
    requires g.Valid() && g.totalDegree != 0.0 && |c| == |g.degrees| && x < |c| && b != c[x]
    ensures Modularity(g, resolution, c[x := b]) - Modularity(g, resolution, c)
      == 2.0 * (Bond(g, resolution, c, x, b) - Bond(g, resolution, c, x, c[x]))
  {
    forall u: nat | u < |c|
      ensures RowTerm(g, resolution, c[x := b])(u) == RowTerm(g, resolution, c)(u) + RowGain(g, resolution, c, x, b)(u)
    {
      RowsGain(g, resolution, c, x, b, u);
    }
    SumAdd(|c|, RowTerm(g, resolution, c), RowGain(g, resolution, c, x, b), RowTerm(g, resolution, c[x := b]));
    RowGainsSum(g, resolution, c, x, b);
  }

  /** Moving `x` to community `b` changes modularity by twice the score gain over the total degree. */
  lemma MoveGain(g: LouvainGraph, resolution: real, c: seq<nat>, x: nat, b: nat)
    requires g.Valid() && g.totalDegree != 0.0 && |c| == |g.degrees| && x < |c| && b != c[x]
    ensures Modularity(g, resolution, c[x := b]) - Modularity(g, resolution, c)
      == 2.0 / g.totalDegree * (Score(g, resolution, c, x, b) - Score(g, resolution, c, x, c[x]))
  {
    hide Modularity, Score, Bond;
    MoveGainInBonds(g, resolution, c, x, b);
    BondIsScore(g, resolution, c, x, c[x]);
    BondIsScore(g, resolution, c, x, b);
    GainArithmetic(g.totalDegree, Score(g, resolution, c, x, b), Score(g, resolution, c, x, c[x]));
  }

  // ----- partitions -----

  ghost predicate SamePartition(c: seq<nat>, d: seq<nat>)
  {
    |c| == |d| && forall u: nat, v: nat :: u < |c| && v < |c| ==> (c[u] == c[v] <==> d[u] == d[v])
  }

  /** Modularity depends on which vertices share a community, not on its name. */
  lemma ModularityIgnoresNames(g: LouvainGraph, resolution: real, c: seq<nat>, d: seq<nat>)
    requires g.totalDegree != 0.0 && SamePartition(c, d)
    ensures Modularity(g, resolution, c) == Modularity(g, resolution, d)
  {
    forall u: nat | u < |g.degrees|
      ensures RowTerm(g, resolution, c)(u) == RowTerm(g, resolution, d)(u)
    {
      SumExt(|g.degrees|, PairTerm(g, resolution, c, u), PairTerm(g, resolution, d, u));
    }
    SumExt(|g.degrees|, RowTerm(g, resolution, c), RowTerm(g, resolution, d));
  }

  lemma ScoreIgnoresNames(g: LouvainGraph, resolution: real, c: seq<nat>, d: seq<nat>, u: nat, v: nat)
    requires g.totalDegree != 0.0 && SamePartition(c, d) && v < |c|
    ensures Score(g, resolution, c, u, c[v]) == Score(g, resolution, d, u, d[v])
  {
    SumExt(|g.degrees|, AffinityTerm(g, c, u, c[v]), AffinityTerm(g, d, u, d[v]));
    SumExt(|g.degrees|, VolumeTerm(g, c, u, c[v]), VolumeTerm(g, d, u, d[v]));
  }

  function Singletons(n: nat): (c: seq<nat>)
    ensures |c| == n && forall v :: 0 <= v < n ==> c[v] == v
  {
    seq(n, v requires 0 <= v < n => v)
  }

  /** The degrees of all the members of a community. */
  ghost function TotalTerm(g: LouvainGraph, c: seq<nat>, community: nat): nat -> real
  {
    (v: nat) => if In(c, v, community) then Degree(g, v) else 0.0
  }

  ghost function Total(g: LouvainGraph, c: seq<nat>, community: nat): real
  {
    Sum(|g.degrees|, TotalTerm(g, c, community))
  }

  lemma TotalWithoutSelf(g: LouvainGraph, c: seq<nat>, x: nat, community: nat)
    requires |c| == |g.degrees| && x < |c|
    ensures Volume(g, c, x, community) == Total(g, c, community) - (if c[x] == community then g.degrees[x] else 0.0)
  {
    SumPoint(|c|, VolumeTerm(g, c, x, community), TotalTerm(g, c, community), x);
  }

  lemma TotalAfterMove(g: LouvainGraph, c: seq<nat>, x: nat, b: nat, community: nat)
    requires |c| == |g.degrees| && x < |c|
    ensures Total(g, c[x := b], community) == Volume(g, c, x, community)
      + (if b == community then g.degrees[x] else 0.0)
  {
    SumPoint(|c|, VolumeTerm(g, c, x, community), TotalTerm(g, c[x := b], community), x);
  }

  lemma TotalOfSingleton(g: LouvainGraph, community: nat)
    requires community < |g.degrees|
    ensures Total(g, Singletons(|g.degrees|), community) == g.degrees[community]
  {
    SumOne(|g.degrees|, TotalTerm(g, Singletons(|g.degrees|), community), community);
  }
}
