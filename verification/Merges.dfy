/** What convergence means: merging two communities gains next to nothing. */
module Merges {
  import opened Coarsening
  import opened Louvain
  import opened Modularities
  import opened Sequences
  import opened Sums

  ghost predicate NonNegative(g: LouvainGraph)
  {
    forall u: nat, v: nat :: u < |g.degrees| && v < |g.degrees| ==> W(g, u, v) >= 0.0
  }

  /** The partition in which community `a` has joined `b`. */
  function Merged(c: seq<nat>, a: nat, b: nat): (d: seq<nat>)
    ensures |d| == |c| && forall u :: 0 <= u < |c| ==> d[u] == if c[u] == a then b else c[u]
  {
    seq(|c|, u requires 0 <= u < |c| => if c[u] == a then b else c[u])
  }

  ghost predicate GainsLittle(g: LouvainGraph, p: Parameters, c: seq<nat>, a: nat, b: nat)
    requires g.totalDegree != 0.0
  {
    Modularity(g, p.resolution, Merged(c, a, b)) <= Modularity(g, p.resolution, c) + 2.0 * p.tolerance
  }

  /** No two of the communities can be merged for more than twice the tolerance. */
  ghost predicate MergesGainLittle(g: LouvainGraph, p: Parameters, c: seq<nat>, count: nat)
    requires g.totalDegree != 0.0
  {
    forall a: nat, b: nat :: a < count && b < count && a != b ==> GainsLittle(g, p, c, a, b)
  }

  lemma {:induction false} SumNonNegative(n: nat, f: nat -> real)
    requires forall i: nat :: i < n ==> f(i) >= 0.0
    ensures forall i: nat :: i < n ==> 0.0 <= f(i) <= Sum(n, f)
    ensures Sum(n, f) >= 0.0
  {
    if n > 0 {
      SumNonNegative(n - 1, f);
    }
  }

  lemma DegreeNonNegative(g: LouvainGraph, u: nat)
    requires g.Valid() && NonNegative(g)
    ensures Degree(g, u) >= 0.0
    ensures u < |g.degrees| ==> forall v: nat :: v < |g.degrees| ==> W(g, u, v) <= Degree(g, u)
  {
    if u < |g.degrees| {
      SumNonNegative(|g.degrees|, WeightTerm(g, u));
      assert forall v: nat :: v < |g.degrees| ==> WeightTerm(g, u)(v) == W(g, u, v);
    }
  }

  /** Weight between two vertices stands in some slot. */
  lemma {:induction false} WeightHasSlot(g: LouvainGraph, lo: nat, hi: nat, v: nat) returns (slot: nat)
    requires g.Shaped() && hi <= |g.neighbors| && SlotsTo(g, lo, hi, v) != 0.0
    ensures lo <= slot < hi && g.neighbors[slot] == v
    decreases hi
  {
    if g.neighbors[hi - 1] == v {
      slot := hi - 1;
    } else {
      slot := WeightHasSlot(g, lo, hi - 1, v);
    }
  }

  /** A vertex alone in its community shares nothing with it. */
  lemma AloneScoresNothing(g: LouvainGraph, resolution: real, c: seq<nat>, x: nat)
    requires g.totalDegree != 0.0 && |c| == |g.degrees| && x < |c| && Distinct(c)
    ensures Score(g, resolution, c, x, c[x]) == 0.0
  {
    SumZero(|g.degrees|, AffinityTerm(g, c, x, c[x]));
    SumZero(|g.degrees|, VolumeTerm(g, c, x, c[x]));
  }

  /** A vertex that has no edge into a community of one other vertex gains nothing there. */
  lemma StrangerScoresNothing(g: LouvainGraph, resolution: real, c: seq<nat>, x: nat, y: nat)
    requires g.Valid() && NonNegative(g) && g.totalDegree != 0.0 && resolution > 0.0
    requires |c| == |g.degrees| && x < |c| && y < |c| && x != y && Distinct(c) && W(g, x, y) == 0.0
    ensures Score(g, resolution, c, x, c[y]) <= 0.0
  {
    forall v: nat | v < |c|
      ensures AffinityTerm(g, c, x, c[y])(v) == 0.0 && VolumeTerm(g, c, x, c[y])(v) >= 0.0
    {
      DegreeNonNegative(g, v);
      assert v != y ==> c[v] != c[y];
    }
    SumZero(|g.degrees|, AffinityTerm(g, c, x, c[y]));
    SumNonNegative(|g.degrees|, VolumeTerm(g, c, x, c[y]));
    DegreeNonNegative(g, x);
    PenaltyIsNonNegative(resolution, Degree(g, x), Volume(g, c, x, c[y]), g.totalDegree);
  }

  lemma PenaltyIsNonNegative(resolution: real, degree: real, volume: real, total: real)
    requires resolution > 0.0 && degree >= 0.0 && volume >= 0.0 && total > 0.0
    ensures resolution * degree * volume / total >= 0.0
  {
    assert resolution * degree >= 0.0;
    assert resolution * degree * volume >= 0.0;
  }

  /** A vertex alone in its community and settled there gains little in any other community of one vertex. */
  lemma SettledScore(g: LouvainGraph, p: Parameters, c: seq<nat>, x: nat, y: nat)
    requires g.Valid() && NonNegative(g) && g.totalDegree != 0.0 && p.Valid()
    requires |c| == |g.degrees| && x < |c| && y < |c| && x != y && Distinct(c)
    requires g.degrees[x] != 0.0 ==> Settled(g, p, c, x)
    ensures Score(g, p.resolution, c, x, c[y]) <= Score(g, p.resolution, c, x, c[x]) + p.tolerance * g.totalDegree
  {
    if W(g, x, y) == 0.0 {
      AloneScoresNothing(g, p.resolution, c, x);
      StrangerScoresNothing(g, p.resolution, c, x, y);
      assert p.tolerance * g.totalDegree >= 0.0;
    } else {
      DegreeNonNegative(g, x);
      var slot := WeightHasSlot(g, g.offsets[x], g.offsets[x + 1], y);
    }
  }

  lemma LittleScoreIsLittleGain(m: real, tolerance: real, gain: real)
    requires m > 0.0 && gain <= tolerance * m
    ensures 2.0 / m * gain <= 2.0 * tolerance
  {
    var r, rest := 2.0 / m, tolerance * m - gain;
    assert r > 0.0 && r * m == 2.0;
    assert r * rest >= 0.0;
    assert r * gain == tolerance * (r * m) - r * rest;
  }

  /** Where every vertex is a community of its own and settled, no merge gains more than twice the tolerance. */
  lemma SettledMergesGainLittle(g: LouvainGraph, p: Parameters, c: seq<nat>, count: nat)
    requires g.Valid() && NonNegative(g) && g.totalDegree != 0.0 && p.Valid()
    requires |c| == |g.degrees| == count && Compact(c, count)
    requires forall x: nat :: x < |c| && g.degrees[x] != 0.0 ==> Settled(g, p, c, x)
    ensures MergesGainLittle(g, p, c, count)
  {
    AllNamesOnce(c, count);
    hide NonNegative, Settled, Modularity;
    forall a: nat, b: nat | a < count && b < count && a != b
      ensures GainsLittle(g, p, c, a, b)
    {
      assert a in c && b in c;
      var x: nat :| x < |c| && c[x] == a;
      var y: nat :| y < |c| && c[y] == b;
      assert Merged(c, a, b) == c[x := b];
      MoveGainsLittle(g, p, c, x, y);
    }
  }

  lemma MoveGainsLittle(g: LouvainGraph, p: Parameters, c: seq<nat>, x: nat, y: nat)
    requires g.Valid() && NonNegative(g) && g.totalDegree != 0.0 && p.Valid()
    requires |c| == |g.degrees| && x < |c| && y < |c| && x != y && Distinct(c)
    requires g.degrees[x] != 0.0 ==> Settled(g, p, c, x)
    ensures Modularity(g, p.resolution, c[x := c[y]]) <= Modularity(g, p.resolution, c) + 2.0 * p.tolerance
  {
    hide Modularity, Score, Settled, NonNegative;
    SettledScore(g, p, c, x, y);
    MoveGain(g, p.resolution, c, x, c[y]);
    LittleScoreIsLittleGain(g.totalDegree, p.tolerance,
                            Score(g, p.resolution, c, x, c[y]) - Score(g, p.resolution, c, x, c[x]));
  }

  /** As many names as vertices leave one vertex to each. */
  lemma AllNamesOnce(c: seq<nat>, count: nat)
    requires |c| == count && Compact(c, count)
    ensures Distinct(c)
  {
    assert Elements(c) == NamesBelow(count);
    SizeMeansDistinct(c);
  }

  ghost function NamesBelow(n: nat): (names: set<nat>)
    ensures |names| == n && forall k: nat :: k in names <==> k < n
  {
    if n == 0 then {} else NamesBelow(n - 1) + {n - 1}
  }

  lemma {:induction false} SizeMeansDistinct(s: seq<nat>)
    ensures |Elements(s)| <= |s| && (|Elements(s)| == |s| ==> Distinct(s))
  {
    if |s| > 0 {
      var init, last := s[..|s| - 1], s[|s| - 1];
      SizeMeansDistinct(init);
      assert s == init + [last];
      assert Elements(s) == Elements(init) + {last};
      if |Elements(s)| == |s| {
        assert last !in Elements(init);
      }
    }
  }

  /** Contraction keeps weights nonnegative. */
  lemma ContractedNonNegative(coarse: LouvainGraph, g: LouvainGraph, c: seq<nat>, k: nat)
    requires NonNegative(g) && Partitions(c, g, k) && Contracts(coarse, g, c, k)
    ensures NonNegative(coarse)
  {
    forall a: nat, b: nat | a < k && b < k
      ensures W(coarse, a, b) >= 0.0
    {
      forall u: nat | u < |g.degrees|
        ensures BlockTerm(g, c, a, b)(u) >= 0.0
      {
        SumNonNegative(|g.degrees|, IntoTerm(g, c, u, b));
      }
      SumNonNegative(|g.degrees|, BlockTerm(g, c, a, b));
    }
  }
}
