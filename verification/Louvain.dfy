/** Louvain community detection: local moves, coarsening, and levels of both, in exact arithmetic. */
module Louvain {
  import opened Modularities

  datatype Parameters = Parameters(resolution: real, tolerance: real, maxIterations: nat, maxLevels: nat)
  {
    predicate Valid()
    {
      resolution > 0.0 && tolerance >= 0.0 && maxIterations > 0 && maxLevels > 0
    }
  }

  datatype MoveResult = MoveResult(communities: seq<nat>, communityCount: nat, iterations: nat, converged: bool)

  /** One more than the largest epoch that a marker can hold. */
  const EPOCHS: nat := 0x1_0000_0000_0000_0000

  ghost predicate Labels(c: seq<nat>, n: nat, bound: nat)
  {
    |c| == n && forall v :: 0 <= v < n ==> c[v] < bound
  }

  /** The weight of the slots from `lo` to `hi` that lead from `x` to the rest of a community. */
  ghost function Reached(g: LouvainGraph, c: seq<nat>, x: nat, lo: nat, hi: nat, community: nat): real
    requires g.Shaped() && hi <= |g.neighbors|
  {
    SlotSum(g, lo, hi, (v: nat) => v != x && In(c, v, community))
  }

  /** The communities touched so far carry the current epoch and their affinities. */
  ghost predicate Gathered(g: LouvainGraph, c: seq<nat>, x: nat, hi: nat, markers: seq<nat>, affinities: seq<real>,
                           epoch: nat,
                           candidates: seq<nat>)
    requires g.Shaped() && x < |g.degrees| && |c| == |g.degrees|
  {
    && |markers| == |affinities| == |c| && hi <= |g.neighbors|
    && (forall k :: 0 <= k < |c| ==> markers[k] <= epoch && (markers[k] == epoch <==> k in candidates))
    && (forall k :: k in candidates ==> k < |c| && affinities[k] == Reached(g, c, x, g.offsets[x], hi, k))
    && (forall k: nat :: k < |c| && k !in candidates ==> Reached(g, c, x, g.offsets[x], hi, k) == 0.0)
    && |candidates| > 0 && candidates[0] == c[x] && (forall i :: 0 < i < |candidates| ==> candidates[i] != c[x])
    && (forall slot :: g.offsets[x] <= slot < hi && g.neighbors[slot] != x ==> c[g.neighbors[slot]] in candidates)
  }

  /** Adds up a vertex's edges by the community they lead to. */
  method GatherAffinities(g: LouvainGraph, c: seq<nat>, x: nat, oldMarkers: seq<nat>, oldAffinities: seq<real>,
                          epoch: nat)
    returns (markers: seq<nat>, affinities: seq<real>, candidates: seq<nat>)
    requires g.Shaped() && x < |g.degrees| && Labels(c, |g.degrees|, |g.degrees|)
    requires |oldMarkers| == |oldAffinities| == |c| && forall k :: 0 <= k < |c| ==> oldMarkers[k] < epoch
    ensures Gathered(g, c, x, g.offsets[x + 1], markers, affinities, epoch, candidates)
  {
    markers, affinities, candidates := oldMarkers, oldAffinities, [];
    markers, affinities, candidates := markers[c[x] := epoch], affinities[c[x] := 0.0], candidates + [c[x]];
    for slot := g.offsets[x] to g.offsets[x + 1]
      invariant Gathered(g, c, x, slot, markers, affinities, epoch, candidates)
    {
      var neighbor := g.neighbors[slot];
      if neighbor == x {
        continue;
      }
      var community := c[neighbor];
      if markers[community] != epoch {
        markers, affinities, candidates := markers[community := epoch], affinities[community := 0.0],
            candidates + [community];
      }
      affinities := affinities[community := affinities[community] + g.EdgeWeight(slot)];
    }
  }

  function Fit(affinity: real, degree: real, total: real, resolution: real, totalDegree: real): real
    requires totalDegree != 0.0
  {
    affinity - resolution * degree * total / totalDegree
  }

  function Abs(x: real): real
  {
    if x < 0.0 then -x else x
  }

  /** The best community among the candidates; close to a tie the smaller label wins. */
  method ChooseCommunity(g: LouvainGraph, p: Parameters, c: seq<nat>, x: nat, totals: seq<real>, affinities: seq<real>,
                         candidates: seq<nat>, minimumGain: real)
    returns (best: nat)
    requires p.Valid() && g.totalDegree != 0.0 && x < |g.degrees| && Labels(c, |g.degrees|, |g.degrees|)
    requires |totals| == |affinities| == |c| && c[x] in candidates && minimumGain >= 0.0
    requires forall k :: k in candidates ==> k < |c|
    requires forall k :: k in candidates ==>
      Fit(affinities[k], g.degrees[x], totals[k], p.resolution, g.totalDegree) == Score(g, p.resolution, c, x, k)
    requires forall i :: 0 < i < |candidates| ==> candidates[i] != c[x]
    ensures best in candidates
    ensures best != c[x] ==> Score(g, p.resolution, c, x, best) > Score(g, p.resolution, c, x, c[x]) + minimumGain
    ensures best == c[x] ==>
      forall k :: k in candidates ==>
          Score(g, p.resolution, c, x, k) <= Score(g, p.resolution, c, x, c[x]) + minimumGain
    ensures minimumGain == 0.0 ==> forall k :: k in candidates ==>
      && Score(g, p.resolution, c, x, k) <= Score(g, p.resolution, c, x, best)
      && (best != c[x] && Score(g, p.resolution, c, x, k) == Score(g, p.resolution, c, x, best) ==> best <= k)
  {
    var current := c[x];
    best := current;
    var currentScore := Fit(affinities[current], g.degrees[x], totals[current], p.resolution, g.totalDegree);
    var bestScore := currentScore;
    for i := 0 to |candidates|
      invariant best in candidates && bestScore == Score(g, p.resolution, c, x, best)
      invariant best != current ==> bestScore > currentScore + minimumGain
      invariant best == current ==> forall j :: 0 <= j < i ==>
        Score(g, p.resolution, c, x, candidates[j]) <= currentScore + minimumGain
      invariant minimumGain == 0.0 ==> forall j :: 0 <= j < i ==>
        && Score(g, p.resolution, c, x, candidates[j]) <= bestScore
        && (best != current && Score(g, p.resolution, c, x, candidates[j]) == bestScore ==> best <= candidates[j])
    {
      var community := candidates[i];
      assert community in candidates;
      var score := Fit(affinities[community], g.degrees[x], totals[community], p.resolution, g.totalDegree);
      if score > bestScore + minimumGain ||
         (score > currentScore + minimumGain && Abs(score - bestScore) <= minimumGain && community < best) {
        best, bestScore := community, score;
      }
    }
  }

  /** No neighbouring community fits a vertex better than its own by more than the tolerance. */
  ghost predicate Settled(g: LouvainGraph, p: Parameters, c: seq<nat>, x: nat)
    requires g.Shaped() && x < |g.degrees| && |c| == |g.degrees| && g.totalDegree != 0.0
  {
    forall slot :: g.offsets[x] <= slot < g.offsets[x + 1] && g.neighbors[slot] != x ==>
      Score(g, p.resolution, c, x, c[g.neighbors[slot]]) <= Score(g, p.resolution, c, x, c[x])
      + p.tolerance * g.totalDegree
  }

  ghost predicate TotalsOf(g: LouvainGraph, c: seq<nat>, totals: seq<real>)
  {
    |totals| == |c| && forall k: nat :: k < |c| ==> totals[k] == Total(g, c, k)
  }

  /** The totals while a vertex is taken out of its community. */
  function Without(g: LouvainGraph, c: seq<nat>, totals: seq<real>, x: nat): seq<real>
    requires x < |c| && x < |g.degrees| && c[x] < |totals|
  {
    totals[c[x] := totals[c[x]] - g.degrees[x]]
  }

  lemma GatheredScore(g: LouvainGraph, p: Parameters, c: seq<nat>, x: nat, affinity: real, total: real, k: nat)
    requires g.Valid() && g.totalDegree != 0.0 && x < |g.degrees| && Labels(c, |g.degrees|, |g.degrees|)
    requires g.offsets[x + 1] <= |g.neighbors| && affinity == Reached(g, c, x, g.offsets[x], g.offsets[x + 1], k)
    requires total == Total(g, c, k) - (if c[x] == k then g.degrees[x] else 0.0)
    ensures Fit(affinity, g.degrees[x], total, p.resolution, g.totalDegree) == Score(g, p.resolution, c, x, k)
  {
    RowByNeighbor(g, x, (v: nat) => v != x && In(c, v, k), AffinityTerm(g, c, x, k));
    TotalWithoutSelf(g, c, x, k);
  }

  /** Takes a vertex out of its community and finds the best one for it. */
  method BestCommunity(g: LouvainGraph, p: Parameters, c: seq<nat>, totals: seq<real>, markers: seq<nat>,
                       affinities: seq<real>,
                       epoch: nat, x: nat)
    returns (best: nat, markers': seq<nat>, affinities': seq<real>)
    requires g.Valid() && p.Valid() && g.totalDegree > 0.0 && x < |g.degrees| && Labels(c, |g.degrees|, |g.degrees|)
    requires TotalsOf(g, c, totals) && |markers| == |affinities| == |c| && forall k :: 0 <= k < |c| ==>
      markers[k] < epoch
    ensures |markers'| == |affinities'| == |c| && (forall k :: 0 <= k < |c| ==> markers'[k] <= epoch)
    ensures best < |c|
    ensures best == c[x] ==> Settled(g, p, c, x)
    ensures best != c[x] ==>
      Score(g, p.resolution, c, x, best) > Score(g, p.resolution, c, x, c[x]) + p.tolerance * g.totalDegree
  {
    var candidates;
    markers', affinities', candidates := GatherAffinities(g, c, x, markers, affinities, epoch);
    var removed := Without(g, c, totals, x);
    forall k | k in candidates
      ensures Fit(affinities'[k], g.degrees[x], removed[k], p.resolution, g.totalDegree)
        == Score(g, p.resolution, c, x, k)
    {
      GatheredScore(g, p, c, x, affinities'[k], removed[k], k);
    }
    assert candidates[0] in candidates;
    assert p.tolerance * g.totalDegree >= 0.0;
    best := ChooseCommunity(g, p, c, x, removed, affinities', candidates, p.tolerance * g.totalDegree);
  }

  /** Considers one vertex: it stays, or moves to a better community. */
  method Consider(g: LouvainGraph, p: Parameters, c: seq<nat>, totals: seq<real>, markers: seq<nat>,
                  affinities: seq<real>,
                  epoch: nat, x: nat)
    returns (c': seq<nat>, totals': seq<real>, markers': seq<nat>, affinities': seq<real>)
    requires g.Valid() && p.Valid() && g.totalDegree > 0.0 && x < |g.degrees| && Labels(c, |g.degrees|, |g.degrees|)
    requires TotalsOf(g, c, totals) && |markers| == |affinities| == |c| && forall k :: 0 <= k < |c| ==>
      markers[k] < epoch
    ensures Labels(c', |c|, |c|) && TotalsOf(g, c', totals')
    ensures |markers'| == |affinities'| == |c| && forall k :: 0 <= k < |c| ==> markers'[k] <= epoch
    ensures c' == c[x := c'[x]]
    ensures c' == c ==> Settled(g, p, c, x)
    ensures c' != c ==> Modularity(g, p.resolution, c') > Modularity(g, p.resolution, c) + 2.0 * p.tolerance
  {
    var best;
    best, markers', affinities' := BestCommunity(g, p, c, totals, markers, affinities, epoch, x);
    var removed := Without(g, c, totals, x);
    c', totals' := c[x := best], removed[best := removed[best] + g.degrees[x]];
    TotalsAfterMove(g, c, totals, x, best);
    if best != c[x] {
      MoveRaises(g, p, c, x, best);
    }
  }

  lemma TotalsAfterMove(g: LouvainGraph, c: seq<nat>, totals: seq<real>, x: nat, best: nat)
    requires x < |g.degrees| && Labels(c, |g.degrees|, |g.degrees|) && TotalsOf(g, c, totals) && best < |c|
    ensures var removed := Without(g, c, totals, x);
      TotalsOf(g, c[x := best], removed[best := removed[best] + g.degrees[x]])
  {
    forall k: nat | k < |c|
      ensures Without(g, c, totals, x)[k] + (if best == k then g.degrees[x] else 0.0) == Total(g, c[x := best], k)
    {
      TotalWithoutSelf(g, c, x, k);
      TotalAfterMove(g, c, x, best, k);
    }
  }

  /** Every move raises modularity by more than twice the tolerance. */
  lemma MoveRaises(g: LouvainGraph, p: Parameters, c: seq<nat>, x: nat, best: nat)
    requires g.Valid() && g.totalDegree > 0.0 && |c| == |g.degrees| && x < |c| && best != c[x]
    requires Score(g, p.resolution, c, x, best) > Score(g, p.resolution, c, x, c[x]) + p.tolerance * g.totalDegree
    ensures Modularity(g, p.resolution, c[x := best]) > Modularity(g, p.resolution, c) + 2.0 * p.tolerance
  {
    hide Modularity, Score;
    MoveGain(g, p.resolution, c, x, best);
    GainExceeds(g.totalDegree, p.tolerance, Score(g, p.resolution, c, x, best) - Score(g, p.resolution, c, x, c[x]));
  }

  lemma GainExceeds(m: real, tolerance: real, gain: real)
    requires m > 0.0 && gain > tolerance * m
    ensures 2.0 / m * gain > 2.0 * tolerance
  {
    var r, excess := 2.0 / m, gain - tolerance * m;
    assert r > 0.0 && r * m == 2.0;
    assert r * excess > 0.0;
    assert r * gain == r * excess + tolerance * (r * m);
  }

  /** The working state of a local move: totals follow the labels, and no marker is ahead of the epoch. */
  ghost predicate Working(g: LouvainGraph, c: seq<nat>, totals: seq<real>, markers: seq<nat>, affinities: seq<real>,
                          epoch: nat)
  {
    && Labels(c, |g.degrees|, |g.degrees|) && TotalsOf(g, c, totals)
    && |markers| == |affinities| == |c| && epoch < EPOCHS && forall k :: 0 <= k < |c| ==> markers[k] <= epoch
  }

  /** One vertex of a pass: the epoch advances, and the markers restart when it wraps around. */
  method Visit(g: LouvainGraph, p: Parameters, c0: seq<nat>, totals0: seq<real>, markers0: seq<nat>,
               affinities0: seq<real>,
               epoch0: nat, vertex: nat)
    returns (c: seq<nat>, totals: seq<real>, markers: seq<nat>, affinities: seq<real>, epoch: nat)
    requires g.Valid() && p.Valid() && g.totalDegree > 0.0 && vertex < |g.degrees|
    requires Working(g, c0, totals0, markers0, affinities0, epoch0)
    ensures Working(g, c, totals, markers, affinities, epoch)
    ensures c == c0 && g.degrees[vertex] != 0.0 ==> Settled(g, p, c, vertex)
    ensures c != c0 ==> Modularity(g, p.resolution, c) > Modularity(g, p.resolution, c0) + 2.0 * p.tolerance
  {
    c, totals, markers, affinities, epoch := c0, totals0, markers0, affinities0, epoch0;
    if g.degrees[vertex] != 0.0 {
      epoch := (epoch + 1) % EPOCHS;
      if epoch == 0 {
        markers, epoch := seq(|markers|, _ => 0), 1;
      }
      c, totals, markers, affinities := Consider(g, p, c, totals, markers, affinities, epoch, vertex);
    }
  }

  /** One pass over the vertices. */
  method Sweep(g: LouvainGraph, p: Parameters, c0: seq<nat>, totals0: seq<real>, markers0: seq<nat>,
               affinities0: seq<real>, epoch0: nat)
    returns (c: seq<nat>, totals: seq<real>, markers: seq<nat>, affinities: seq<real>, epoch: nat, moved: bool,
             ghost moves: nat)
    requires g.Valid() && p.Valid() && g.totalDegree > 0.0 && Working(g, c0, totals0, markers0, affinities0, epoch0)
    ensures Working(g, c, totals, markers, affinities, epoch)
    ensures moved <==> moves > 0
    ensures moved ==> Modularity(g, p.resolution, c) > Modularity(g, p.resolution, c0) + Gains(p.tolerance, moves)
    ensures !moved ==> c == c0 && forall x: nat :: x < |c| && g.degrees[x] != 0.0 ==> Settled(g, p, c, x)
  {
    c, totals, markers, affinities, epoch, moved, moves := c0, totals0, markers0, affinities0, epoch0, false, 0;
    for vertex := 0 to |g.degrees|
      invariant Working(g, c, totals, markers, affinities, epoch)
      invariant moved <==> moves > 0
      invariant moved ==> Modularity(g, p.resolution, c) > Modularity(g, p.resolution, c0) + Gains(p.tolerance, moves)
      invariant !moved ==> c == c0 && forall x: nat :: x < vertex && g.degrees[x] != 0.0 ==> Settled(g, p, c, x)
    {
      var before := c;
      c, totals, markers, affinities, epoch := Visit(g, p, c, totals, markers, affinities, epoch, vertex);
      if c != before {
        GainsAdd(p.tolerance, moves, 1);
        moved, moves := true, moves + 1;
      }
    }
  }

  /** What a number of moves adds to modularity at least. */
  function Gains(tolerance: real, moves: nat): real
  {
    2.0 * tolerance * moves as real
  }

  lemma GainsAdd(tolerance: real, moves: nat, more: nat)
    ensures Gains(tolerance, 1) == 2.0 * tolerance
    ensures Gains(tolerance, moves + more) == Gains(tolerance, moves) + Gains(tolerance, more)
  {
  }

  /** Labels run from zero, and each is used. */
  ghost predicate Compact(c: seq<nat>, count: nat)
  {
    && (forall v :: 0 <= v < |c| ==> c[v] < count)
    && (forall k :: 0 <= k < count ==> k in c)
  }

  /** Renames the communities in order of first appearance. */
  method CompactLabels(c: seq<nat>, n: nat) returns (d: seq<nat>, count: nat)
    requires Labels(c, |c|, n)
    ensures SamePartition(c, d) && Compact(d, count)
    ensures forall v: nat, k: nat :: v < |d| && k < d[v] ==> k in d[..v]
  {
    var names: seq<int> := seq(n, _ => -1);
    d, count := [], 0;
    for vertex := 0 to |c|
      invariant |names| == n && |d| == vertex
      invariant forall k :: 0 <= k < n ==> -1 <= names[k] < count
      invariant forall j, k :: 0 <= j < n && 0 <= k < n && names[j] == names[k] && names[j] >= 0 ==> j == k
      invariant forall v :: 0 <= v < vertex ==> d[v] == names[c[v]]
      invariant Compact(d, count)
      invariant forall v: nat, k: nat :: v < vertex && k < d[v] ==> k in d[..v]
    {
      var community := c[vertex];
      if names[community] == -1 {
        names, count := names[community := count], count + 1;
      }
      assert names[community] in d + [names[community]];
      ghost var before := d;
      d := d + [names[community]];
      assert forall v :: 0 <= v <= vertex ==> d[..v] == before[..v];
      assert before[..vertex] == before;
    }
  }

  /** No vertex of positive degree would leave the partition into single vertices. */
  ghost predicate SinglesSettled(g: LouvainGraph, p: Parameters)
    requires g.Shaped() && g.totalDegree != 0.0
  {
    forall x: nat :: x < |g.degrees| && g.degrees[x] != 0.0 ==> Settled(g, p, Singletons(|g.degrees|), x)
  }

  /** Moves single vertices while that raises modularity: until a pass moves none, or the limit.  Every
      pass before makes a move, and some vertex moves at all when single vertices are not settled. */
  method LouvainLocalMove(g: LouvainGraph, p: Parameters) returns (r: MoveResult, ghost moves: nat)
    requires g.Valid() && p.Valid()
    ensures |r.communities| == |g.degrees| && Compact(r.communities, r.communityCount)
    ensures g.totalDegree == 0.0 ==>
      r.communities == Singletons(|g.degrees|) && r.converged && r.iterations == if |g.degrees| == 0 then 0 else 1
    ensures g.totalDegree != 0.0 ==> 1 <= r.iterations <= p.maxIterations
    ensures !r.converged ==> r.iterations == p.maxIterations
    ensures g.totalDegree != 0.0 ==> moves >= r.iterations - (if r.converged then 1 else 0)
    ensures g.totalDegree != 0.0 && !SinglesSettled(g, p) ==> moves > 0
    ensures g.totalDegree != 0.0 ==>
      var before := Modularity(g, p.resolution, Singletons(|g.degrees|));
      var after := Modularity(g, p.resolution, r.communities);
      if moves == 0 then SamePartition(Singletons(|g.degrees|), r.communities) && after == before
      else after > before + Gains(p.tolerance, moves)
    ensures g.totalDegree != 0.0 && r.converged ==>
      forall x: nat :: x < |g.degrees| && g.degrees[x] != 0.0 ==> Settled(g, p, r.communities, x)
  {
    var n := |g.degrees|;
    moves := 0;
    var c, totals := Singletons(n), g.degrees;
    if n == 0 || g.totalDegree == 0.0 {
      forall k: nat | k < n
        ensures k in c
      {
        assert c[k] == k;
      }
      r := MoveResult(c, n, if n == 0 then 0 else 1, true);
      assert g.totalDegree == 0.0;
      return;
    }
    forall k: nat | k < n
      ensures totals[k] == Total(g, c, k)
    {
      TotalOfSingleton(g, k);
    }
    var markers: seq<nat>, affinities: seq<real>, epoch: nat := seq(n, _ => 0), seq(n, _ => 0.0), 0;
    var iterations, converged := 0, false;
    while iterations < p.maxIterations && !converged
      invariant iterations <= p.maxIterations && (converged ==> iterations > 0)
      invariant moves >= iterations - (if converged then 1 else 0)
      invariant Working(g, c, totals, markers, affinities, epoch)
      invariant moves == 0 ==> c == Singletons(n)
      invariant moves > 0 ==>
        Modularity(g, p.resolution, c) > Modularity(g, p.resolution, Singletons(n)) + Gains(p.tolerance, moves)
      invariant converged ==> forall x: nat :: x < n && g.degrees[x] != 0.0 ==> Settled(g, p, c, x)
    {
      var moved;
      ghost var more;
      c, totals, markers, affinities, epoch, moved, more := Sweep(g, p, c, totals, markers, affinities, epoch);
      GainsAdd(p.tolerance, moves, more);
      moves := moves + more;
      iterations := iterations + 1;
      converged := !moved;
    }
    var d, count := CompactLabels(c, n);
    ModularityIgnoresNames(g, p.resolution, c, d);
    forall x: nat | x < n && Settled(g, p, c, x)
      ensures Settled(g, p, d, x)
    {
      SettledIgnoresNames(g, p, c, d, x);
    }
    r := MoveResult(d, count, iterations, converged);
  }

  lemma SettledIgnoresNames(g: LouvainGraph, p: Parameters, c: seq<nat>, d: seq<nat>, x: nat)
    requires g.Shaped() && x < |g.degrees| && |c| == |g.degrees| && g.totalDegree != 0.0
    requires SamePartition(c, d) && Settled(g, p, c, x)
    ensures Settled(g, p, d, x)
  {
    ScoreIgnoresNames(g, p.resolution, c, d, x, x);
    forall slot | g.offsets[x] <= slot < g.offsets[x + 1] && g.neighbors[slot] != x
      ensures Score(g, p.resolution, d, x, d[g.neighbors[slot]]) <= Score(g, p.resolution, d, x, d[x])
        + p.tolerance * g.totalDegree
    {
      ScoreIgnoresNames(g, p.resolution, c, d, x, g.neighbors[slot]);
    }
  }
}
