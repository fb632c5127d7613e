/** When a search for distances overflows: the exact condition over the costs of routes. */
module DistanceLimits {
  import opened Distances
  import opened Sequences

  datatype Target = NoTarget | Target(vertex: nat)

  /** Some run that has not come to its target settles a vertex and passes the largest number there. */
  ghost predicate RunOverflows(g: WeightedRows, n: nat, start: nat, limit: real, target: Target)
    requires GraphOk(g, n)
  {
    exists run, v: nat :: IsRun(g, n, start, limit, run) && EndsInOverflow(g, n, start, limit, target, run, v)
  }

  ghost predicate EndsInOverflow(g: WeightedRows, n: nat, start: nat, limit: real, target: Target, run: Run, v: nat)
    requires GraphOk(g, n)
  {
    && Settling(run) && Inv(g, n, start, run.states[|run.popped|]) && run.states[|run.popped|].IsNext(v)
    && Round(g, n, start, run.states[|run.popped|], v, limit) == Overflow
    && forall u: nat :: u in run.popped + [v] ==> target != Target(u)
  }

  // ----- one round -----

  /** Relaxing a row overflows exactly when one of its edges does, whatever was relaxed before it. */
  lemma {:induction false} RelaxAllOverflows(l: Labels, v: nat, edges: seq<WeightedEdge>, limit: real)
    requires CanRelax(l, v, edges)
    ensures RelaxAll(l, v, edges, limit).Overflow? <==>
      exists i: nat :: i < |edges| && Overflows(l, v, edges[i], limit)
    decreases |edges|
  {
    if |edges| > 0 {
      var init := edges[..|edges| - 1];
      RelaxAllOverflows(l, v, init, limit);
      if i: nat :| i < |edges| && Overflows(l, v, edges[i], limit) {
        assert i < |init| ==> init[i] == edges[i];
      }
      if i: nat :| i < |init| && Overflows(l, v, init[i], limit) {
        assert edges[i] == init[i];
      }
    }
  }

  /** An edge out of `v` over which a distance passes the limit, into a vertex not yet settled. */
  ghost predicate PassesLimit(g: WeightedRows, start: nat, limit: real, popped: seq<nat>, v: nat, e: WeightedEdge)
  {
    e in g(v) && e.neighbor != v && e.neighbor !in popped && IsHeavyStep(g, start, limit, v, e)
  }

  /** The distance of `v` and the weight of the edge are together above the limit. */
  ghost predicate IsHeavyStep(g: WeightedRows, start: nat, limit: real, v: nat, e: WeightedEdge)
  {
    exists d :: AtDistance(g, start, v, d) && IsAbove(d, e, limit)
  }

  predicate IsAbove(d: real, e: WeightedEdge, limit: real)
  {
    d + e.weight > limit
  }

  lemma DistanceIsUnique(g: WeightedRows, start: nat, v: nat, d: real, e: real)
    requires AtDistance(g, start, v, d) && AtDistance(g, start, v, e)
    ensures d == e
  {
  }

  lemma RoundOverflowsIff(g: WeightedRows, n: nat, start: nat, limit: real, run: Run, v: nat)
    requires GraphOk(g, n) && IsRun(g, n, start, limit, run) && Settling(run) && run.states[|run.popped|].IsNext(v)
    ensures Inv(g, n, start, run.states[|run.popped|])
    ensures Round(g, n, start, run.states[|run.popped|], v, limit) == Overflow <==>
      exists e :: PassesLimit(g, start, limit, run.popped, v, e)
  {
    var l := run.states[|run.popped|];
    RunKeepsInvariant(g, n, start, limit, run, |run.popped|);
    NextIsNearest(g, n, start, l, v);
    CanRelaxSettled(g, n, start, l, v);
    RelaxAllOverflows(Settle(l, v), v, g(v), limit);
    forall i: nat | i < |g(v)|
      ensures Overflows(Settle(l, v), v, g(v)[i], limit) <==> PassesLimit(g, start, limit, run.popped, v, g(v)[i])
    {
      EdgeOverflowsIff(g, n, start, limit, run, v, g(v)[i]);
    }
    if e :| PassesLimit(g, start, limit, run.popped, v, e) {
      var i: nat :| i < |g(v)| && g(v)[i] == e;
      assert Overflows(Settle(l, v), v, g(v)[i], limit);
    }
  }

  lemma EdgeOverflowsIff(g: WeightedRows, n: nat, start: nat, limit: real, run: Run, v: nat, e: WeightedEdge)
    requires GraphOk(g, n) && IsRun(g, n, start, limit, run) && Settling(run) && run.states[|run.popped|].IsNext(v)
    requires e in g(v) && e.neighbor < n && run.states[|run.popped|].Sized(n)
    requires AtDistance(g, start, v, run.states[|run.popped|].distances[v].value)
    ensures Overflows(Settle(run.states[|run.popped|], v), v, e, limit) <==>
      PassesLimit(g, start, limit, run.popped, v, e)
  {
    var l := run.states[|run.popped|];
    SettledArePopped(g, n, start, limit, run, |run.popped|, e.neighbor);
    assert PoppedBefore(run, |run.popped|, e.neighbor) <==> e.neighbor in run.popped by {
      if e.neighbor in run.popped {
        var i: nat :| i < |run.popped| && run.popped[i] == e.neighbor;
        assert PoppedAt(run, i, e.neighbor);
      }
    }
    var distance := l.distances[v].value;
    assert IsAbove(distance, e, limit) <==> IsHeavyStep(g, start, limit, v, e) by {
      if d :| AtDistance(g, start, v, d) && IsAbove(d, e, limit) {
        DistanceIsUnique(g, start, v, d, distance);
      }
    }
  }

  /** A search overflows exactly when some run of it comes to a vertex from which an edge leads, past the
      limit, to a vertex that has no row yet. */
  lemma RunOverflowsIff(g: WeightedRows, n: nat, start: nat, limit: real, target: Target)
    requires GraphOk(g, n)
    ensures RunOverflows(g, n, start, limit, target) <==>
      exists run, v: nat, e :: IsRun(g, n, start, limit, run) && ComesTo(run, target, v)
          && PassesLimit(g, start, limit, run.popped, v, e)
  {
    if RunOverflows(g, n, start, limit, target) {
      var run, v: nat :| IsRun(g, n, start, limit, run) && EndsInOverflow(g, n, start, limit, target, run, v);
      RoundOverflowsIff(g, n, start, limit, run, v);
      assert ComesTo(run, target, v);
    }
    if run, v: nat, e :| (IsRun(g, n, start, limit, run) && ComesTo(run, target, v)
                          && PassesLimit(g, start, limit, run.popped, v, e)) {
      RoundOverflowsIff(g, n, start, limit, run, v);
      assert EndsInOverflow(g, n, start, limit, target, run, v);
    }
  }

  /** The run settles `v` next, and has not come to its target before it or with it. */
  ghost predicate ComesTo(run: Run, target: Target, v: nat)
  {
    && Settling(run) && run.states[|run.popped|].IsNext(v)
    && forall u: nat :: u in run.popped + [v] ==> target != Target(u)
  }

  // ----- the costs alone -----

  /** The edge leads past the limit to a vertex that is no nearer than its source. */
  ghost predicate LeadsPast(g: WeightedRows, start: nat, limit: real, v: nat, e: WeightedEdge, strictly: bool)
  {
    && EdgeFrom(g, v, e)
    && exists d :: AtDistance(g, start, v, d) && IsAbove(d, e, limit) && IsNoNearer(g, start, e.neighbor, d, strictly)
  }

  ghost predicate IsNoNearer(g: WeightedRows, start: nat, w: nat, d: real, strictly: bool)
  {
    forall c :: AtDistance(g, start, w, c) ==> d < c || (d == c && !strictly)
  }

  /** Nothing that is open is nearer than the vertex about to be settled, so neither is its distance. */
  lemma OpenIsNoNearer(g: WeightedRows, n: nat, start: nat, l: Labels, v: nat, w: nat)
    requires GraphOk(g, n) && Inv(g, n, start, l) && l.IsNext(v) && w < n && !l.settled[w]
    ensures IsNoNearer(g, start, w, l.distances[v].value, false)
  {
    var bound := l.distances[v].value;
    forall u: nat | l.Open(u)
      ensures bound <= l.distances[u].value
    {
      assert !Less(l.distances, u, v);
    }
    forall c | AtDistance(g, start, w, c)
      ensures bound <= c
    {
      var k: nat :| HasRoute(g, start, w, c, k);
      RouteBound(g, n, start, l, bound, w, c, k);
      assert IsWithin(l, w, c) ==> l.Open(w);
    }
  }

  /** A search that overflows has met an edge whose end is no nearer than its source and that leads past
      the limit from the source's distance. */
  lemma OverflowLeadsPast(g: WeightedRows, n: nat, start: nat, limit: real, target: Target)
    requires GraphOk(g, n) && RunOverflows(g, n, start, limit, target)
    ensures exists v: nat, e :: LeadsPast(g, start, limit, v, e, false)
  {
    var run, v: nat :| IsRun(g, n, start, limit, run) && EndsInOverflow(g, n, start, limit, target, run, v);
    RoundOverflowsIff(g, n, start, limit, run, v);
    var e :| PassesLimit(g, start, limit, run.popped, v, e);
    var l := run.states[|run.popped|];
    NextIsNearest(g, n, start, l, v);
    SettledArePopped(g, n, start, limit, run, |run.popped|, e.neighbor);
    OpenIsNoNearer(g, n, start, l, v, e.neighbor);
    var d :| AtDistance(g, start, v, d) && IsAbove(d, e, limit);
    DistanceIsUnique(g, start, v, d, l.distances[v].value);
    assert EdgeFrom(g, v, e);
    assert LeadsPast(g, start, limit, v, e, false);
  }

  // ----- every search comes to an end -----

  /** Of the open vertices one is next. */
  lemma NextExists(l: Labels) returns (v: nat)
    requires l.Sized(|l.distances|) && l.HasOpen()
    ensures l.IsNext(v)
  {
    v :| l.Open(v);
    var u: nat := 0;
    while u < |l.distances|
      invariant u <= |l.distances| && l.Open(v)
      invariant forall w: nat :: w < u && l.Open(w) ==> !Less(l.distances, w, v)
    {
      if l.Open(u) && Less(l.distances, u, v) {
        v := u;
      }
      u := u + 1;
    }
  }

  ghost predicate IsComplete(run: Run)
  {
    Settling(run) && !run.states[|run.popped|].HasOpen()
  }

  /** A run that cannot go on without overflow has met one, and every other ends complete. */
  lemma {:induction false} RunEnds(g: WeightedRows, n: nat, start: nat, limit: real, run: Run) returns (all: Run)
    requires GraphOk(g, n) && IsRun(g, n, start, limit, run) && Settling(run)
    ensures RunOverflows(g, n, start, limit, NoTarget) || (IsRun(g, n, start, limit, all) && IsComplete(all))
    decreases n - |run.popped|
  {
    all := run;
    var l := run.states[|run.popped|];
    RunKeepsInvariant(g, n, start, limit, run, |run.popped|);
    if l.HasOpen() {
      var v := NextExists(l);
      CanRelaxSettled(g, n, start, l, v);
      if Round(g, n, start, l, v, limit) == Overflow {
        assert EndsInOverflow(g, n, start, limit, NoTarget, run, v);
      } else {
        var next := Round(g, n, start, l, v, limit).labels;
        RunRounds(g, n, start, limit, run, v, next);
        PoppedFit(g, n, start, limit, Run(run.states + [next], run.popped + [v]));
        all := RunEnds(g, n, start, limit, Run(run.states + [next], run.popped + [v]));
      }
    }
  }

  /** No vertex is popped twice, so there are no more rounds than vertices. */
  lemma PoppedFit(g: WeightedRows, n: nat, start: nat, limit: real, run: Run)
    requires GraphOk(g, n) && IsRun(g, n, start, limit, run)
    ensures |run.popped| <= n
  {
    forall i: nat, j: nat | i < j < |run.popped|
      ensures run.popped[i] != run.popped[j]
    {
      EarlierIsSettled(g, n, start, limit, run, i, j);
    }
    forall i: nat | i < |run.popped|
      ensures run.popped[i] < n
    {
      PoppedInRange(g, n, start, limit, run, i);
    }
    DistinctCardinality(run.popped);
    SubsetIsNoLarger(Elements(run.popped), Below(n));
  }

  ghost function Below(n: nat): (s: set<nat>)
    ensures |s| == n && forall v: nat :: v in s <==> v < n
  {
    if n == 0 then {} else Below(n - 1) + {n - 1}
  }

  /** An edge that leads past the limit to a vertex farther away than its source, or unreachable but for
      it, makes every search overflow that has no target. */
  lemma PastEdgeOverflows(g: WeightedRows, n: nat, start: nat, limit: real, v: nat, e: WeightedEdge)
    requires GraphOk(g, n) && start < n && LeadsPast(g, start, limit, v, e, true)
    ensures RunOverflows(g, n, start, limit, NoTarget)
  {
    InitialIsOk(g, n, start);
    var all := RunEnds(g, n, start, limit, Run([Initial(n, start)], []));
    if !RunOverflows(g, n, start, limit, NoTarget) {
      var d :| AtDistance(g, start, v, d) && IsAbove(d, e, limit) && IsNoNearer(g, start, e.neighbor, d, true);
      var i := PoppedInComplete(g, n, start, limit, all, v);
      EdgeIsOpen(g, n, start, limit, all, i, e, d);
      assert IsHeavyStep(g, start, limit, v, e);
      assert PassesLimit(g, start, limit, all.popped[..i], v, e);
      CompletePassesNothing(g, n, start, limit, all, i, e);
    }
  }

  lemma CompletePassesNothing(g: WeightedRows, n: nat, start: nat, limit: real, all: Run, i: nat, e: WeightedEdge)
    requires GraphOk(g, n) && IsRun(g, n, start, limit, all) && Settling(all) && i < |all.popped|
    ensures !PassesLimit(g, start, limit, all.popped[..i], all.popped[i], e)
  {
    PrefixIsRun(g, n, start, limit, all, i);
    RoundOverflowsIff(g, n, start, limit, Run(all.states[..i + 1], all.popped[..i]), all.popped[i]);
    assert IsRound(g, n, start, limit, all.states[i], all.popped[i], all.states[i + 1]);
  }

  lemma PoppedInComplete(g: WeightedRows, n: nat, start: nat, limit: real, all: Run, v: nat) returns (i: nat)
    requires GraphOk(g, n) && IsRun(g, n, start, limit, all) && IsComplete(all) && Reachable(g, start, v)
    ensures PoppedAt(all, i, v)
  {
    RunKeepsInvariant(g, n, start, limit, all, |all.popped|);
    SettledAreReachable(g, n, start, all.states[|all.popped|], v);
    SettledArePopped(g, n, start, limit, all, |all.popped|, v);
    i :| i < |all.popped| && PoppedAt(all, i, v);
  }

  lemma PrefixIsRun(g: WeightedRows, n: nat, start: nat, limit: real, run: Run, i: nat)
    requires GraphOk(g, n) && IsRun(g, n, start, limit, run) && i < |run.popped| && i < |run.states|
    ensures IsRun(g, n, start, limit, Run(run.states[..i + 1], run.popped[..i]))
  {
    var prefix := Run(run.states[..i + 1], run.popped[..i]);
    forall j | 0 <= j < |prefix.states| - 1
      ensures IsRound(g, n, start, limit, prefix.states[j], prefix.popped[j], prefix.states[j + 1])
    {
      assert IsRound(g, n, start, limit, run.states[j], run.popped[j], run.states[j + 1]);
    }
  }

  /** A vertex farther away than the one popped has not been popped before it. */
  lemma EdgeIsOpen(g: WeightedRows, n: nat, start: nat, limit: real, run: Run, i: nat, e: WeightedEdge, d: real)
    requires GraphOk(g, n) && IsRun(g, n, start, limit, run) && i < |run.popped|
    requires AtDistance(g, start, run.popped[i], d) && IsNoNearer(g, start, e.neighbor, d, true)
    ensures e.neighbor !in run.popped[..i + 1]
  {
    if e.neighbor in run.popped[..i + 1] {
      var j: nat :| j < i + 1 && run.popped[j] == e.neighbor;
      PoppedNoFarther(g, n, start, limit, run, j, i, d);
    }
  }

  lemma PoppedAtDistance(g: WeightedRows, n: nat, start: nat, limit: real, run: Run, i: nat)
    requires GraphOk(g, n) && IsRun(g, n, start, limit, run) && i < |run.popped|
    ensures run.states[i].IsNext(run.popped[i])
    ensures AtDistance(g, start, run.popped[i], run.states[i].distances[run.popped[i]].value)
  {
    RunKeepsInvariant(g, n, start, limit, run, i);
    NextIsNearest(g, n, start, run.states[i], run.popped[i]);
  }

  lemma PoppedNoFarther(g: WeightedRows, n: nat, start: nat, limit: real, run: Run, j: nat, i: nat, d: real)
    requires GraphOk(g, n) && IsRun(g, n, start, limit, run) && j <= i < |run.popped|
    requires AtDistance(g, start, run.popped[i], d)
    ensures exists c :: AtDistance(g, start, run.popped[j], c) && c <= d
  {
    PoppedAtDistance(g, n, start, limit, run, j);
    PoppedAtDistance(g, n, start, limit, run, i);
    hide IsRun, GraphOk, AtDistance;
    DistanceIsUnique(g, start, run.popped[i], d, run.states[i].distances[run.popped[i]].value);
    if j < i {
      RunKeepsInvariant(g, n, start, limit, run, i);
      EarlierIsSettled(g, n, start, limit, run, j, i);
    }
  }
}
