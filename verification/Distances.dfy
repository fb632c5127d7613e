/** Single-source shortest paths over nonnegative weights: rounds of settling the nearest open vertex. */
module Distances {

  datatype Distance = Finite(value: real) | Infinite

  datatype WeightedEdge = WeightedEdge(neighbor: nat, edgeId: nat, weight: real)

  /** The edges out of each vertex in the direction of the search. */
  type WeightedRows = nat -> seq<WeightedEdge>

  ghost predicate GraphOk(g: WeightedRows, n: nat)
  {
    forall u: nat, e :: e in g(u) ==> u < n && e.neighbor < n && e.weight >= 0.0
  }

  // ----- what distances are -----

  /** A walk of `k` edges with this total weight. */
  ghost predicate HasRoute(g: WeightedRows, u: nat, v: nat, cost: real, k: nat)
    decreases k
  {
    if k == 0 then u == v && cost == 0.0
    else exists w: nat, e :: EdgeFrom(g, w, e) && e.neighbor == v && HasRoute(g, u, w, cost - e.weight, k - 1)
  }

  ghost predicate EdgeFrom(g: WeightedRows, u: nat, e: WeightedEdge)
  {
    e in g(u)
  }

  ghost predicate Reachable(g: WeightedRows, u: nat, v: nat)
  {
    exists cost, k: nat :: HasRoute(g, u, v, cost, k)
  }

  ghost predicate AtDistance(g: WeightedRows, u: nat, v: nat, cost: real)
  {
    && (exists k: nat :: HasRoute(g, u, v, cost, k))
    && (forall other, k: nat :: HasRoute(g, u, v, other, k) ==> cost <= other)
  }

  // ----- one round -----

  datatype Parent = NoParent | Parent(vertex: nat)

  /** What the search knows of each vertex. */
  datatype Labels = Labels(distances: seq<Distance>, parents: seq<Parent>, parentEdges: seq<nat>, settled: seq<bool>)
  {
    predicate Sized(n: nat)
    {
      |distances| == |parents| == |parentEdges| == |settled| == n
    }

    predicate Open(v: nat)
    {
      v < |distances| && v < |settled| && distances[v].Finite? && !settled[v]
    }

    ghost predicate HasOpen()
    {
      exists v: nat :: Open(v)
    }

    ghost predicate IsNext(v: nat)
    {
      Open(v) && forall w: nat :: Open(w) ==> !Less(distances, w, v)
    }
  }

  predicate Closer(a: Distance, b: Distance)
  {
    a.Finite? && (b.Infinite? || a.value < b.value)
  }

  function DistanceOf(distances: seq<Distance>, v: nat): Distance
  {
    if v < |distances| then distances[v] else Infinite
  }

  /** Nearer vertices first, then smaller ordinals. */
  predicate Less(distances: seq<Distance>, left: nat, right: nat)
  {
    var a, b := DistanceOf(distances, left), DistanceOf(distances, right);
    Closer(a, b) || (a == b && left < right)
  }

  lemma NextIsUnique(l: Labels, v: nat, w: nat)
    requires l.IsNext(v) && l.IsNext(w)
    ensures v == w
  {
    assert Less(l.distances, v, w) || Less(l.distances, w, v) || v == w;
  }

  /** One edge of a vertex that has just been settled. */
  function Relax(l: Labels, v: nat, e: WeightedEdge): (r: Labels)
    requires l.Sized(|l.distances|) && v < |l.distances| && l.distances[v].Finite? && e.neighbor < |l.distances|
    ensures r.Sized(|l.distances|) && r.settled == l.settled
  {
    var distance := Finite(l.distances[v].value + e.weight);
    if l.settled[e.neighbor] || !Closer(distance, l.distances[e.neighbor]) then l
    else Labels(l.distances[e.neighbor := distance], l.parents[e.neighbor := Parent(v)],
                l.parentEdges[e.neighbor := e.edgeId], l.settled)
  }

  predicate Overflows(l: Labels, v: nat, e: WeightedEdge, limit: real)
    requires l.Sized(|l.distances|) && v < |l.distances| && l.distances[v].Finite? && e.neighbor < |l.distances|
  {
    !l.settled[e.neighbor] && l.distances[v].value + e.weight > limit
  }

  datatype Outcome = Labelled(labels: Labels) | Overflow

  ghost predicate CanRelax(l: Labels, v: nat, edges: seq<WeightedEdge>)
  {
    && l.Sized(|l.distances|) && v < |l.distances| && l.distances[v].Finite? && l.settled[v]
    && forall i :: 0 <= i < |edges| ==> edges[i].neighbor < |l.distances|
  }

  /** All edges of a settled vertex in turn; a distance beyond the limit ends the search. */
  ghost function RelaxAll(l: Labels, v: nat, edges: seq<WeightedEdge>, limit: real): (r: Outcome)
    requires CanRelax(l, v, edges)
    ensures r.Labelled? ==>
      CanRelax(r.labels, v, edges) && r.labels.settled == l.settled && r.labels.distances[v] == l.distances[v]
    decreases |edges|
  {
    if |edges| == 0 then Labelled(l)
    else
      var before := RelaxAll(l, v, edges[..|edges| - 1], limit);
      var last := edges[|edges| - 1];
      if before.Overflow? || Overflows(before.labels, v, last, limit) then Overflow
      else Labelled(Relax(before.labels, v, last))
  }

  function Settle(l: Labels, v: nat): Labels
    requires v < |l.settled|
  {
    l.(settled := l.settled[v := true])
  }

  // ----- what every round keeps -----

  ghost predicate Improves(l: Labels, u: nat, e: WeightedEdge)
    requires u < |l.distances| && l.distances[u].Finite?
  {
    && e.neighbor < |l.distances| && l.distances[e.neighbor].Finite?
    && l.distances[e.neighbor].value <= l.distances[u].value + e.weight
  }

  /** A vertex that is not the start got its distance over an edge from its settled parent. */
  ghost predicate HasParent(g: WeightedRows, start: nat, l: Labels, v: nat)
    requires l.Sized(|l.distances|) && v < |l.distances| && l.distances[v].Finite?
  {
    if v == start then l.parents[v] == NoParent && l.distances[v].value == 0.0
    else
      && l.parents[v].Parent? && l.parents[v].vertex < |l.distances| && l.settled[l.parents[v].vertex]
      && l.distances[l.parents[v].vertex].Finite?
      && exists e :: e in g(l.parents[v].vertex) && IsParentEdge(l, v, e)
  }

  ghost predicate IsParentEdge(l: Labels, v: nat, e: WeightedEdge)
    requires l.Sized(|l.distances|) && v < |l.distances| && l.distances[v].Finite? && l.parents[v].Parent?
    requires l.parents[v].vertex < |l.distances| && l.distances[l.parents[v].vertex].Finite?
  {
    && e.neighbor == v && e.edgeId == l.parentEdges[v]
    && l.distances[v].value == l.distances[l.parents[v].vertex].value + e.weight
  }

  ghost predicate IsReached(g: WeightedRows, start: nat, v: nat, cost: real)
  {
    exists k: nat :: HasRoute(g, start, v, cost, k)
  }

  /** Sizes, and every labelled vertex has a parent edge and a route of its distance. */
  ghost predicate TreeOk(g: WeightedRows, n: nat, start: nat, l: Labels)
  {
    && l.Sized(n) && start < n && l.distances[start] == Finite(0.0)
    && (forall v: nat :: v < n && l.distances[v].Finite? ==>
        HasParent(g, start, l, v) && IsReached(g, start, v, l.distances[v].value))
    && (forall v: nat :: v < n && l.settled[v] ==> l.distances[v].Finite?)
  }

  /** The edges of every settled vertex but `v` are relaxed, and of `v` the first ones. */
  ghost predicate Relaxed(g: WeightedRows, l: Labels, v: nat, done: seq<WeightedEdge>)
  {
    forall u: nat, e :: IsSettled(l, u) && IsDone(g, u, e, v, done) ==> Improves(l, u, e)
  }

  predicate IsSettled(l: Labels, u: nat)
  {
    u < |l.distances| && u < |l.settled| && l.settled[u] && l.distances[u].Finite?
  }

  ghost predicate IsDone(g: WeightedRows, u: nat, e: WeightedEdge, v: nat, done: seq<WeightedEdge>)
  {
    if u == v then e in done else e in g(u)
  }

  /** No settled vertex is farther than an open one. */
  ghost predicate Ordered(l: Labels)
  {
    forall u: nat, w: nat :: IsSettled(l, u) && l.Open(w) ==> l.distances[u].value <= l.distances[w].value
  }

  ghost predicate Inv(g: WeightedRows, n: nat, start: nat, l: Labels)
  {
    TreeOk(g, n, start, l) && Relaxed(g, l, n, []) && Ordered(l)
  }

  function Initial(n: nat, start: nat): Labels
    requires start < n
  {
    Labels(seq(n, _ => Infinite)[start := Finite(0.0)], seq(n, _ => NoParent), seq(n, _ => 0), seq(n, _ => false))
  }

  lemma InitialIsOk(g: WeightedRows, n: nat, start: nat)
    requires start < n
    ensures Inv(g, n, start, Initial(n, start)) && Initial(n, start).IsNext(start)
  {
    assert HasRoute(g, start, start, 0.0, 0);
  }

  /** A route grows by one edge. */
  lemma RouteGrows(g: WeightedRows, start: nat, u: nat, cost: real, e: WeightedEdge)
    requires IsReached(g, start, u, cost) && e in g(u)
    ensures IsReached(g, start, e.neighbor, cost + e.weight)
  {
    var k: nat :| HasRoute(g, start, u, cost, k);
    assert cost + e.weight - e.weight == cost;
    assert EdgeFrom(g, u, e);
    assert HasRoute(g, start, e.neighbor, cost + e.weight, k + 1);
  }

  /** While a vertex's edges are relaxed it separates the settled vertices from the open ones. */
  ghost predicate Separates(l: Labels, v: nat)
    requires v < |l.distances| && l.distances[v].Finite?
  {
    && (forall u: nat :: IsSettled(l, u) ==> l.distances[u].value <= l.distances[v].value)
    && (forall w: nat :: l.Open(w) ==> l.distances[v].value <= l.distances[w].value)
  }

  ghost predicate Relaxing(g: WeightedRows, n: nat, start: nat, l: Labels, v: nat, done: seq<WeightedEdge>)
  {
    && TreeOk(g, n, start, l) && IsSettled(l, v) && v < n
    && Relaxed(g, l, v, done) && Separates(l, v)
  }

  lemma SettleKeepsTree(g: WeightedRows, n: nat, start: nat, l: Labels, v: nat)
    requires TreeOk(g, n, start, l) && l.Open(v)
    ensures TreeOk(g, n, start, Settle(l, v))
  {
    var r := Settle(l, v);
    forall u: nat | u < n && r.distances[u].Finite?
      ensures HasParent(g, start, r, u)
    {
      assert HasParent(g, start, l, u);
      if u != start {
        var e :| e in g(l.parents[u].vertex) && IsParentEdge(l, u, e);
        assert IsParentEdge(r, u, e);
      }
    }
  }

  /** Settling the next vertex: its own edges are still to be relaxed. */
  lemma SettleKeeps(g: WeightedRows, n: nat, start: nat, l: Labels, v: nat)
    requires Inv(g, n, start, l) && l.IsNext(v)
    ensures Relaxing(g, n, start, Settle(l, v), v, [])
  {
    var r := Settle(l, v);
    SettleKeepsTree(g, n, start, l, v);
    forall w: nat | r.Open(w)
      ensures l.distances[v].value <= l.distances[w].value
    {
      assert l.Open(w) && !Less(l.distances, w, v);
    }
    forall u: nat | IsSettled(r, u)
      ensures l.distances[u].value <= l.distances[v].value
    {
      assert u != v ==> IsSettled(l, u);
    }
    forall u: nat, e | IsSettled(r, u) && IsDone(g, u, e, v, [])
      ensures Improves(r, u, e)
    {
      assert IsSettled(l, u) && IsDone(g, u, e, n, []);
      assert Improves(l, u, e);
    }
  }

  lemma RelaxKeepsParent(g: WeightedRows, start: nat, l: Labels, v: nat, e: WeightedEdge, u: nat)
    requires l.Sized(|l.distances|) && IsSettled(l, v) && e in g(v) && e.neighbor < |l.distances| && e.neighbor != start
    requires u < |l.distances| && Relax(l, v, e).distances[u].Finite?
    requires u != e.neighbor ==> HasParent(g, start, l, u)
    requires Relax(l, v, e) != l
    ensures HasParent(g, start, Relax(l, v, e), u)
  {
    var r := Relax(l, v, e);
    if u == e.neighbor {
      assert IsParentEdge(r, u, e);
    } else if u != start {
      var f :| f in g(l.parents[u].vertex) && IsParentEdge(l, u, f);
      assert IsParentEdge(r, u, f);
    }
  }

  /** The start stays at distance zero. */
  lemma StartIsNotRelaxed(g: WeightedRows, n: nat, start: nat, l: Labels, v: nat, e: WeightedEdge)
    requires GraphOk(g, n) && TreeOk(g, n, start, l) && IsSettled(l, v) && e in g(v)
    ensures Relax(l, v, e) == l || e.neighbor != start
  {
    assert e.weight >= 0.0;
    ReachedIsNonnegative(g, n, start, v, l.distances[v].value);
  }

  lemma RelaxKeepsTree(g: WeightedRows, n: nat, start: nat, l: Labels, v: nat, e: WeightedEdge)
    requires GraphOk(g, n) && TreeOk(g, n, start, l) && IsSettled(l, v) && e in g(v)
    ensures TreeOk(g, n, start, Relax(l, v, e))
  {
    var r := Relax(l, v, e);
    if r != l {
      StartIsNotRelaxed(g, n, start, l, v, e);
      RouteGrows(g, start, v, l.distances[v].value, e);
      forall u: nat | u < n && r.distances[u].Finite?
        ensures HasParent(g, start, r, u) && IsReached(g, start, u, r.distances[u].value)
      {
        RelaxKeepsParent(g, start, l, v, e, u);
      }
    }
  }

  lemma ReachedIsNonnegative(g: WeightedRows, n: nat, start: nat, v: nat, cost: real)
    requires GraphOk(g, n) && IsReached(g, start, v, cost)
    ensures cost >= 0.0
  {
    var k: nat :| HasRoute(g, start, v, cost, k);
    RouteIsNonnegative(g, n, start, v, cost, k);
  }

  lemma {:induction false} RouteIsNonnegative(g: WeightedRows, n: nat, start: nat, v: nat, cost: real, k: nat)
    requires GraphOk(g, n) && HasRoute(g, start, v, cost, k)
    ensures cost >= 0.0
    decreases k
  {
    if k > 0 {
      var w: nat, e :| EdgeFrom(g, w, e) && e.neighbor == v && HasRoute(g, start, w, cost - e.weight, k - 1);
      RouteIsNonnegative(g, n, start, w, cost - e.weight, k - 1);
      assert e in g(w);
    }
  }

  lemma RelaxSeparates(g: WeightedRows, n: nat, l: Labels, v: nat, e: WeightedEdge)
    requires GraphOk(g, n) && l.Sized(n) && IsSettled(l, v) && e in g(v) && Separates(l, v)
    ensures Separates(Relax(l, v, e), v)
  {
    var r := Relax(l, v, e);
    forall w: nat | r.Open(w)
      ensures r.distances[v].value <= r.distances[w].value
    {
      assert w != e.neighbor ==> l.Open(w);
    }
    forall u: nat | IsSettled(r, u)
      ensures r.distances[u].value <= r.distances[v].value
    {
      assert IsSettled(l, u);
    }
  }

  lemma RelaxImproves(g: WeightedRows, n: nat, l: Labels, v: nat, e: WeightedEdge, done: seq<WeightedEdge>)
    requires GraphOk(g, n) && l.Sized(n) && IsSettled(l, v) && e in g(v) && Separates(l, v) && Relaxed(g, l, v, done)
    requires forall u: nat :: u < n && l.settled[u] ==> l.distances[u].Finite?
    ensures Relaxed(g, Relax(l, v, e), v, done + [e])
  {
    var r := Relax(l, v, e);
    forall u: nat, f | IsSettled(r, u) && IsDone(g, u, f, v, done + [e])
      ensures Improves(r, u, f)
    {
      assert IsSettled(l, u) && r.distances[u] == l.distances[u];
      if u == v && f == e {
        if l.settled[e.neighbor] {
          assert IsSettled(l, e.neighbor);
        }
      } else {
        assert IsDone(g, u, f, v, done);
        assert Improves(l, u, f);
      }
    }
  }

  lemma RelaxKeeps(g: WeightedRows, n: nat, start: nat, l: Labels, v: nat, e: WeightedEdge, done: seq<WeightedEdge>)
    requires GraphOk(g, n) && Relaxing(g, n, start, l, v, done) && e in g(v)
    ensures Relaxing(g, n, start, Relax(l, v, e), v, done + [e])
  {
    RelaxKeepsTree(g, n, start, l, v, e);
    RelaxSeparates(g, n, l, v, e);
    RelaxImproves(g, n, l, v, e, done);
  }

  lemma {:induction false} RelaxAllKeeps(g: WeightedRows, n: nat, start: nat, l: Labels, v: nat,
                                         edges: seq<WeightedEdge>, limit: real)
    requires GraphOk(g, n) && Relaxing(g, n, start, l, v, []) && forall e :: e in edges ==> e in g(v)
    requires CanRelax(l, v, edges) && RelaxAll(l, v, edges, limit).Labelled?
    ensures Relaxing(g, n, start, RelaxAll(l, v, edges, limit).labels, v, edges)
    decreases |edges|
  {
    hide Relaxing, Relax, Overflows, GraphOk;
    if |edges| > 0 {
      var init, last := edges[..|edges| - 1], edges[|edges| - 1];
      assert edges == init + [last] && last in edges;
      RelaxAllKeeps(g, n, start, l, v, init, limit);
      RelaxKeeps(g, n, start, RelaxAll(l, v, init, limit).labels, v, last, init);
    }
  }

  // ----- rounds -----

  lemma CanRelaxSettled(g: WeightedRows, n: nat, start: nat, l: Labels, v: nat)
    requires GraphOk(g, n) && TreeOk(g, n, start, l) && l.Open(v)
    ensures CanRelax(Settle(l, v), v, g(v))
  {
    forall i | 0 <= i < |g(v)|
      ensures g(v)[i].neighbor < n
    {
      assert g(v)[i] in g(v);
    }
  }

  /** One round: the next vertex is settled and its edges are relaxed. */
  ghost function Round(g: WeightedRows, n: nat, start: nat, l: Labels, v: nat, limit: real): Outcome
    requires GraphOk(g, n) && Inv(g, n, start, l) && l.IsNext(v)
  {
    CanRelaxSettled(g, n, start, l, v);
    RelaxAll(Settle(l, v), v, g(v), limit)
  }

  lemma RoundKeepsInvariant(g: WeightedRows, n: nat, start: nat, l: Labels, v: nat, limit: real)
    requires GraphOk(g, n) && Inv(g, n, start, l) && l.IsNext(v) && Round(g, n, start, l, v, limit).Labelled?
    ensures Inv(g, n, start, Round(g, n, start, l, v, limit).labels)
  {
    SettleKeeps(g, n, start, l, v);
    CanRelaxSettled(g, n, start, l, v);
    RelaxAllKeeps(g, n, start, Settle(l, v), v, g(v), limit);
    RelaxedIsRelaxed(g, n, start, Round(g, n, start, l, v, limit).labels, v);
  }

  lemma RelaxedIsRelaxed(g: WeightedRows, n: nat, start: nat, l: Labels, v: nat)
    requires Relaxing(g, n, start, l, v, g(v))
    ensures Inv(g, n, start, l)
  {
    forall u: nat, e | IsSettled(l, u) && IsDone(g, u, e, n, [])
      ensures Improves(l, u, e)
    {
      assert IsDone(g, u, e, v, g(v));
    }
  }

  /** No route is cheaper than the nearest open vertex unless its end is labelled at most its cost. */
  lemma {:induction false} RouteBound(g: WeightedRows, n: nat, start: nat, l: Labels, bound: real, v: nat, cost: real,
                                      k: nat)
    requires GraphOk(g, n) && Inv(g, n, start, l) && HasRoute(g, start, v, cost, k)
    requires forall w: nat :: l.Open(w) ==> bound <= l.distances[w].value
    ensures cost >= bound || IsWithin(l, v, cost)
    decreases k
  {
    if k == 0 {
      assert l.distances[start] == Finite(0.0);
    } else {
      hide Inv;
      var u: nat, e :| EdgeFrom(g, u, e) && e.neighbor == v && HasRoute(g, start, u, cost - e.weight, k - 1);
      RouteBound(g, n, start, l, bound, u, cost - e.weight, k - 1);
      if cost < bound {
        BoundGrows(g, n, start, l, bound, u, e, cost);
      }
    }
  }

  ghost predicate IsWithin(l: Labels, v: nat, cost: real)
  {
    v < |l.distances| && l.distances[v].Finite? && l.distances[v].value <= cost
  }

  lemma BoundGrows(g: WeightedRows, n: nat, start: nat, l: Labels, bound: real, u: nat, e: WeightedEdge, cost: real)
    requires GraphOk(g, n) && Inv(g, n, start, l) && EdgeFrom(g, u, e) && cost < bound
    requires cost - e.weight >= bound || IsWithin(l, u, cost - e.weight)
    requires forall w: nat :: l.Open(w) ==> bound <= l.distances[w].value
    ensures IsWithin(l, e.neighbor, cost)
  {
    assert e in g(u) && e.weight >= 0.0;
    assert !l.Open(u);
    assert IsSettled(l, u) && IsDone(g, u, e, n, []);
    assert Improves(l, u, e);
  }

  /** The vertex about to be settled has its true distance. */
  lemma NextIsNearest(g: WeightedRows, n: nat, start: nat, l: Labels, v: nat)
    requires GraphOk(g, n) && Inv(g, n, start, l) && l.IsNext(v)
    ensures AtDistance(g, start, v, l.distances[v].value)
  {
    var bound := l.distances[v].value;
    forall w: nat | l.Open(w)
      ensures bound <= l.distances[w].value
    {
      assert !Less(l.distances, w, v);
    }
    forall cost, k: nat | HasRoute(g, start, v, cost, k)
      ensures bound <= cost
    {
      RouteBound(g, n, start, l, bound, v, cost, k);
    }
  }

  /** When no vertex is open the settled vertices are exactly the reachable ones. */
  lemma SettledAreReachable(g: WeightedRows, n: nat, start: nat, l: Labels, v: nat)
    requires GraphOk(g, n) && Inv(g, n, start, l) && !l.HasOpen()
    ensures (v < n && l.settled[v]) <==> Reachable(g, start, v)
  {
    if v < n && l.settled[v] {
      assert IsReached(g, start, v, l.distances[v].value);
    }
    if Reachable(g, start, v) {
      var cost, k: nat :| HasRoute(g, start, v, cost, k);
      RouteBound(g, n, start, l, cost + 1.0, v, cost, k);
      assert !l.Open(v);
    }
  }

  // ----- runs -----

  /** The states of a search between rounds and the vertices it popped.  The last vertex popped may
      still have to be relaxed. */
  datatype Run = Run(states: seq<Labels>, popped: seq<nat>)

  ghost predicate IsRound(g: WeightedRows, n: nat, start: nat, limit: real, l: Labels, v: nat, next: Labels)
    requires GraphOk(g, n)
  {
    Inv(g, n, start, l) && l.IsNext(v) && Round(g, n, start, l, v, limit) == Labelled(next)
  }

  ghost predicate IsRun(g: WeightedRows, n: nat, start: nat, limit: real, run: Run)
    requires GraphOk(g, n)
  {
    && start < n && |run.states| > 0 && run.states[0] == Initial(n, start)
    && |run.popped| <= |run.states| <= |run.popped| + 1
    && (forall i :: 0 <= i < |run.popped| ==> run.states[i].IsNext(run.popped[i]))
    && (forall i :: 0 <= i < |run.states| - 1 ==>
        IsRound(g, n, start, limit, run.states[i], run.popped[i], run.states[i + 1]))
  }

  lemma {:induction false} RunKeepsInvariant(g: WeightedRows, n: nat, start: nat, limit: real, run: Run, i: nat)
    requires GraphOk(g, n) && IsRun(g, n, start, limit, run) && i < |run.states|
    ensures Inv(g, n, start, run.states[i])
  {
    if i == 0 {
      InitialIsOk(g, n, start);
    } else {
      assert IsRound(g, n, start, limit, run.states[i - 1], run.popped[i - 1], run.states[i]);
      RoundKeepsInvariant(g, n, start, run.states[i - 1], run.popped[i - 1], limit);
    }
  }

  ghost predicate SameAt(l: Labels, r: Labels, v: nat)
  {
    && v < |l.distances| && l.Sized(|l.distances|) && r.Sized(|l.distances|)
    && l.distances[v] == r.distances[v] && l.parents[v] == r.parents[v] && l.parentEdges[v] == r.parentEdges[v]
  }

  lemma {:induction false} RelaxAllFreezes(l: Labels, v: nat, edges: seq<WeightedEdge>, limit: real, u: nat)
    requires CanRelax(l, v, edges) && RelaxAll(l, v, edges, limit).Labelled? && u < |l.settled| && l.settled[u]
    ensures SameAt(l, RelaxAll(l, v, edges, limit).labels, u)
    decreases |edges|
  {
    if |edges| > 0 {
      RelaxAllFreezes(l, v, edges[..|edges| - 1], limit, u);
    }
  }

  /** A round settles one vertex and leaves the labels of settled vertices alone. */
  lemma RoundFreezes(g: WeightedRows, n: nat, start: nat, limit: real, l: Labels, v: nat, next: Labels, u: nat)
    requires GraphOk(g, n) && IsRound(g, n, start, limit, l, v, next) && u < n
    ensures next.Sized(n) && (next.settled[u] <==> l.settled[u] || u == v)
    ensures l.settled[u] || u == v ==> SameAt(l, next, u)
  {
    CanRelaxSettled(g, n, start, l, v);
    if l.settled[u] || u == v {
      RelaxAllFreezes(Settle(l, v), v, g(v), limit, u);
    }
  }

  ghost predicate PoppedBefore(run: Run, j: nat, u: nat)
  {
    exists i: nat :: i < j && PoppedAt(run, i, u)
  }

  ghost predicate PoppedAt(run: Run, i: nat, u: nat)
  {
    i < |run.popped| && run.popped[i] == u
  }

  lemma RunRound(g: WeightedRows, n: nat, start: nat, limit: real, run: Run, i: nat)
    requires GraphOk(g, n) && IsRun(g, n, start, limit, run) && i + 1 < |run.states|
    ensures i < |run.popped| && IsRound(g, n, start, limit, run.states[i], run.popped[i], run.states[i + 1])
  {
  }

  lemma StateIsSized(g: WeightedRows, n: nat, start: nat, limit: real, run: Run, j: nat)
    requires GraphOk(g, n) && IsRun(g, n, start, limit, run) && j < |run.states|
    ensures run.states[j].Sized(n)
  {
    RunKeepsInvariant(g, n, start, limit, run, j);
  }

  lemma SettledNext(g: WeightedRows, n: nat, start: nat, limit: real, run: Run, j: nat, u: nat)
    requires GraphOk(g, n) && IsRun(g, n, start, limit, run) && j + 1 < |run.states| && u < n
    ensures run.states[j].Sized(n) && run.states[j + 1].Sized(n)
    ensures run.states[j + 1].settled[u] <==> run.states[j].settled[u] || PoppedAt(run, j, u)
    ensures run.states[j].settled[u] || PoppedAt(run, j, u) ==> SameAt(run.states[j], run.states[j + 1], u)
  {
    RunRound(g, n, start, limit, run, j);
    StateIsSized(g, n, start, limit, run, j);
    RoundFreezes(g, n, start, limit, run.states[j], run.popped[j], run.states[j + 1], u);
  }

  /** The vertices settled are those popped. */
  lemma {:induction false} SettledArePopped(g: WeightedRows, n: nat, start: nat, limit: real, run: Run, j: nat, u: nat)
    requires GraphOk(g, n) && IsRun(g, n, start, limit, run) && j < |run.states| && u < n
    ensures run.states[j].Sized(n) && (run.states[j].settled[u] <==> PoppedBefore(run, j, u))
    decreases j
  {
    hide GraphOk, IsRound;
    if j == 0 {
      assert run.states[0] == Initial(n, start);
    } else {
      hide IsRun;
      SettledArePopped(g, n, start, limit, run, j - 1, u);
      SettledNext(g, n, start, limit, run, j - 1, u);
    }
  }

  /** Settled vertices keep the labels with which they were popped. */
  lemma {:induction false} PoppedKeepLabels(g: WeightedRows, n: nat, start: nat, limit: real, run: Run, i: nat, j: nat,
                                            u: nat)
    requires GraphOk(g, n) && IsRun(g, n, start, limit, run) && i < j < |run.states| && u < n && PoppedAt(run, i, u)
    ensures run.states[j].Sized(n) && run.states[j].settled[u] && SameAt(run.states[i], run.states[j], u)
    decreases j
  {
    hide IsRun;
    if i < j - 1 {
      PoppedKeepLabels(g, n, start, limit, run, i, j - 1, u);
    }
    SettledNext(g, n, start, limit, run, j - 1, u);
  }

  lemma EarlierIsSettled(g: WeightedRows, n: nat, start: nat, limit: real, run: Run, i: nat, j: nat)
    requires GraphOk(g, n) && IsRun(g, n, start, limit, run) && i < j < |run.popped|
    ensures run.popped[i] < n && run.popped[j] < n && run.popped[i] != run.popped[j]
    ensures IsSettled(run.states[j], run.popped[i]) && SameAt(run.states[i], run.states[j], run.popped[i])
  {
    RunKeepsInvariant(g, n, start, limit, run, i);
    RunKeepsInvariant(g, n, start, limit, run, j);
    assert run.states[i].IsNext(run.popped[i]) && run.states[j].IsNext(run.popped[j]);
    SettledArePopped(g, n, start, limit, run, j, run.popped[i]);
    PoppedKeepLabels(g, n, start, limit, run, i, j, run.popped[i]);
  }

  // ----- what the rows of a run say -----

  /** `edgeId` is meaningful only with a parent. */
  datatype SsspRow = SsspRow(vertex: nat, distance: real, parent: Parent, edgeId: nat, order: nat)

  function RowAt(l: Labels, v: nat, order: nat): SsspRow
    requires l.Sized(|l.distances|) && l.Open(v)
  {
    SsspRow(v, l.distances[v].value, l.parents[v], if l.parents[v].Parent? then l.parentEdges[v] else 0, order)
  }

  ghost predicate AreRowsOf(run: Run, rows: seq<SsspRow>)
  {
    && |rows| == |run.popped| <= |run.states|
    && forall i :: 0 <= i < |rows| ==>
         run.states[i].Sized(|run.states[i].distances|) && run.states[i].Open(run.popped[i])
         && rows[i] == RowAt(run.states[i], run.popped[i], i)
  }

  /** Row `j` is in the shortest-path tree of the rows before it. */
  ghost predicate IsTreeRow(g: WeightedRows, start: nat, rows: seq<SsspRow>, j: nat)
    requires j < |rows|
  {
    if rows[j].vertex == start then rows[j].parent == NoParent && rows[j].distance == 0.0
    else exists i: nat :: i < j && IsChildOf(g, rows[i], rows[j])
  }

  ghost predicate IsChildOf(g: WeightedRows, parent: SsspRow, child: SsspRow)
  {
    && child.parent == Parent(parent.vertex)
    && exists e :: e in g(parent.vertex) && e.neighbor == child.vertex && e.edgeId == child.edgeId
         && IsSumOf(child, parent, e)
  }

  predicate IsSumOf(child: SsspRow, parent: SsspRow, e: WeightedEdge)
  {
    child.distance == parent.distance + e.weight
  }

  ghost predicate IsShortestPathTree(g: WeightedRows, start: nat, rows: seq<SsspRow>)
  {
    && (forall i :: 0 <= i < |rows| ==> rows[i].order == i && AtDistance(g, start, rows[i].vertex, rows[i].distance))
    && (forall i, j :: 0 <= i < j < |rows| ==> rows[i].vertex != rows[j].vertex && rows[i].distance <= rows[j].distance)
    && (forall j: nat :: j < |rows| ==> IsTreeRow(g, start, rows, j))
    && (forall i: nat, j: nat :: i < j < |rows| ==> TiesInOrder(rows, i, j))
    && (forall i: nat, j: nat, e :: i < j < |rows| && e in g(rows[i].vertex) ==> ParentIsFirst(rows, i, j, e))
  }

  /** A row that offers the distance of a later one over an edge does not come before the parent it has. */
  ghost predicate ParentIsFirst(rows: seq<SsspRow>, i: nat, j: nat, e: WeightedEdge)
    requires i < j < |rows|
  {
    e.neighbor == rows[j].vertex && IsSumOf(rows[j], rows[i], e) ==>
      rows[j].parent.Parent? ==> exists k: nat :: k <= i && rows[j].parent == Parent(rows[k].vertex)
  }

  /** At equal distance the smaller ordinal comes first, unless it was reached only later. */
  ghost predicate TiesInOrder(rows: seq<SsspRow>, i: nat, j: nat)
    requires i < j < |rows|
  {
    rows[i].distance == rows[j].distance && rows[j].vertex < rows[i].vertex ==>
      exists k: nat :: i <= k < j && rows[j].parent == Parent(rows[k].vertex)
  }

  ghost predicate HasRowFor(rows: seq<SsspRow>, v: nat)
  {
    exists i :: 0 <= i < |rows| && rows[i].vertex == v
  }

  /** A vertex with a parent: the parent was popped earlier and is joined to it by an edge. */
  lemma ParentWasPopped(g: WeightedRows, n: nat, start: nat, limit: real, run: Run, j: nat) returns (i: nat,
                                                                                                     e: WeightedEdge)
    requires GraphOk(g, n) && IsRun(g, n, start, limit, run) && j < |run.popped| && run.popped[j] != start
    ensures i < j && run.states[j].Sized(n) && run.states[j].Open(run.popped[j])
    ensures run.states[j].parents[run.popped[j]] == Parent(run.popped[i]) && e in g(run.popped[i])
    ensures SameAt(run.states[i], run.states[j], run.popped[i]) && run.states[j].distances[run.popped[i]].Finite?
    ensures IsParentEdge(run.states[j], run.popped[j], e)
  {
    var l, v := run.states[j], run.popped[j];
    RunKeepsInvariant(g, n, start, limit, run, j);
    assert l.IsNext(v);
    assert HasParent(g, start, l, v);
    var p := l.parents[v].vertex;
    e :| e in g(p) && IsParentEdge(l, v, e);
    SettledArePopped(g, n, start, limit, run, j, p);
    i :| i < j && PoppedAt(run, i, p);
    PoppedKeepLabels(g, n, start, limit, run, i, j, p);
  }

  lemma StartIsRoot(g: WeightedRows, n: nat, start: nat, limit: real, run: Run, j: nat)
    requires GraphOk(g, n) && IsRun(g, n, start, limit, run) && j < |run.popped| && run.popped[j] == start
    ensures run.states[j].Sized(n) && start < n && run.states[j].parents[start] == NoParent
    ensures run.states[j].distances[start] == Finite(0.0)
  {
    RunKeepsInvariant(g, n, start, limit, run, j);
    assert HasParent(g, start, run.states[j], start);
  }

  lemma RowIsInTree(g: WeightedRows, n: nat, start: nat, limit: real, run: Run, rows: seq<SsspRow>, j: nat)
    requires GraphOk(g, n) && IsRun(g, n, start, limit, run) && AreRowsOf(run, rows) && j < |rows|
    ensures IsTreeRow(g, start, rows, j)
  {
    hide IsRun, GraphOk;
    if run.popped[j] == start {
      StartIsRoot(g, n, start, limit, run, j);
    } else {
      var i, e := ParentWasPopped(g, n, start, limit, run, j);
      assert IsSumOf(rows[j], rows[i], e);
      assert IsChildOf(g, rows[i], rows[j]);
    }
  }

  /** A vertex whose parent was popped before another vertex already had its distance then. */
  lemma LabelledBefore(g: WeightedRows, n: nat, start: nat, limit: real, run: Run, k: nat, i: nat, j: nat,
                       e: WeightedEdge)
    requires GraphOk(g, n) && IsRun(g, n, start, limit, run) && k < i < j < |run.popped|
    requires e in g(run.popped[k]) && e.neighbor == run.popped[j]
    requires run.states[k].Sized(n) && run.states[j].Sized(n)
    requires run.popped[k] < n && run.popped[j] < n && run.states[k].distances[run.popped[k]].Finite?
    requires run.states[j].distances[run.popped[j]]
      == Finite(run.states[k].distances[run.popped[k]].value + e.weight)
    ensures run.states[i].Sized(n) && run.states[i].Open(run.popped[j])
    ensures run.states[i].distances[run.popped[j]] == run.states[j].distances[run.popped[j]]
  {
    var l, v, w := run.states[i], run.popped[k], run.popped[j];
    RunKeepsInvariant(g, n, start, limit, run, i);
    RunKeepsInvariant(g, n, start, limit, run, j);
    EarlierIsSettled(g, n, start, limit, run, k, i);
    NextIsNearest(g, n, start, run.states[j], w);
    assert IsSettled(l, v) && IsDone(g, v, e, n, []);
    assert Improves(l, v, e);
    assert IsReached(g, start, w, l.distances[w].value);
    SettledArePopped(g, n, start, limit, run, i, w);
    if l.settled[w] {
      var m: nat :| m < i && PoppedAt(run, m, w);
      EarlierIsSettled(g, n, start, limit, run, m, j);
    }
  }

  lemma RowsBreakTies(g: WeightedRows, n: nat, start: nat, limit: real, run: Run, rows: seq<SsspRow>, i: nat, j: nat)
    requires GraphOk(g, n) && IsRun(g, n, start, limit, run) && AreRowsOf(run, rows) && i < j < |rows|
    ensures TiesInOrder(rows, i, j)
  {
    var v, w := run.popped[i], run.popped[j];
    if rows[i].distance == rows[j].distance && w < v {
      assert !(run.states[i].Open(w) && run.states[i].distances[w] == Finite(rows[j].distance)) by {
        assert run.states[i].IsNext(v);
        assert run.states[i].Open(w) ==> !Less(run.states[i].distances, w, v);
      }
      if w == start {
        StartIsOpen(g, n, start, limit, run, i, j);
      } else {
        var k, e := ParentWasPopped(g, n, start, limit, run, j);
        assert rows[j].parent == Parent(rows[k].vertex);
        if k < i {
          RunKeepsInvariant(g, n, start, limit, run, k);
          LabelledBefore(g, n, start, limit, run, k, i, j, e);
        }
      }
    }
  }

  /** Relaxing leaves a label alone that no edge undercuts. */
  lemma {:induction false} RelaxAllKeepsLabel(l: Labels, v: nat, edges: seq<WeightedEdge>, limit: real, w: nat)
    requires CanRelax(l, v, edges) && RelaxAll(l, v, edges, limit).Labelled?
    requires w < |l.distances| && l.distances[w].Finite?
    requires forall e :: e in edges && e.neighbor == w ==> l.distances[w].value <= l.distances[v].value + e.weight
    ensures SameAt(l, RelaxAll(l, v, edges, limit).labels, w)
    decreases |edges|
  {
    if |edges| > 0 {
      assert edges == edges[..|edges| - 1] + [edges[|edges| - 1]];
      RelaxAllKeepsLabel(l, v, edges[..|edges| - 1], limit, w);
    }
  }

  /** A label that is the distance stays. */
  lemma RoundKeepsLabel(g: WeightedRows, n: nat, start: nat, limit: real, l: Labels, v: nat, next: Labels, w: nat)
    requires GraphOk(g, n) && IsRound(g, n, start, limit, l, v, next)
    requires w < n && l.distances[w].Finite? && AtDistance(g, start, w, l.distances[w].value)
    ensures SameAt(l, next, w)
  {
    CanRelaxSettled(g, n, start, l, v);
    forall e | e in g(v) && e.neighbor == w
      ensures l.distances[w].value <= l.distances[v].value + e.weight
    {
      RouteGrows(g, start, v, l.distances[v].value, e);
    }
    RelaxAllKeepsLabel(Settle(l, v), v, g(v), limit, w);
  }

  lemma {:induction false} RunKeepsLabel(g: WeightedRows, n: nat, start: nat, limit: real, run: Run, i: nat, j: nat,
                                         w: nat)
    requires GraphOk(g, n) && IsRun(g, n, start, limit, run) && i <= j < |run.states| && w < n
    requires run.states[i].Sized(n) && run.states[i].distances[w].Finite?
    requires AtDistance(g, start, w, run.states[i].distances[w].value)
    ensures SameAt(run.states[i], run.states[j], w)
    decreases j
  {
    hide IsRun, IsRound, AtDistance, GraphOk;
    if i < j {
      RunKeepsLabel(g, n, start, limit, run, i, j - 1, w);
      RunRound(g, n, start, limit, run, j - 1);
      RoundKeepsLabel(g, n, start, limit, run.states[j - 1], run.popped[j - 1], run.states[j], w);
    } else {
      StateIsSized(g, n, start, limit, run, i);
    }
  }

  /** The first row to offer a vertex its distance becomes its parent. */
  lemma FirstOfferIsParent(g: WeightedRows, n: nat, start: nat, limit: real, run: Run, rows: seq<SsspRow>, i: nat,
                           j: nat, e: WeightedEdge)
    requires GraphOk(g, n) && IsRun(g, n, start, limit, run) && AreRowsOf(run, rows) && i < j < |rows|
    requires e in g(rows[i].vertex)
    ensures ParentIsFirst(rows, i, j, e)
  {
    var w := run.popped[j];
    if e.neighbor == w && IsSumOf(rows[j], rows[i], e) && rows[j].parent.Parent? {
      if w == start {
        StartIsRoot(g, n, start, limit, run, j);
        assert false;
      }
      var k, f := ParentWasPopped(g, n, start, limit, run, j);
      assert rows[j].parent == Parent(rows[k].vertex);
      if i < k {
        RunKeepsInvariant(g, n, start, limit, run, i);
        RunKeepsInvariant(g, n, start, limit, run, j);
        LabelledBefore(g, n, start, limit, run, i, k, j, e);
        ParentAlreadySet(g, n, start, limit, run, k, j);
      }
    }
  }

  /** A vertex that has its distance before another is popped does not get that one as its parent. */
  lemma ParentAlreadySet(g: WeightedRows, n: nat, start: nat, limit: real, run: Run, k: nat, j: nat)
    requires GraphOk(g, n) && IsRun(g, n, start, limit, run) && k < j < |run.popped| && run.popped[j] != start
    requires run.states[k].Sized(n) && run.states[j].Sized(n) && run.popped[j] < n
    requires run.states[k].distances[run.popped[j]] == run.states[j].distances[run.popped[j]]
    requires run.states[k].distances[run.popped[j]].Finite?
    ensures run.states[j].parents[run.popped[j]] != Parent(run.popped[k])
  {
    var w := run.popped[j];
    RunKeepsInvariant(g, n, start, limit, run, k);
    RunKeepsInvariant(g, n, start, limit, run, j);
    NextIsNearest(g, n, start, run.states[j], w);
    RunKeepsLabel(g, n, start, limit, run, k, j, w);
    assert HasParent(g, start, run.states[k], w);
    assert run.states[k].IsNext(run.popped[k]);
  }

  /** The start is open until it is popped. */
  lemma StartIsOpen(g: WeightedRows, n: nat, start: nat, limit: real, run: Run, i: nat, j: nat)
    requires GraphOk(g, n) && IsRun(g, n, start, limit, run) && i < j < |run.popped| && run.popped[j] == start
    ensures run.states[j].Sized(n) && run.states[i].Open(start)
    ensures run.states[i].distances[start] == Finite(0.0) == run.states[j].distances[start]
  {
    RunKeepsInvariant(g, n, start, limit, run, i);
    RunKeepsInvariant(g, n, start, limit, run, j);
    SettledArePopped(g, n, start, limit, run, i, start);
    if run.states[i].settled[start] {
      var m: nat :| m < i && PoppedAt(run, m, start);
      EarlierIsSettled(g, n, start, limit, run, m, j);
    }
  }

  /** The rows of any run are a shortest-path tree, in the order of distance; ties go to the smaller
      ordinal and to the first parent. */
  lemma RunIsShortestPathTree(g: WeightedRows, n: nat, start: nat, limit: real, run: Run, rows: seq<SsspRow>)
    requires GraphOk(g, n) && IsRun(g, n, start, limit, run) && AreRowsOf(run, rows)
    ensures IsShortestPathTree(g, start, rows)
  {
    forall i: nat | i < |rows|
      ensures rows[i].order == i && AtDistance(g, start, rows[i].vertex, rows[i].distance)
        && IsTreeRow(g, start, rows, i)
    {
      RunKeepsInvariant(g, n, start, limit, run, i);
      NextIsNearest(g, n, start, run.states[i], run.popped[i]);
      RowIsInTree(g, n, start, limit, run, rows, i);
    }
    forall i: nat, j: nat | i < j < |rows|
      ensures rows[i].vertex != rows[j].vertex && rows[i].distance <= rows[j].distance
    {
      RunKeepsInvariant(g, n, start, limit, run, j);
      EarlierIsSettled(g, n, start, limit, run, i, j);
    }
    forall i: nat, j: nat | i < j < |rows|
      ensures TiesInOrder(rows, i, j)
    {
      RowsBreakTies(g, n, start, limit, run, rows, i, j);
    }
    forall i: nat, j: nat, e | i < j < |rows| && e in g(rows[i].vertex)
      ensures ParentIsFirst(rows, i, j, e)
    {
      FirstOfferIsParent(g, n, start, limit, run, rows, i, j, e);
    }
  }

  lemma PoppedInRange(g: WeightedRows, n: nat, start: nat, limit: real, run: Run, i: nat)
    requires GraphOk(g, n) && IsRun(g, n, start, limit, run) && i < |run.popped|
    ensures run.popped[i] < n
  {
    StateIsSized(g, n, start, limit, run, i);
  }

  lemma RowsArePopped(run: Run, rows: seq<SsspRow>, v: nat)
    requires AreRowsOf(run, rows)
    ensures HasRowFor(rows, v) <==> PoppedBefore(run, |run.popped|, v)
  {
    if PoppedBefore(run, |run.popped|, v) {
      var i: nat :| i < |run.popped| && PoppedAt(run, i, v);
      assert rows[i].vertex == v;
    }
    if HasRowFor(rows, v) {
      var i :| 0 <= i < |rows| && rows[i].vertex == v;
      assert PoppedAt(run, i, v);
    }
  }

  /** A run that has relaxed everything and has no open vertex left has a row for exactly the reachable vertices. */
  lemma CompleteRunReachesAll(g: WeightedRows, n: nat, start: nat, limit: real, run: Run, rows: seq<SsspRow>, v: nat)
    requires GraphOk(g, n) && IsRun(g, n, start, limit, run) && AreRowsOf(run, rows)
    requires |run.states| == |run.popped| + 1 && !run.states[|run.popped|].HasOpen()
    ensures HasRowFor(rows, v) <==> Reachable(g, start, v)
  {
    var last := |run.popped|;
    RowsArePopped(run, rows, v);
    RunKeepsInvariant(g, n, start, limit, run, last);
    SettledAreReachable(g, n, start, run.states[last], v);
    if v < n {
      SettledArePopped(g, n, start, limit, run, last, v);
    } else if PoppedBefore(run, last, v) {
      var i: nat :| i < last && PoppedAt(run, i, v);
      PoppedInRange(g, n, start, limit, run, i);
    }
  }

  /** The search is deterministic: a shorter run is the beginning of a longer one. */
  lemma {:induction false} RunsAgree(g: WeightedRows, n: nat, start: nat, limit: real, a: Run, b: Run, i: nat)
    requires GraphOk(g, n) && IsRun(g, n, start, limit, a) && IsRun(g, n, start, limit, b)
    ensures i < |a.states| && i < |b.states| ==> a.states[i] == b.states[i]
    ensures i < |a.popped| && i < |b.popped| ==> a.popped[i] == b.popped[i]
    decreases i
  {
    hide Round, Initial, GraphOk;
    if 0 < i < |a.states| && i < |b.states| {
      RunsAgree(g, n, start, limit, a, b, i - 1);
      assert IsRound(g, n, start, limit, a.states[i - 1], a.popped[i - 1], a.states[i]);
      assert IsRound(g, n, start, limit, b.states[i - 1], b.popped[i - 1], b.states[i]);
    }
    if i < |a.popped| && i < |b.popped| {
      NextIsUnique(a.states[i], a.popped[i], b.popped[i]);
    }
  }

  /** With a target the rows are the beginning of the rows without one. */
  lemma ShorterRunIsPrefix(g: WeightedRows, n: nat, start: nat, limit: real, a: Run, b: Run, rows: seq<SsspRow>,
                           all: seq<SsspRow>)
    requires GraphOk(g, n) && IsRun(g, n, start, limit, a) && IsRun(g, n, start, limit, b)
    requires AreRowsOf(a, rows) && AreRowsOf(b, all) && |rows| <= |all|
    ensures rows == all[..|rows|]
  {
    forall i: nat | i < |rows|
      ensures rows[i] == all[i]
    {
      RunsAgree(g, n, start, limit, a, b, i);
    }
  }

  // ----- how a run grows -----

  ghost predicate Settling(run: Run)
  {
    |run.states| == |run.popped| + 1
  }

  lemma RunPops(g: WeightedRows, n: nat, start: nat, limit: real, run: Run, v: nat)
    requires GraphOk(g, n) && IsRun(g, n, start, limit, run) && Settling(run) && run.states[|run.popped|].IsNext(v)
    ensures IsRun(g, n, start, limit, Run(run.states, run.popped + [v]))
  {
    forall i | 0 <= i < |run.states| - 1
      ensures IsRound(g, n, start, limit, run.states[i], (run.popped + [v])[i], run.states[i + 1])
    {
      assert IsRound(g, n, start, limit, run.states[i], run.popped[i], run.states[i + 1]);
    }
  }

  lemma RowAdded(g: WeightedRows, n: nat, start: nat, limit: real, run: Run, rows: seq<SsspRow>, v: nat)
    requires GraphOk(g, n) && IsRun(g, n, start, limit, run) && Settling(run) && run.states[|run.popped|].IsNext(v)
    requires AreRowsOf(run, rows)
    ensures run.states[|run.popped|].Sized(n) && v < n
    ensures AreRowsOf(Run(run.states, run.popped + [v]), rows + [RowAt(run.states[|run.popped|], v, |rows|)])
  {
    StateIsSized(g, n, start, limit, run, |run.popped|);
    var longer, added := Run(run.states, run.popped + [v]), rows + [RowAt(run.states[|run.popped|], v, |rows|)];
    forall i | 0 <= i < |added|
      ensures longer.states[i].Sized(|longer.states[i].distances|) && longer.states[i].Open(longer.popped[i])
      ensures added[i] == RowAt(longer.states[i], longer.popped[i], i)
    {
      if i < |rows| {
        assert rows[i] == RowAt(run.states[i], run.popped[i], i);
      }
    }
  }

  lemma LastRound(g: WeightedRows, n: nat, start: nat, limit: real, run: Run, v: nat, next: Labels)
    requires GraphOk(g, n) && IsRun(g, n, start, limit, run) && Settling(run) && run.states[|run.popped|].IsNext(v)
    requires CanRelax(Settle(run.states[|run.popped|], v), v, g(v))
    requires RelaxAll(Settle(run.states[|run.popped|], v), v, g(v), limit) == Labelled(next)
    ensures IsRound(g, n, start, limit, run.states[|run.popped|], v, next)
  {
    RunKeepsInvariant(g, n, start, limit, run, |run.popped|);
    hide IsRun, Inv, GraphOk;
  }

  lemma RunRounds(g: WeightedRows, n: nat, start: nat, limit: real, run: Run, v: nat, next: Labels)
    requires GraphOk(g, n) && IsRun(g, n, start, limit, run) && Settling(run) && run.states[|run.popped|].IsNext(v)
    requires CanRelax(Settle(run.states[|run.popped|], v), v, g(v))
    requires RelaxAll(Settle(run.states[|run.popped|], v), v, g(v), limit) == Labelled(next)
    ensures IsRun(g, n, start, limit, Run(run.states + [next], run.popped + [v]))
  {
    hide GraphOk, IsRound, CanRelax, RelaxAll, Settle, Initial, Labels.IsNext;
    LastRound(g, n, start, limit, run, v, next);
    var longer := Run(run.states + [next], run.popped + [v]);
    forall i | 0 <= i < |longer.popped|
      ensures longer.states[i].IsNext(longer.popped[i])
      ensures IsRound(g, n, start, limit, longer.states[i], longer.popped[i], longer.states[i + 1])
    {
      if i < |run.popped| {
        RunRound(g, n, start, limit, run, i);
        assert run.states[i].IsNext(run.popped[i]);
      }
    }
  }

  lemma RowsKept(run: Run, rows: seq<SsspRow>, next: Labels)
    requires AreRowsOf(run, rows)
    ensures AreRowsOf(Run(run.states + [next], run.popped), rows)
  {
    forall i | 0 <= i < |rows|
      ensures (run.states + [next])[i] == run.states[i]
    {
    }
  }

  lemma RelaxAllNext(l: Labels, v: nat, edges: seq<WeightedEdge>, i: nat, limit: real)
    requires CanRelax(l, v, edges) && i < |edges| && RelaxAll(l, v, edges[..i], limit).Labelled?
    ensures CanRelax(l, v, edges[..i]) && CanRelax(l, v, edges[..i + 1])
    ensures var r := RelaxAll(l, v, edges[..i], limit).labels;
      && CanRelax(r, v, edges[..i]) && edges[i].neighbor < |r.distances|
      && RelaxAll(l, v, edges[..i + 1], limit) ==
         if Overflows(r, v, edges[i], limit) then Overflow else Labelled(Relax(r, v, edges[i]))
  {
    assert edges[..i + 1][..i] == edges[..i];
  }

  /** An overflow at some edge is an overflow of the whole round. */
  lemma {:induction false} OverflowStays(l: Labels, v: nat, edges: seq<WeightedEdge>, i: nat, limit: real)
    requires CanRelax(l, v, edges) && i <= |edges| && RelaxAll(l, v, edges[..i], limit) == Overflow
    ensures RelaxAll(l, v, edges, limit) == Overflow
    decreases |edges|
  {
    if i < |edges| {
      var init := edges[..|edges| - 1];
      assert init[..i] == edges[..i];
      OverflowStays(l, v, init, i, limit);
    } else {
      assert edges[..i] == edges;
    }
  }
}
