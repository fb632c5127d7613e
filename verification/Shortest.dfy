/** Any shortest path: the least length of a walk to each vertex, with a targeted form and a memo. */
module Shortest {
  import opened Sequences
  import opened Traversal
  import opened Walks

  // ----- the visited set -----

  /** A set larger than this moves to a bitmap. */
  const MAX_SPARSE: nat := 16384

  class VisitedSet {
    const vertexCount: nat
    var sparse: set<nat>
    var dense: seq<bool>

    ghost predicate Valid()
      reads this
    {
      && (|dense| == 0 || (|dense| == vertexCount && sparse == {}))
      && forall v :: v in sparse ==> v < vertexCount
    }

    /** The plain set that this stands for. */
    ghost function Contents(): set<nat>
      reads this
    {
      if |dense| == 0 then sparse else set v: nat | v < |dense| && dense[v]
    }

    constructor (vertexCount: nat)
      ensures Valid() && Contents() == {} && this.vertexCount == vertexCount
    {
      this.vertexCount, sparse, dense := vertexCount, {}, [];
    }

    predicate Contains(ordinal: nat)
      requires Valid()
      reads this
      ensures Contains(ordinal) <==> ordinal in Contents()
    {
      if |dense| == 0 then ordinal in sparse else ordinal < |dense| && dense[ordinal]
    }

    /** Adds a vertex and tells whether it was absent. */
    method Insert(ordinal: nat) returns (absent: bool)
      requires Valid() && ordinal < vertexCount
      modifies this
      ensures Valid() && Contents() == old(Contents()) + {ordinal}
      ensures absent <==> ordinal !in old(Contents())
    {
      if |dense| > 0 {
        if dense[ordinal] {
          return false;
        }
        dense := dense[ordinal := true];
        return true;
      }
      if ordinal in sparse {
        return false;
      }
      sparse := sparse + {ordinal};
      if |sparse| > MAX_SPARSE {
        dense := Bitmap(vertexCount, sparse);
        sparse := {};
      }
      return true;
    }

    method Clear()
      requires Valid()
      modifies this
      ensures Valid() && Contents() == {}
    {
      sparse := {};
      dense := seq(|dense|, _ => false);
    }
  }

  function Bitmap(count: nat, entries: set<nat>): (dense: seq<bool>)
    ensures |dense| == count && forall v: nat :: v < count ==> (dense[v] <==> v in entries)
  {
    seq(count, v requires 0 <= v < count => v in entries)
  }

  // ----- levels -----

  /** The least length that a search may report. */
  function Least(minimum: nat): nat
  {
    if minimum == 0 then 1 else minimum
  }

  /** Below the least length a level holds every vertex with a walk of its length, from it on those
      that no shorter allowed walk reaches. */
  ghost predicate OnLevel(a: Arcs, start: nat, v: nat, minimum: nat, k: nat)
  {
    if k < Least(minimum) then HasWalk(a, start, v, k) else IsLeast(a, start, v, Least(minimum), k)
  }

  ghost predicate LeadsFrom(rows: Rows, frontier: seq<nat>, v: nat)
  {
    exists i :: 0 <= i < |frontier| && LeadsTo(rows(frontier[i]), v)
  }

  ghost predicate FrontierIs(frontier: seq<nat>, a: Arcs, start: nat, minimum: nat, k: nat)
  {
    forall v: nat :: v in frontier <==> OnLevel(a, start, v, minimum, k)
  }

  ghost predicate SettledIs(settled: set<nat>, a: Arcs, start: nat, minimum: nat, k: nat)
  {
    forall v: nat :: v in settled <==> HasWalkWithin(a, start, v, Least(minimum), k)
  }

  lemma OnLevelHasWalk(a: Arcs, start: nat, v: nat, minimum: nat, k: nat)
    requires OnLevel(a, start, v, minimum, k)
    ensures HasWalk(a, start, v, k)
  {
  }

  /** The vertex before the end of a walk on some level is on the level below. */
  lemma BeforeOnLevel(a: Arcs, start: nat, u: nat, v: nat, minimum: nat, k: nat)
    requires OnLevel(a, start, v, minimum, k + 1) && HasWalk(a, start, u, k) && (u, v) in a
    ensures OnLevel(a, start, u, minimum, k)
  {
    forall j | Least(minimum) <= j < k
      ensures !HasWalk(a, start, u, j)
    {
      if HasWalk(a, start, u, j) {
        assert HasWalk(a, start, v, j + 1);
      }
    }
  }

  /** The next level: what the frontier leads to and is not settled yet. */
  lemma NextLevel(rows: Rows, a: Arcs, start: nat, minimum: nat, k: nat, frontier: seq<nat>, settled: set<nat>, v: nat)
    requires ArcsOf(a, rows) && FrontierIs(frontier, a, start, minimum, k) && SettledIs(settled, a, start, minimum, k)
    ensures v !in settled && LeadsFrom(rows, frontier, v) <==> OnLevel(a, start, v, minimum, k + 1)
  {
    if v !in settled && LeadsFrom(rows, frontier, v) {
      var i :| 0 <= i < |frontier| && LeadsTo(rows(frontier[i]), v);
      assert frontier[i] in frontier;
      OnLevelHasWalk(a, start, frontier[i], minimum, k);
      assert (frontier[i], v) in a && HasWalk(a, start, v, k + 1);
      NotWithin(a, start, v, minimum, k);
    }
    if OnLevel(a, start, v, minimum, k + 1) {
      OnLevelHasWalk(a, start, v, minimum, k + 1);
      var u: nat :| HasWalk(a, start, u, k) && (u, v) in a;
      BeforeOnLevel(a, start, u, v, minimum, k);
      assert u in frontier;
      var i :| 0 <= i < |frontier| && frontier[i] == u;
      assert LeadsTo(rows(frontier[i]), v);
      assert !HasWalkWithin(a, start, v, Least(minimum), k);
    }
  }

  lemma NotWithin(a: Arcs, start: nat, v: nat, minimum: nat, k: nat)
    requires !HasWalkWithin(a, start, v, Least(minimum), k)
    ensures forall j :: Least(minimum) <= j < k + 1 ==> !HasWalk(a, start, v, j)
  {
  }

  lemma SettledNext(a: Arcs, start: nat, v: nat, minimum: nat, k: nat)
    ensures HasWalkWithin(a, start, v, Least(minimum), k + 1) <==>
            HasWalkWithin(a, start, v, Least(minimum), k)
                || (k + 1 >= Least(minimum) && OnLevel(a, start, v, minimum, k + 1))
  {
    if HasWalkWithin(a, start, v, Least(minimum), k + 1) && !HasWalkWithin(a, start, v, Least(minimum), k) {
      var j :| Least(minimum) <= j <= k + 1 && HasWalk(a, start, v, j);
      NotWithin(a, start, v, minimum, k);
    }
    if HasWalkWithin(a, start, v, Least(minimum), k) {
      var j :| Least(minimum) <= j <= k && HasWalk(a, start, v, j);
      assert Least(minimum) <= j <= k + 1;
    }
  }

  // ----- termination -----

  /** From the least length on every nonempty level has a vertex of its own. */
  lemma {:induction false} LevelsTake(a: Arcs, start: nat, v: nat, minimum: nat, k: nat) returns (taken: set<nat>)
    requires k >= Least(minimum) && OnLevel(a, start, v, minimum, k)
    ensures |taken| == k - Least(minimum) + 1 && taken <= Entered(a)
    ensures forall u :: u in taken ==> exists j :: Least(minimum) <= j <= k && OnLevel(a, start, u, minimum, j)
    decreases k
  {
    var u: nat :| HasWalk(a, start, u, k - 1) && (u, v) in a;
    if k == Least(minimum) {
      return {v};
    }
    BeforeOnLevel(a, start, u, v, minimum, k - 1);
    var rest := LevelsTake(a, start, u, minimum, k - 1);
    assert v !in rest;
    taken := rest + {v};
  }

  /** An unbounded search ends: no level is nonempty beyond this depth. */
  lemma DepthIsBounded(a: Arcs, start: nat, minimum: nat, frontier: seq<nat>, k: nat)
    requires FrontierIs(frontier, a, start, minimum, k) && frontier != []
    ensures k <= Least(minimum) + |Entered(a)|
  {
    if k >= Least(minimum) {
      assert frontier[0] in frontier;
      var taken := LevelsTake(a, start, frontier[0], minimum, k);
      SubsetIsNoLarger(taken, Entered(a));
    }
  }

  // ----- the rows -----

  datatype Bounds = Bounds(minimum: nat, maximum: nat, unbounded: bool)
  {
    predicate Allows(k: nat)
    {
      unbounded || k <= maximum
    }
  }

  datatype Target = NoTarget | Target(vertex: nat)

  /** The length reported for a vertex: the least length of a walk that has at least the minimum of arcs,
      or one arc where the minimum is 0, if that is within the maximum. */
  ghost predicate IsAnswer(a: Arcs, start: nat, b: Bounds, v: nat, k: nat)
  {
    && (b.unbounded || k <= b.maximum)
    && (if b.minimum == 0 then IsLeast(a, start, v, 1, k) else IsLeast(a, start, v, b.minimum, k))
  }

  ghost predicate VerticesDiffer(reached: seq<(nat, nat)>)
  {
    forall i, j :: 0 <= i < j < |reached| ==> reached[i].0 != reached[j].0
  }

  /** All answers of lengths up to `depth`, each vertex once. */
  ghost predicate ReachedIs(reached: seq<(nat, nat)>, a: Arcs, start: nat, b: Bounds, depth: nat)
  {
    && VerticesDiffer(reached)
    && forall v: nat, k: nat :: (v, k) in reached <==> k <= depth && IsAnswer(a, start, b, v, k)
  }

  function AtDepth(vertices: seq<nat>, depth: nat): (r: seq<(nat, nat)>)
    ensures |r| == |vertices| && forall i :: 0 <= i < |r| ==> r[i] == (vertices[i], depth)
  {
    seq(|vertices|, i requires 0 <= i < |vertices| => (vertices[i], depth))
  }

  lemma InAtDepth(vertices: seq<nat>, depth: nat, v: nat, k: nat)
    ensures (v, k) in AtDepth(vertices, depth) <==> v in vertices && k == depth
  {
    var r := AtDepth(vertices, depth);
    if v in vertices && k == depth {
      var i :| 0 <= i < |vertices| && vertices[i] == v;
      assert r[i] == (v, k);
    }
  }

  /** One more level of answers. */
  lemma ReachedNext(reached: seq<(nat, nat)>, a: Arcs, start: nat, b: Bounds, depth: nat, next: seq<nat>)
    requires ReachedIs(reached, a, start, b, depth) && FrontierIs(next, a, start, b.minimum, depth + 1)
      && Distinct(next)
    requires b.Allows(depth + 1)
    ensures depth + 1 >= Least(b.minimum) ==> ReachedIs(reached + AtDepth(next, depth + 1), a, start, b, depth + 1)
    ensures depth + 1 < Least(b.minimum) ==> ReachedIs(reached, a, start, b, depth + 1)
  {
    var more := AtDepth(next, depth + 1);
    if depth + 1 >= Least(b.minimum) {
      forall v: nat, k: nat
        ensures (v, k) in reached + more <==> k <= depth + 1 && IsAnswer(a, start, b, v, k)
      {
        InAtDepth(next, depth + 1, v, k);
        assert (v, k) in reached + more <==> (v, k) in reached || (v, k) in more;
      }
      forall i, j | 0 <= i < j < |reached + more|
        ensures (reached + more)[i].0 != (reached + more)[j].0
      {
        if i < |reached| <= j {
          assert reached[i] in reached;
          assert next[j - |reached|] in next;
        }
      }
    }
  }

  // ----- visiting one level -----

  /** What the part of a level visited so far leads to. */
  ghost predicate Met(rows: Rows, frontier: seq<nat>, edges: seq<Edge>, v: nat)
  {
    LeadsFrom(rows, frontier, v) || LeadsTo(edges, v)
  }

  ghost predicate NextIs(next: seq<nat>, level: set<nat>, rows: Rows, settled: set<nat>, frontier: seq<nat>,
                         edges: seq<Edge>)
  {
    && Distinct(next)
    && forall v: nat :: (v in next <==> v !in settled && Met(rows, frontier, edges, v)) && (v in level <==> v in next)
  }

  lemma MetNext(rows: Rows, frontier: seq<nat>, edges: seq<Edge>, i: nat, v: nat)
    requires i < |edges|
    ensures Met(rows, frontier, edges[..i + 1], v) <==> Met(rows, frontier, edges[..i], v) || v == edges[i].neighbor
  {
    assert edges[..i + 1] == edges[..i] + [edges[i]];
    if v == edges[i].neighbor {
      assert edges[i] in edges[..i + 1];
    }
  }

  lemma MetRow(rows: Rows, frontier: seq<nat>, u: nat, v: nat)
    ensures Met(rows, frontier, rows(u), v) <==> Met(rows, frontier + [u], [], v)
  {
    if LeadsTo(rows(u), v) {
      assert (frontier + [u])[|frontier|] == u;
    }
    if LeadsFrom(rows, frontier, v) {
      var i :| 0 <= i < |frontier| && LeadsTo(rows(frontier[i]), v);
      assert (frontier + [u])[i] == frontier[i];
    }
  }

  /** One neighbour that is neither settled nor on the level yet joins the level. */
  lemma NextGrows(next: seq<nat>, level: set<nat>, rows: Rows, settled: set<nat>, frontier: seq<nat>, edges: seq<Edge>,
                  i: nat)
    requires i < |edges| && NextIs(next, level, rows, settled, frontier, edges[..i])
    ensures var v := edges[i].neighbor;
      NextIs(if v in settled || v in level then next else next + [v], if v in settled then level else level + {v},
             rows, settled, frontier, edges[..i + 1])
  {
    var w := edges[i].neighbor;
    var longer := if w in settled || w in level then next else next + [w];
    forall v: nat
      ensures v in longer <==> v !in settled && Met(rows, frontier, edges[..i + 1], v)
    {
      MetNext(rows, frontier, edges, i, v);
    }
  }

  lemma NextMoves(next: seq<nat>, level: set<nat>, rows: Rows, settled: set<nat>, frontier: seq<nat>, u: nat)
    requires NextIs(next, level, rows, settled, frontier, rows(u))
    ensures NextIs(next, level, rows, settled, frontier + [u], [])
  {
    forall v: nat
      ensures Met(rows, frontier, rows(u), v) <==> Met(rows, frontier + [u], [], v)
    {
      MetRow(rows, frontier, u, v);
    }
  }

  /** Every edge stays among the vertices of the snapshot and its delta. */
  ghost predicate EndsInside(rows: Rows, count: nat)
  {
    forall u: nat, e :: e in rows(u) ==> e.neighbor < count
  }

  /** The part of a level visited before the search stops at its target. */
  ghost predicate StopsAt(rows: Rows, settled: set<nat>, frontier: seq<nat>, target: nat)
  {
    target !in settled && LeadsFrom(rows, frontier, target)
  }

  method VisitVertex(g: View, edgeLabel: nat, ghost rows: Rows, u: nat, settled: VisitedSet, level: VisitedSet,
                     next: seq<nat>,
                     stopAt: Target, ghost frontier: seq<nat>)
    returns (longer: seq<nat>, found: bool)
    requires g.Valid() && rows == Labelled(g, edgeLabel) && EndsInside(rows, settled.vertexCount)
    requires settled != level && settled.Valid() && level.Valid() && level.vertexCount == settled.vertexCount
    requires NextIs(next, level.Contents(), rows, settled.Contents(), frontier, [])
    modifies level
    ensures level.Valid()
    ensures found ==> stopAt.Target? && StopsAt(rows, settled.Contents(), frontier + [u], stopAt.vertex)
    ensures !found ==> NextIs(longer, level.Contents(), rows, settled.Contents(), frontier + [u], [])
    ensures !found && stopAt.Target? && stopAt.vertex !in next ==> stopAt.vertex !in longer
  {
    hide NextIs, StopsAt;
    var edges := EdgesOf(g, u, edgeLabel);
    longer, found := next, false;
    var i: nat := 0;
    assert edges[..0] == [];
    while i < |edges|
      invariant i <= |edges| && settled.Valid() && level.Valid()
      invariant NextIs(longer, level.Contents(), rows, settled.Contents(), frontier, edges[..i])
      invariant stopAt.Target? && stopAt.vertex !in next ==> stopAt.vertex !in longer
    {
      var neighbor := edges[i].neighbor;
      assert edges[i] in rows(u);
      NextGrows(longer, level.Contents(), rows, settled.Contents(), frontier, edges, i);
      if !settled.Contains(neighbor) {
        var absent := level.Insert(neighbor);
        if absent {
          longer := longer + [neighbor];
          if stopAt == Target(neighbor) {
            LeadsToLast(rows, settled.Contents(), frontier, u, neighbor);
            return longer, true;
          }
        }
      }
      i := i + 1;
    }
    assert edges[..i] == edges;
    NextMoves(longer, level.Contents(), rows, settled.Contents(), frontier, u);
  }

  lemma LeadsToLast(rows: Rows, settled: set<nat>, frontier: seq<nat>, u: nat, v: nat)
    requires v !in settled && LeadsTo(rows(u), v)
    ensures StopsAt(rows, settled, frontier + [u], v)
  {
    assert (frontier + [u])[|frontier|] == u;
  }

  method VisitLevel(g: View, edgeLabel: nat, ghost rows: Rows, frontier: seq<nat>, settled: VisitedSet,
                    level: VisitedSet, stopAt: Target)
    returns (next: seq<nat>, found: bool)
    requires g.Valid() && rows == Labelled(g, edgeLabel) && EndsInside(rows, settled.vertexCount)
    requires settled != level && settled.Valid() && level.Valid() && level.vertexCount == settled.vertexCount
    modifies level
    ensures level.Valid()
    ensures found ==> stopAt.Target? && StopsAt(rows, settled.Contents(), frontier, stopAt.vertex)
    ensures !found ==> NextIs(next, level.Contents(), rows, settled.Contents(), frontier, [])
    ensures !found && stopAt.Target? ==> stopAt.vertex !in next
  {
    level.Clear();
    next, found := [], false;
    NothingNext(rows, settled.Contents());
    hide NextIs;
    var i: nat := 0;
    while i < |frontier|
      invariant i <= |frontier| && settled.Valid() && level.Valid()
      invariant NextIs(next, level.Contents(), rows, settled.Contents(), frontier[..i], [])
      invariant stopAt.Target? ==> stopAt.vertex !in next
    {
      assert frontier[..i + 1] == frontier[..i] + [frontier[i]];
      next, found := VisitVertex(g, edgeLabel, rows, frontier[i], settled, level, next, stopAt, frontier[..i]);
      if found {
        StopsEarly(rows, settled.Contents(), frontier, i + 1, stopAt.vertex);
        return;
      }
      i := i + 1;
    }
    assert frontier[..i] == frontier;
  }

  lemma NothingNext(rows: Rows, settled: set<nat>)
    ensures NextIs([], {}, rows, settled, [], [])
  {
  }

  lemma StopsEarly(rows: Rows, settled: set<nat>, frontier: seq<nat>, m: nat, target: nat)
    requires m <= |frontier| && StopsAt(rows, settled, frontier[..m], target)
    ensures StopsAt(rows, settled, frontier, target)
  {
    var i :| 0 <= i < m && LeadsTo(rows(frontier[..m][i]), target);
    assert frontier[..m][i] == frontier[i];
  }

  /** Settles a level. */
  method SettleLevel(settled: VisitedSet, next: seq<nat>)
    requires settled.Valid() && forall v :: v in next ==> v < settled.vertexCount
    modifies settled
    ensures settled.Valid() && forall v :: v in settled.Contents() <==> v in old(settled.Contents()) || v in next
  {
    var i: nat := 0;
    while i < |next|
      invariant i <= |next| && settled.Valid()
      invariant forall v :: v in settled.Contents() <==> v in old(settled.Contents()) || v in next[..i]
    {
      assert next[..i + 1] == next[..i] + [next[i]];
      assert next[i] in next;
      var absent := settled.Insert(next[i]);
      i := i + 1;
    }
    assert next[..i] == next;
  }

  // ----- the search -----

  /** Where a search stands after the levels up to `depth`. */
  ghost predicate Searching(a: Arcs, start: nat, b: Bounds, target: Target, settled: set<nat>, frontier: seq<nat>,
                            depth: nat,
                            reached: seq<(nat, nat)>)
  {
    && FrontierIs(frontier, a, start, b.minimum, depth) && SettledIs(settled, a, start, b.minimum, depth)
    && (depth > 0 ==> b.Allows(depth))
    && (if target.Target? then reached == [] && target.vertex !in settled else ReachedIs(reached, a, start, b, depth))
  }

  /** The rows of a search: all answers, or the target's alone. */
  ghost predicate IsResult(a: Arcs, start: nat, b: Bounds, target: Target, reached: seq<(nat, nat)>)
  {
    && VerticesDiffer(reached)
    && forall v: nat, k: nat :: (v, k) in reached <==>
         IsAnswer(a, start, b, v, k) && (target.Target? ==> v == target.vertex)
  }

  lemma SearchStarts(a: Arcs, start: nat, b: Bounds, target: Target)
    ensures Searching(a, start, b, target, {}, [start], 0, [])
  {
    assert HasWalk(a, start, start, 0);
  }

  lemma TargetFound(rows: Rows, a: Arcs, start: nat, b: Bounds, target: nat, settled: set<nat>, frontier: seq<nat>,
                    depth: nat)
    requires ArcsOf(a, rows) && Searching(a, start, b, Target(target), settled, frontier, depth, [])
    requires StopsAt(rows, settled, frontier, target) && depth + 1 >= Least(b.minimum) && b.Allows(depth + 1)
    ensures IsResult(a, start, b, Target(target), [(target, depth + 1)])
  {
    NextLevel(rows, a, start, b.minimum, depth, frontier, settled, target);
    forall k: nat | IsAnswer(a, start, b, target, k)
      ensures k == depth + 1
    {
      LeastIsUnique(a, start, target, Least(b.minimum), k, depth + 1);
    }
  }

  lemma SearchGoesOn(rows: Rows, a: Arcs, start: nat, b: Bounds, target: Target, settled: set<nat>, frontier: seq<nat>,
                     depth: nat,
                     reached: seq<(nat, nat)>, next: seq<nat>, level: set<nat>, settled': set<nat>,
                         reached': seq<(nat, nat)>)
    requires ArcsOf(a, rows) && Searching(a, start, b, target, settled, frontier, depth, reached) && b.Allows(depth + 1)
    requires NextIs(next, level, rows, settled, frontier, [])
    requires target.Target? && depth + 1 >= Least(b.minimum) ==> target.vertex !in next
    requires forall v: nat :: v in settled' <==> v in settled || (depth + 1 >= Least(b.minimum) && v in next)
    requires reached' == if target.NoTarget? && depth + 1 >= Least(b.minimum) then reached + AtDepth(next, depth + 1)
      else reached
    ensures Searching(a, start, b, target, settled', next, depth + 1, reached')
  {
    LevelIsNext(rows, a, start, b.minimum, depth, frontier, settled, next, level);
    forall v: nat
      ensures v in settled' <==> HasWalkWithin(a, start, v, Least(b.minimum), depth + 1)
    {
      SettledNext(a, start, v, b.minimum, depth);
    }
    if target.NoTarget? {
      ReachedNext(reached, a, start, b, depth, next);
    }
  }

  lemma LevelIsNext(rows: Rows, a: Arcs, start: nat, minimum: nat, k: nat, frontier: seq<nat>, settled: set<nat>,
                    next: seq<nat>, level: set<nat>)
    requires ArcsOf(a, rows) && FrontierIs(frontier, a, start, minimum, k) && SettledIs(settled, a, start, minimum, k)
    requires NextIs(next, level, rows, settled, frontier, [])
    ensures FrontierIs(next, a, start, minimum, k + 1) && Distinct(next)
  {
    forall v: nat
      ensures v in next <==> OnLevel(a, start, v, minimum, k + 1)
    {
      NextLevel(rows, a, start, minimum, k, frontier, settled, v);
      assert !LeadsTo([], v);
    }
  }

  /** A search that has run out of vertices or of depth has every answer. */
  lemma SearchEnds(a: Arcs, start: nat, b: Bounds, target: Target, settled: set<nat>, frontier: seq<nat>, depth: nat,
                   reached: seq<(nat, nat)>)
    requires Searching(a, start, b, target, settled, frontier, depth, reached)
      && (frontier == [] || !b.Allows(depth + 1))
    ensures IsResult(a, start, b, target, reached)
  {
    forall v: nat, k: nat | IsAnswer(a, start, b, v, k)
      ensures k <= depth
    {
      if k > depth && frontier == [] {
        LevelBelow(a, start, v, b.minimum, k, depth);
      }
    }
    if target.Target? {
      forall k: nat
        ensures !IsAnswer(a, start, b, target.vertex, k)
      {
        assert !HasWalkWithin(a, start, target.vertex, Least(b.minimum), depth);
      }
    }
  }

  /** Levels have no gaps. */
  lemma {:induction false} LevelBelow(a: Arcs, start: nat, v: nat, minimum: nat, k: nat, depth: nat)
    requires OnLevel(a, start, v, minimum, k) && depth <= k
    ensures exists u: nat :: OnLevel(a, start, u, minimum, depth)
    decreases k
  {
    if depth < k {
      OnLevelHasWalk(a, start, v, minimum, k);
      var u: nat :| HasWalk(a, start, u, k - 1) && (u, v) in a;
      BeforeOnLevel(a, start, u, v, minimum, k - 1);
      LevelBelow(a, start, u, minimum, k - 1, depth);
    }
  }

  lemma NextInside(rows: Rows, count: nat, next: seq<nat>, level: set<nat>, settled: set<nat>, frontier: seq<nat>)
    requires EndsInside(rows, count) && NextIs(next, level, rows, settled, frontier, [])
    ensures forall v :: v in next ==> v < count
  {
    forall v | v in next
      ensures v < count
    {
      assert Met(rows, frontier, [], v);
      var i :| 0 <= i < |frontier| && LeadsTo(rows(frontier[i]), v);
      var e :| e in rows(frontier[i]) && e.neighbor == v;
    }
  }

  /** One level of the search. */
  method SearchLevel(g: View, edgeLabel: nat, ghost rows: Rows, ghost a: Arcs, start: nat, b: Bounds, target: Target,
                     settled: VisitedSet, level: VisitedSet, frontier: seq<nat>, depth: nat, reached: seq<(nat, nat)>)
    returns (next: seq<nat>, reached': seq<(nat, nat)>, found: bool)
    requires g.Valid() && rows == Labelled(g, edgeLabel) && ArcsOf(a, rows) && EndsInside(rows, settled.vertexCount)
    requires settled != level && settled.Valid() && level.Valid() && level.vertexCount == settled.vertexCount
    requires Searching(a, start, b, target, settled.Contents(), frontier, depth, reached) && b.Allows(depth + 1)
    modifies settled, level
    ensures settled.Valid() && level.Valid()
    ensures found ==> IsResult(a, start, b, target, reached')
    ensures !found ==> Searching(a, start, b, target, settled.Contents(), next, depth + 1, reached')
    ensures !found && next != [] ==> depth + 1 <= Least(b.minimum) + |Entered(a)|
  {
    hide ArcsOf, IsResult, NextIs, StopsAt, FrontierIs, SettledIs, ReachedIs, EndsInside;
    reached' := reached;
    ghost var before := settled.Contents();
    var stopAt := if depth + 1 >= b.minimum then target else NoTarget;
    next, found := VisitLevel(g, edgeLabel, rows, frontier, settled, level, stopAt);
    if found {
      reached' := [(target.vertex, depth + 1)];
      TargetFound(rows, a, start, b, target.vertex, before, frontier, depth);
      return;
    }
    NextInside(rows, settled.vertexCount, next, level.Contents(), before, frontier);
    ghost var met := level.Contents();
    if depth + 1 >= b.minimum {
      if target.NoTarget? {
        reached' := reached + AtDepth(next, depth + 1);
      }
      SettleLevel(settled, next);
    }
    SearchGoesOn(rows, a, start, b, target, before, frontier, depth, reached, next, met, settled.Contents(), reached');
    if next != [] {
      DepthIsBounded(a, start, b.minimum, next, depth + 1);
    }
  }

  /** Levels of the search until it finds its target, runs dry or reaches its maximum. */
  method SearchFrom(g: View, edgeLabel: nat, start: nat, b: Bounds, target: Target,
                    vertexCount: nat)
    returns (reached: seq<(nat, nat)>)
    requires g.Valid() && EndsInside(Labelled(g, edgeLabel), vertexCount)
    ensures IsResult(LabelArcs(g, edgeLabel), start, b, target, reached)
  {
    ghost var rows, a := Labelled(g, edgeLabel), LabelArcs(g, edgeLabel);
    hide LabelArcs, EndsInside, IsResult, Searching;
    var settled := new VisitedSet(vertexCount);
    var level := new VisitedSet(vertexCount);
    var frontier, depth: nat := [start], 0;
    reached := [];
    SearchStarts(a, start, b, target);
    while frontier != [] && b.Allows(depth + 1)
      invariant settled.Valid() && level.Valid() && fresh(settled) && fresh(level)
      invariant Searching(a, start, b, target, settled.Contents(), frontier, depth, reached)
      invariant frontier != [] ==> depth <= Least(b.minimum) + |Entered(a)|
      decreases Least(b.minimum) + |Entered(a)| + 1 - depth
    {
      var found;
      frontier, reached, found :=
        SearchLevel(g, edgeLabel, rows, a, start, b, target, settled, level, frontier, depth, reached);
      if found {
        return;
      }
      depth := depth + 1;
    }
    SearchEnds(a, start, b, target, settled.Contents(), frontier, depth, reached);
  }

  // ----- the memo -----

  /** The lengths of a full search as a lookup table. */
  ghost predicate Tabulates(distances: map<nat, nat>, a: Arcs, start: nat, b: Bounds)
  {
    forall v: nat, k: nat :: (v in distances && distances[v] == k) <==> IsAnswer(a, start, b, v, k)
  }

  lemma TableOfResult(distances: map<nat, nat>, reached: seq<(nat, nat)>, a: Arcs, start: nat, b: Bounds)
    requires IsResult(a, start, b, NoTarget, reached)
    requires forall v: nat :: v in distances <==> exists i :: 0 <= i < |reached| && reached[i].0 == v
    requires forall i :: 0 <= i < |reached| ==> reached[i].0 in distances && distances[reached[i].0] == reached[i].1
    ensures Tabulates(distances, a, start, b)
  {
    forall v: nat, k: nat
      ensures (v in distances && distances[v] == k) <==> IsAnswer(a, start, b, v, k)
    {
      if v in distances && distances[v] == k {
        var i :| 0 <= i < |reached| && reached[i].0 == v;
        assert reached[i] == (v, k) && (v, k) in reached;
      }
      if IsAnswer(a, start, b, v, k) {
        assert (v, k) in reached;
        var i :| 0 <= i < |reached| && reached[i] == (v, k);
      }
    }
  }

  /** A lookup answers for one target what a search for it would. */
  lemma LookupIsResult(distances: map<nat, nat>, a: Arcs, start: nat, b: Bounds, target: nat)
    requires Tabulates(distances, a, start, b)
    ensures IsResult(a, start, b, Target(target), if target in distances then [(target, distances[target])] else [])
  {
    forall k: nat
      ensures IsAnswer(a, start, b, target, k) <==> target in distances && distances[target] == k
    {
    }
  }

  /** One operator: label, direction and bounds stay the same over its input rows. */
  class ShortestOperator {
    const view: View
    const edgeLabel: nat
    const bounds: Bounds
    const vertexCount: nat
    var targetedStart: Target
    var distancesStart: Target
    var distances: map<nat, nat>

    ghost predicate Valid()
      reads this
    {
      && view.Valid() && EndsInside(Labelled(view, edgeLabel), vertexCount)
      && (distancesStart.Target? ==> Tabulates(distances, LabelArcs(view, edgeLabel), distancesStart.vertex, bounds))
    }

    constructor (view: View, edgeLabel: nat, bounds: Bounds, vertexCount: nat)
      requires view.Valid() && EndsInside(Labelled(view, edgeLabel), vertexCount)
      ensures Valid() && this.view == view && this.edgeLabel == edgeLabel && this.bounds == bounds
    {
      this.view, this.edgeLabel, this.bounds, this.vertexCount := view, edgeLabel, bounds, vertexCount;
      targetedStart, distancesStart, distances := NoTarget, NoTarget, map[];
    }

    /** The answers for one input row.  A second target from one start turns into a full search, whose
        distances answer the targets after it. */
    method Search(start: nat, target: Target) returns (reached: seq<(nat, nat)>)
      requires Valid()
      modifies this
      ensures Valid() && IsResult(LabelArcs(view, edgeLabel), start, bounds, target, reached)
    {
      hide Tabulates, LabelArcs, EndsInside, IsResult;
      if target.Target? && distancesStart == Target(start) {
        LookupIsResult(distances, LabelArcs(view, edgeLabel), start, bounds, target.vertex);
        return if target.vertex in distances then [(target.vertex, distances[target.vertex])] else [];
      }
      var wanted := if target.Target? && targetedStart == Target(start) then NoTarget else target;
      targetedStart := Target(start);
      reached := SearchFrom(view, edgeLabel, start, bounds, wanted, vertexCount);
      if target.Target? && wanted.NoTarget? {
        distances := Tabulate(reached, LabelArcs(view, edgeLabel), start, bounds);
        distancesStart := Target(start);
        LookupIsResult(distances, LabelArcs(view, edgeLabel), start, bounds, target.vertex);
        reached := if target.vertex in distances then [(target.vertex, distances[target.vertex])] else [];
      }
    }
  }

  method Tabulate(reached: seq<(nat, nat)>, ghost a: Arcs, ghost start: nat,
                  ghost b: Bounds)
    returns (distances: map<nat, nat>)
    requires IsResult(a, start, b, NoTarget, reached)
    ensures Tabulates(distances, a, start, b)
  {
    distances := map[];
    var i: nat := 0;
    while i < |reached|
      invariant i <= |reached|
      invariant forall v: nat :: v in distances <==> exists j :: 0 <= j < i && reached[j].0 == v
      invariant forall j :: 0 <= j < i ==> reached[j].0 in distances && distances[reached[j].0] == reached[j].1
    {
      distances := distances[reached[i].0 := reached[i].1];
      i := i + 1;
    }
    TableOfResult(distances, reached, a, start, b);
  }
}
