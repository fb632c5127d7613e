/** All shortest paths between two vertices: predecessors gathered level by level, then a walk back. */
module AllShortest {
  import opened Sequences
  import opened Traversal
  import opened Walks

  datatype Step = Step(vertex: nat, neighbor: nat, edgeId: nat)

  /** Every step recorded so far, by the vertex that it leads to. */
  type Steps = map<nat, seq<Step>>

  function At(steps: Steps, v: nat): seq<Step>
  {
    if v in steps then steps[v] else []
  }

  // ----- one level -----

  /** The steps from `u` to `v`, in the order of `u`'s edges. */
  function StepsFrom(edges: seq<Edge>, u: nat, v: nat): seq<Step>
  {
    if |edges| == 0 then []
    else
      var rest := StepsFrom(edges[..|edges| - 1], u, v);
      var e := edges[|edges| - 1];
      if e.neighbor == v then rest + [Step(u, v, e.edgeId)] else rest
  }

  ghost function StepsOver(rows: Rows, frontier: seq<nat>, v: nat): seq<Step>
  {
    if |frontier| == 0 then []
    else
      var init, u := frontier[..|frontier| - 1], frontier[|frontier| - 1];
      StepsOver(rows, init, v) + StepsFrom(rows(u), u, v)
  }

  ghost predicate IsStep(rows: Rows, edgeLabel: nat, s: Step)
  {
    Edge(s.neighbor, s.edgeId, edgeLabel) in rows(s.vertex)
  }

  lemma {:induction false} InStepsFrom(edges: seq<Edge>, edgeLabel: nat, u: nat, v: nat, s: Step)
    requires forall e :: e in edges ==> e.edgeLabel == edgeLabel
    ensures s in StepsFrom(edges, u, v) <==> s.vertex == u && s.neighbor == v && Edge(v, s.edgeId, edgeLabel) in edges
  {
    if |edges| > 0 {
      var init, e := edges[..|edges| - 1], edges[|edges| - 1];
      assert edges == init + [e] && e in edges;
      InStepsFrom(init, edgeLabel, u, v, s);
    }
  }

  lemma InConcat<T>(a: seq<T>, b: seq<T>, x: T)
    ensures x in a + b <==> x in a || x in b
  {
  }

  lemma {:induction false} StepsOverAreEdges(rows: Rows, edgeLabel: nat, frontier: seq<nat>, v: nat, s: Step)
    requires OneLabel(rows, edgeLabel)
    ensures s in StepsOver(rows, frontier, v) <==> s.vertex in frontier && s.neighbor == v && IsStep(rows, edgeLabel, s)
  {
    if |frontier| > 0 {
      var init, u := frontier[..|frontier| - 1], frontier[|frontier| - 1];
      assert frontier == init + [u];
      StepsOverAreEdges(rows, edgeLabel, init, v, s);
      InStepsFrom(rows(u), edgeLabel, u, v, s);
      InConcat(init, [u], s.vertex);
      InConcat(StepsOver(rows, init, v), StepsFrom(rows(u), u, v), s);
    }
  }

  lemma {:induction false} StepsFromDiffer(edges: seq<Edge>, edgeLabel: nat, u: nat, v: nat)
    requires DifferentIds(edges) && forall e :: e in edges ==> e.edgeLabel == edgeLabel
    ensures Distinct(StepsFrom(edges, u, v))
  {
    if |edges| > 0 {
      var init, e := edges[..|edges| - 1], edges[|edges| - 1];
      StepsFromDiffer(init, edgeLabel, u, v);
      InStepsFrom(init, edgeLabel, u, v, Step(u, v, e.edgeId));
    }
  }

  lemma {:induction false} StepsOverDiffer(rows: Rows, edgeLabel: nat, frontier: seq<nat>, v: nat)
    requires OneLabel(rows, edgeLabel) && Distinct(frontier) && forall u :: DifferentIds(rows(u))
    ensures Distinct(StepsOver(rows, frontier, v))
  {
    if |frontier| > 0 {
      var init, u := frontier[..|frontier| - 1], frontier[|frontier| - 1];
      StepsOverDiffer(rows, edgeLabel, init, v);
      StepsFromDiffer(rows(u), edgeLabel, u, v);
      forall s | s in StepsOver(rows, init, v)
        ensures s !in StepsFrom(rows(u), u, v)
      {
        StepsOverAreEdges(rows, edgeLabel, init, v, s);
        InStepsFrom(rows(u), edgeLabel, u, v, s);
        assert u !in init;
      }
      ConcatDistinct(StepsOver(rows, init, v), StepsFrom(rows(u), u, v));
    }
  }

  /** The steps into `v` over the edges of a frontier and then the first edges of one more vertex. */
  ghost function StepsSoFar(rows: Rows, frontier: seq<nat>, u: nat, edges: seq<Edge>, v: nat): seq<Step>
  {
    StepsOver(rows, frontier, v) + StepsFrom(edges, u, v)
  }

  ghost predicate LevelAt(rows: Rows, level: Steps, settled: Steps, frontier: seq<nat>, u: nat, edges: seq<Edge>,
                          v: nat)
  {
    && (v in level ==> v !in settled && level[v] != [])
    && (v !in settled ==> At(level, v) == StepsSoFar(rows, frontier, u, edges, v))
  }

  /** The level holds exactly those steps, for every vertex that is not yet settled. */
  ghost predicate LevelIs(rows: Rows, level: Steps, settled: Steps, frontier: seq<nat>, u: nat, edges: seq<Edge>)
  {
    forall v: nat :: LevelAt(rows, level, settled, frontier, u, edges, v)
  }

  method VisitVertex(g: View, edgeLabel: nat, ghost rows: Rows, settled: Steps, u: nat, level: Steps,
                     ghost frontier: seq<nat>)
    returns (next: Steps)
    requires g.Valid() && rows == Labelled(g, edgeLabel) && IsLevel(rows, settled, frontier, level)
    ensures IsLevel(rows, settled, frontier + [u], next)
  {
    next := level;
    var edges := EdgesOf(g, u, edgeLabel);
    var i: nat := 0;
    LevelRenamed(rows, level, settled, frontier, 0, u);
    while i < |edges|
      invariant i <= |edges|
      invariant LevelIs(rows, next, settled, frontier, u, edges[..i])
    {
      LevelNext(rows, next, settled, frontier, u, edges, i);
      if edges[i].neighbor !in settled {
        next := next[edges[i].neighbor := At(next, edges[i].neighbor) + [Step(u, edges[i].neighbor, edges[i].edgeId)]];
      }
      i := i + 1;
    }
    assert edges[..i] == edges;
    LevelVisited(rows, next, settled, frontier, u, 0);
  }

  lemma StepsNext(rows: Rows, frontier: seq<nat>, u: nat, edges: seq<Edge>, i: nat, v: nat)
    requires i < |edges|
    ensures StepsSoFar(rows, frontier, u, edges[..i + 1], v) == StepsSoFar(rows, frontier, u, edges[..i], v)
      + (if edges[i].neighbor == v then [Step(u, v, edges[i].edgeId)] else [])
  {
    assert edges[..i + 1][..i] == edges[..i];
  }

  /** The level after one more edge has been visited. */
  function Recorded(level: Steps, settled: Steps, u: nat, e: Edge): Steps
  {
    if e.neighbor in settled then level
    else level[e.neighbor := At(level, e.neighbor) + [Step(u, e.neighbor, e.edgeId)]]
  }

  lemma LevelNextAt(rows: Rows, level: Steps, settled: Steps, frontier: seq<nat>, u: nat, edges: seq<Edge>, i: nat,
                    v: nat)
    requires i < |edges| && LevelAt(rows, level, settled, frontier, u, edges[..i], v)
    ensures LevelAt(rows, Recorded(level, settled, u, edges[i]), settled, frontier, u, edges[..i + 1], v)
  {
    StepsNext(rows, frontier, u, edges, i, v);
  }

  lemma LevelNext(rows: Rows, level: Steps, settled: Steps, frontier: seq<nat>, u: nat, edges: seq<Edge>, i: nat)
    requires i < |edges| && LevelIs(rows, level, settled, frontier, u, edges[..i])
    ensures LevelIs(rows, Recorded(level, settled, u, edges[i]), settled, frontier, u, edges[..i + 1])
  {
    var next, visited := Recorded(level, settled, u, edges[i]), edges[..i + 1];
    forall v: nat
      ensures LevelAt(rows, next, settled, frontier, u, visited, v)
    {
      LevelNextAt(rows, level, settled, frontier, u, edges, i, v);
    }
  }

  lemma StepsVisited(rows: Rows, frontier: seq<nat>, u: nat, w: nat, v: nat)
    ensures StepsSoFar(rows, frontier, u, rows(u), v) == StepsSoFar(rows, frontier + [u], w, [], v)
  {
    assert (frontier + [u])[..|frontier|] == frontier;
  }

  lemma LevelVisited(rows: Rows, level: Steps, settled: Steps, frontier: seq<nat>, u: nat, w: nat)
    requires LevelIs(rows, level, settled, frontier, u, rows(u))
    ensures LevelIs(rows, level, settled, frontier + [u], w, [])
  {
    forall v: nat
      ensures LevelAt(rows, level, settled, frontier + [u], w, [], v)
    {
      assert LevelAt(rows, level, settled, frontier, u, rows(u), v);
      StepsVisited(rows, frontier, u, w, v);
    }
  }

  lemma LevelRenamed(rows: Rows, level: Steps, settled: Steps, frontier: seq<nat>, u: nat, w: nat)
    requires LevelIs(rows, level, settled, frontier, u, [])
    ensures LevelIs(rows, level, settled, frontier, w, [])
  {
    forall v: nat
      ensures LevelAt(rows, level, settled, frontier, w, [], v)
    {
      assert LevelAt(rows, level, settled, frontier, u, [], v);
    }
  }

  /** The predecessors found from a frontier: the steps of its edges into unsettled vertices. */
  ghost predicate IsLevel(rows: Rows, settled: Steps, frontier: seq<nat>, level: Steps)
  {
    LevelIs(rows, level, settled, frontier, 0, [])
  }

  lemma LevelSteps(rows: Rows, settled: Steps, frontier: seq<nat>, level: Steps, v: nat)
    requires IsLevel(rows, settled, frontier, level)
    ensures v in level ==> v !in settled && level[v] != []
    ensures v !in settled ==> At(level, v) == StepsOver(rows, frontier, v)
  {
    assert LevelAt(rows, level, settled, frontier, 0, [], v);
  }

  lemma EmptyLevel(rows: Rows, settled: Steps)
    ensures IsLevel(rows, settled, [], map[])
  {
    forall v: nat
      ensures LevelAt(rows, map[], settled, [], 0, [], v)
    {
    }
  }

  method GatherLevel(g: View, edgeLabel: nat, ghost rows: Rows, settled: Steps,
                     frontier: seq<nat>)
    returns (level: Steps)
    requires g.Valid() && rows == Labelled(g, edgeLabel)
    ensures IsLevel(rows, settled, frontier, level)
  {
    level := map[];
    var i: nat := 0;
    EmptyLevel(rows, settled);
    assert frontier[..0] == [];
    while i < |frontier|
      invariant i <= |frontier|
      invariant IsLevel(rows, settled, frontier[..i], level)
    {
      assert frontier[..i + 1] == frontier[..i] + [frontier[i]];
      level := VisitVertex(g, edgeLabel, rows, settled, frontier[i], level, frontier[..i]);
      i := i + 1;
    }
    assert frontier[..i] == frontier;
  }

  // ----- all levels -----

  /** Level zero is the start; a later level holds the vertices whose shortest positive walk has its length. */
  ghost predicate OnLevel(a: Arcs, start: nat, v: nat, k: nat)
  {
    if k == 0 then v == start else IsLeast(a, start, v, 1, k)
  }

  ghost predicate StepsInto(rows: Rows, edgeLabel: nat, a: Arcs, start: nat, v: nat, k: nat, steps: seq<Step>)
    requires k > 0
  {
    && Distinct(steps)
    && forall s :: s in steps <==> s.neighbor == v && OnLevel(a, start, s.vertex, k - 1) && IsStep(rows, edgeLabel, s)
  }

  ghost predicate Lists(frontier: seq<nat>, a: Arcs, start: nat, k: nat)
  {
    Distinct(frontier) && forall v: nat :: v in frontier <==> OnLevel(a, start, v, k)
  }

  ghost predicate Complete(rows: Rows, edgeLabel: nat, a: Arcs, start: nat, settled: Steps, depth: nat)
  {
    && (forall v: nat :: v in settled <==> HasWalkWithin(a, start, v, 1, depth))
    && (forall v: nat, k: nat :: 0 < k <= depth && OnLevel(a, start, v, k) ==>
          StepsInto(rows, edgeLabel, a, start, v, k, At(settled, v)))
  }

  ghost predicate GraphOk(rows: Rows, edgeLabel: nat, a: Arcs)
  {
    OneLabel(rows, edgeLabel) && ArcsOf(a, rows) && forall u :: DifferentIds(rows(u))
  }

  lemma StepIsArc(rows: Rows, edgeLabel: nat, a: Arcs, s: Step)
    requires GraphOk(rows, edgeLabel, a) && IsStep(rows, edgeLabel, s)
    ensures (s.vertex, s.neighbor) in a
  {
    assert LeadsTo(rows(s.vertex), s.neighbor);
  }

  lemma ArcIsStep(rows: Rows, edgeLabel: nat, a: Arcs, u: nat, v: nat) returns (s: Step)
    requires GraphOk(rows, edgeLabel, a) && (u, v) in a
    ensures s.vertex == u && s.neighbor == v && IsStep(rows, edgeLabel, s)
  {
    assert LeadsTo(rows(u), v);
    var e :| e in rows(u) && e.neighbor == v;
    s := Step(u, v, e.edgeId);
  }

  /** A vertex just before the end of a shortest positive walk is one level lower. */
  lemma BeforeOnLevel(a: Arcs, start: nat, u: nat, v: nat, k: nat)
    requires OnLevel(a, start, v, k) && k > 0 && HasWalk(a, start, u, k - 1) && (u, v) in a
    ensures OnLevel(a, start, u, k - 1)
  {
    if k > 1 {
      forall j | 1 <= j < k - 1
        ensures !HasWalk(a, start, u, j)
      {
        if HasWalk(a, start, u, j) {
          assert HasWalk(a, start, v, j + 1);
        }
      }
    }
  }

  lemma OnLevelHasWalk(a: Arcs, start: nat, v: nat, k: nat)
    requires OnLevel(a, start, v, k)
    ensures HasWalk(a, start, v, k)
  {
  }

  /** The vertices of a level that has just been gathered. */
  lemma LevelIsNext(rows: Rows, edgeLabel: nat, a: Arcs, start: nat, settled: Steps, frontier: seq<nat>, level: Steps,
                    depth: nat, v: nat)
    requires GraphOk(rows, edgeLabel, a) && Complete(rows, edgeLabel, a, start, settled, depth)
      && Lists(frontier, a, start, depth)
    requires IsLevel(rows, settled, frontier, level)
    ensures v in level <==> OnLevel(a, start, v, depth + 1)
  {
    LevelSteps(rows, settled, frontier, level, v);
    if v in level {
      var s := level[v][0];
      StepsOverAreEdges(rows, edgeLabel, frontier, v, s);
      StepIsArc(rows, edgeLabel, a, s);
      assert OnLevel(a, start, s.vertex, depth);
      OnLevelHasWalk(a, start, s.vertex, depth);
      assert HasWalk(a, start, v, depth + 1);
      assert !HasWalkWithin(a, start, v, 1, depth);
    }
    if OnLevel(a, start, v, depth + 1) {
      var u: nat :| HasWalk(a, start, u, depth) && (u, v) in a;
      BeforeOnLevel(a, start, u, v, depth + 1);
      assert u in frontier;
      var s := ArcIsStep(rows, edgeLabel, a, u, v);
      StepsOverAreEdges(rows, edgeLabel, frontier, v, s);
      assert v !in settled;
    }
  }

  lemma LevelStepsInto(rows: Rows, edgeLabel: nat, a: Arcs, start: nat, settled: Steps, frontier: seq<nat>,
                       level: Steps, depth: nat, v: nat)
    requires GraphOk(rows, edgeLabel, a) && Complete(rows, edgeLabel, a, start, settled, depth)
      && Lists(frontier, a, start, depth)
    requires IsLevel(rows, settled, frontier, level) && v in level
    ensures StepsInto(rows, edgeLabel, a, start, v, depth + 1, level[v])
  {
    LevelSteps(rows, settled, frontier, level, v);
    StepsOverDiffer(rows, edgeLabel, frontier, v);
    forall s
      ensures s in level[v] <==> s.neighbor == v && OnLevel(a, start, s.vertex, depth) && IsStep(rows, edgeLabel, s)
    {
      StepsOverAreEdges(rows, edgeLabel, frontier, v, s);
    }
  }

  lemma WithinNext(a: Arcs, start: nat, v: nat, depth: nat)
    ensures HasWalkWithin(a, start, v, 1, depth + 1) <==>
      HasWalkWithin(a, start, v, 1, depth) || OnLevel(a, start, v, depth + 1)
  {
    if HasWalkWithin(a, start, v, 1, depth + 1) && !HasWalkWithin(a, start, v, 1, depth) {
      var j :| 1 <= j <= depth + 1 && HasWalk(a, start, v, j);
      assert j == depth + 1;
    }
    if HasWalkWithin(a, start, v, 1, depth) {
      var j :| 1 <= j <= depth && HasWalk(a, start, v, j);
      assert 1 <= j <= depth + 1;
    }
  }

  /** Settling a level completes one more depth. */
  lemma LevelCompletes(rows: Rows, edgeLabel: nat, a: Arcs, start: nat, settled: Steps, frontier: seq<nat>,
                       level: Steps, depth: nat)
    requires GraphOk(rows, edgeLabel, a) && Complete(rows, edgeLabel, a, start, settled, depth)
      && Lists(frontier, a, start, depth)
    requires IsLevel(rows, settled, frontier, level)
    ensures Complete(rows, edgeLabel, a, start, settled + level, depth + 1)
    ensures forall v: nat :: v in level <==> OnLevel(a, start, v, depth + 1)
  {
    var next := settled + level;
    forall v: nat
      ensures v in level <==> OnLevel(a, start, v, depth + 1)
      ensures v in next <==> HasWalkWithin(a, start, v, 1, depth + 1)
    {
      LevelIsNext(rows, edgeLabel, a, start, settled, frontier, level, depth, v);
      WithinNext(a, start, v, depth);
    }
    forall v: nat, k: nat | 0 < k <= depth + 1 && OnLevel(a, start, v, k)
      ensures StepsInto(rows, edgeLabel, a, start, v, k, At(next, v))
    {
      if k == depth + 1 {
        LevelStepsInto(rows, edgeLabel, a, start, settled, frontier, level, depth, v);
      } else {
        assert HasWalkWithin(a, start, v, 1, depth);
        LevelSteps(rows, settled, frontier, level, v);
      }
    }
  }

  /** Moves a level into the settled vertices, in whatever order its map is read. */
  method Settle(settled: Steps, level: Steps, target: nat) returns (next: Steps, frontier: seq<nat>, found: bool)
    requires forall v :: v in level ==> v !in settled
    ensures next == settled + level && found == (target in level)
    ensures Distinct(frontier) && forall v :: v in frontier <==> v in level
  {
    next, frontier, found := settled, [], false;
    var left := level.Keys;
    while left != {}
      invariant left <= level.Keys && next == settled + (level - left)
      invariant found == (target in level && target !in left)
      invariant Distinct(frontier) && forall v :: v in frontier <==> v in level && v !in left
      decreases left
    {
      var v :| v in left;
      found := found || v == target;
      frontier := frontier + [v];
      next := next[v := level[v]];
      left := left - {v};
    }
    assert level - {} == level;
  }

  // ----- the walk back -----

  /** A walk of followed edges, each step starting where the one before it ends. */
  ghost predicate IsPath(rows: Rows, edgeLabel: nat, start: nat, v: nat, p: seq<Step>)
    decreases |p|
  {
    if |p| == 0 then v == start
    else
      var last := p[|p| - 1];
      last.neighbor == v && IsStep(rows, edgeLabel, last) && IsPath(rows, edgeLabel, start, last.vertex, p[..|p| - 1])
  }

  lemma {:induction false} PathIsWalk(rows: Rows, edgeLabel: nat, a: Arcs, start: nat, v: nat, p: seq<Step>)
    requires GraphOk(rows, edgeLabel, a) && IsPath(rows, edgeLabel, start, v, p)
    ensures HasWalk(a, start, v, |p|)
    decreases |p|
  {
    if |p| > 0 {
      var last := p[|p| - 1];
      PathIsWalk(rows, edgeLabel, a, start, last.vertex, p[..|p| - 1]);
      StepIsArc(rows, edgeLabel, a, last);
    }
  }

  lemma {:induction false} WalkIsPath(rows: Rows, edgeLabel: nat, a: Arcs, start: nat, v: nat,
                                      k: nat)
    returns (p: seq<Step>)
    requires GraphOk(rows, edgeLabel, a) && HasWalk(a, start, v, k)
    ensures |p| == k && IsPath(rows, edgeLabel, start, v, p)
    decreases k
  {
    if k == 0 {
      p := [];
    } else {
      var u: nat :| HasWalk(a, start, u, k - 1) && (u, v) in a;
      var init := WalkIsPath(rows, edgeLabel, a, start, u, k - 1);
      var s := ArcIsStep(rows, edgeLabel, a, u, v);
      p := init + [s];
      assert p[..|p| - 1] == init;
    }
  }

  function Extended(paths: seq<seq<Step>>, s: Step): (r: seq<seq<Step>>)
    ensures |r| == |paths| && forall i :: 0 <= i < |r| ==> r[i] == paths[i] + [s]
  {
    seq(|paths|, i requires 0 <= i < |paths| => paths[i] + [s])
  }

  /** The paths that lead back to the start over the recorded steps. */
  function Back(settled: Steps, start: nat, v: nat, level: nat): seq<seq<Step>>
    decreases level, 1, 0
  {
    if level == 0 then if v == start then [[]] else [] else BackOver(settled, start, At(settled, v), level)
  }

  function BackOver(settled: Steps, start: nat, steps: seq<Step>, level: nat): seq<seq<Step>>
    requires level > 0
    decreases level, 0, |steps|
  {
    if |steps| == 0 then []
    else
      var last := steps[|steps| - 1];
      BackOver(settled, start, steps[..|steps| - 1], level)
      + Extended(Back(settled, start, last.vertex, level - 1), last)
  }

  lemma InExtended(paths: seq<seq<Step>>, s: Step, p: seq<Step>)
    ensures p in Extended(paths, s) <==> |p| > 0 && p[|p| - 1] == s && p[..|p| - 1] in paths
  {
    var r := Extended(paths, s);
    if p in r {
      var i :| 0 <= i < |r| && r[i] == p;
      assert p[..|p| - 1] == paths[i];
    }
    if |p| > 0 && p[|p| - 1] == s && p[..|p| - 1] in paths {
      var i :| 0 <= i < |paths| && paths[i] == p[..|p| - 1];
      assert r[i] == p;
    }
  }

  lemma {:induction false} InBackOver(settled: Steps, start: nat, steps: seq<Step>, level: nat, p: seq<Step>)
    requires level > 0
    ensures p in BackOver(settled, start, steps, level) <==>
            |p| > 0 && p[|p| - 1] in steps && p[..|p| - 1] in Back(settled, start, p[|p| - 1].vertex, level - 1)
    decreases |steps|
  {
    if |steps| > 0 {
      var init, last := steps[..|steps| - 1], steps[|steps| - 1];
      var before, more := BackOver(settled, start, init, level),
          Extended(Back(settled, start, last.vertex, level - 1), last);
      InBackOver(settled, start, init, level, p);
      InExtended(Back(settled, start, last.vertex, level - 1), last, p);
      InConcat(before, more, p);
      if |p| > 0 {
        assert steps == init + [last];
        InConcat(init, [last], p[|p| - 1]);
      }
    }
  }

  lemma BackStep(rows: Rows, edgeLabel: nat, a: Arcs, start: nat, settled: Steps, depth: nat, v: nat, k: nat,
                 p: seq<Step>)
    requires Complete(rows, edgeLabel, a, start, settled, depth) && 0 < k <= depth && OnLevel(a, start, v, k) && |p| > 0
    ensures p in Back(settled, start, v, k) <==>
            var last := p[|p| - 1];
            last.neighbor == v && IsStep(rows, edgeLabel, last) && OnLevel(a, start, last.vertex, k - 1)
            && p[..|p| - 1] in Back(settled, start, last.vertex, k - 1)
  {
    assert StepsInto(rows, edgeLabel, a, start, v, k, At(settled, v));
    InBackOver(settled, start, At(settled, v), k, p);
  }

  lemma PathStep(rows: Rows, edgeLabel: nat, a: Arcs, start: nat, v: nat, k: nat, p: seq<Step>)
    requires GraphOk(rows, edgeLabel, a) && k > 0 && OnLevel(a, start, v, k)
    requires |p| == k && IsPath(rows, edgeLabel, start, v, p)
    ensures OnLevel(a, start, p[k - 1].vertex, k - 1)
  {
    PathIsWalk(rows, edgeLabel, a, start, p[k - 1].vertex, p[..k - 1]);
    StepIsArc(rows, edgeLabel, a, p[k - 1]);
    BeforeOnLevel(a, start, p[k - 1].vertex, v, k);
  }

  lemma BackIsNotEmpty(settled: Steps, start: nat, v: nat, k: nat)
    requires k > 0
    ensures [] !in Back(settled, start, v, k)
  {
    InBackOver(settled, start, At(settled, v), k, []);
  }

  /** From a vertex of some level the walk back finds exactly the paths of that length. */
  lemma {:induction false} BackIsExact(rows: Rows, edgeLabel: nat, a: Arcs, start: nat, settled: Steps, depth: nat,
                                       v: nat, k: nat, p: seq<Step>)
    requires GraphOk(rows, edgeLabel, a) && Complete(rows, edgeLabel, a, start, settled, depth)
    requires k <= depth && OnLevel(a, start, v, k)
    ensures p in Back(settled, start, v, k) <==> |p| == k && IsPath(rows, edgeLabel, start, v, p)
    decreases k
  {
    hide *;
    if k == 0 {
      BackAtStart(rows, edgeLabel, a, start, settled, v, p);
    } else if |p| == 0 {
      assert p == [];
      BackIsNotEmpty(settled, start, v, k);
    } else {
      PathByLast(rows, edgeLabel, start, v, p);
      BackStep(rows, edgeLabel, a, start, settled, depth, v, k, p);
      var u, init := p[|p| - 1].vertex, p[..|p| - 1];
      if OnLevel(a, start, u, k - 1) {
        BackIsExact(rows, edgeLabel, a, start, settled, depth, u, k - 1, init);
      } else if |p| == k && IsPath(rows, edgeLabel, start, v, p) {
        PathStep(rows, edgeLabel, a, start, v, k, p);
      }
    }
  }

  lemma BackAtStart(rows: Rows, edgeLabel: nat, a: Arcs, start: nat, settled: Steps, v: nat, p: seq<Step>)
    requires OnLevel(a, start, v, 0)
    ensures p in Back(settled, start, v, 0) <==> |p| == 0 && IsPath(rows, edgeLabel, start, v, p)
  {
  }

  lemma PathByLast(rows: Rows, edgeLabel: nat, start: nat, v: nat, p: seq<Step>)
    requires |p| > 0
    ensures var last := p[|p| - 1];
      IsPath(rows, edgeLabel, start, v, p) <==>
        last.neighbor == v && IsStep(rows, edgeLabel, last) && IsPath(rows, edgeLabel, start, last.vertex, p[..|p| - 1])
  {
  }

  lemma {:induction false} BackOverDiffer(settled: Steps, start: nat, steps: seq<Step>, level: nat)
    requires level > 0 && Distinct(steps)
    requires forall s :: s in steps ==> Distinct(Back(settled, start, s.vertex, level - 1))
    ensures Distinct(BackOver(settled, start, steps, level))
    decreases |steps|
  {
    if |steps| > 0 {
      var init, last := steps[..|steps| - 1], steps[|steps| - 1];
      var paths := Back(settled, start, last.vertex, level - 1);
      BackOverDiffer(settled, start, init, level);
      assert last in steps && last !in init;
      ExtendedDiffer(paths, last);
      forall p | p in BackOver(settled, start, init, level)
        ensures p !in Extended(paths, last)
      {
        InBackOver(settled, start, init, level, p);
        InExtended(paths, last, p);
      }
      ConcatDistinct(BackOver(settled, start, init, level), Extended(paths, last));
    }
  }

  lemma ExtendedDiffer(paths: seq<seq<Step>>, s: Step)
    requires Distinct(paths)
    ensures Distinct(Extended(paths, s))
  {
    forall i, j | 0 <= i < j < |paths|
      ensures Extended(paths, s)[i] != Extended(paths, s)[j]
    {
      assert (paths[i] + [s])[..|paths[i]|] == paths[i] && (paths[j] + [s])[..|paths[j]|] == paths[j];
    }
  }

  lemma {:induction false} BackDiffer(rows: Rows, edgeLabel: nat, a: Arcs, start: nat, settled: Steps, depth: nat,
                                      v: nat, k: nat)
    requires GraphOk(rows, edgeLabel, a) && Complete(rows, edgeLabel, a, start, settled, depth)
    requires k <= depth && OnLevel(a, start, v, k)
    ensures Distinct(Back(settled, start, v, k))
    decreases k
  {
    if k > 0 {
      var steps := At(settled, v);
      assert StepsInto(rows, edgeLabel, a, start, v, k, steps);
      forall s | s in steps
        ensures Distinct(Back(settled, start, s.vertex, k - 1))
      {
        BackDiffer(rows, edgeLabel, a, start, settled, depth, s.vertex, k - 1);
      }
      BackOverDiffer(settled, start, steps, k);
    }
  }

  // ----- the rows -----

  /** One row a step, or one for the whole path. */
  datatype ShortestRow = ShortestRow(edgeId: nat, source: nat, target: nat, path: nat)

  datatype Request = Request(start: nat, target: nat, outgoing: bool, maximum: nat, unbounded: bool, perStep: bool)

  function StepRow(r: Request, s: Step, index: nat): ShortestRow
  {
    ShortestRow(s.edgeId, if r.outgoing then s.vertex else s.neighbor, if r.outgoing then s.neighbor
                else s.vertex, index)
  }

  function PathRows(r: Request, p: seq<Step>, index: nat): seq<ShortestRow>
  {
    if r.perStep then seq(|p|, i requires 0 <= i < |p| => StepRow(r, p[i], index))
    else [ShortestRow(0, r.start, r.target, index)]
  }

  /** The rows of several paths, numbered from `index`. */
  function RowsOf(r: Request, paths: seq<seq<Step>>, index: nat): seq<ShortestRow>
  {
    if |paths| == 0 then []
    else RowsOf(r, paths[..|paths| - 1], index) + PathRows(r, paths[|paths| - 1], index + |paths| - 1)
  }

  /** What a row shows of a step: its edge, its ends in the direction of the edge, the number of its path. */
  ghost predicate ShowsStep(row: ShortestRow, r: Request, s: Step, index: nat)
  {
    && row.edgeId == s.edgeId && row.path == index
    && (r.outgoing ==> row.source == s.vertex && row.target == s.neighbor)
    && (!r.outgoing ==> row.source == s.neighbor && row.target == s.vertex)
  }

  /** Where the rows of path `k` begin when every path has as many rows. */
  ghost function Place(k: nat, length: nat): nat
  {
    k * length
  }

  /** From this place on, one row for each step of the path in turn. */
  ghost predicate ShowsPath(output: seq<ShortestRow>, r: Request, p: seq<Step>, place: nat, index: nat)
  {
    place + |p| <= |output| && forall j :: 0 <= j < |p| ==> ShowsStep(output[place + j], r, p[j], index)
  }

  /** Paths of one length, shown one after the other and numbered from `first`: a row for every step, or
      one row that joins the start of the search to its target. */
  ghost predicate ShowsPaths(output: seq<ShortestRow>, r: Request, paths: seq<seq<Step>>, length: nat, first: nat)
  {
    if r.perStep then
      && |output| == Place(|paths|, length)
      && forall k: nat :: k < |paths| ==> ShowsPath(output, r, paths[k], Place(k, length), first + k)
    else
      && |output| == |paths|
      && forall k: nat :: k < |paths| ==>
           && output[k].source == r.start && output[k].target == r.target && output[k].path == first + k
           && output[k].edgeId == 0
  }

  /** The rows emitted show the paths they were emitted for. */
  lemma {:induction false} RowsShowPaths(r: Request, paths: seq<seq<Step>>, length: nat, first: nat)
    requires forall p :: p in paths ==> |p| == length
    ensures ShowsPaths(RowsOf(r, paths, first), r, paths, length, first)
    decreases |paths|
  {
    if |paths| == 0 {
      NoPathsShown(r, length, first);
    } else {
      var init, p := paths[..|paths| - 1], paths[|paths| - 1];
      assert paths == init + [p];
      assert |p| == length by {
        assert p in paths;
      }
      hide ShowsPaths, PathRows, RowsOf;
      RowsShowPaths(r, init, length, first);
      OnePathMore(r, init, RowsOf(r, init, first), p, length, first);
      RowsOfLast(r, init, p, first);
    }
  }

  lemma RowsOfLast(r: Request, init: seq<seq<Step>>, p: seq<Step>, first: nat)
    ensures RowsOf(r, init + [p], first) == RowsOf(r, init, first) + PathRows(r, p, first + |init|)
  {
    assert (init + [p])[..|init|] == init;
  }

  lemma NoPathsShown(r: Request, length: nat, first: nat)
    ensures ShowsPaths([], r, [], length, first)
  {
  }

  lemma OnePathMore(r: Request, init: seq<seq<Step>>, before: seq<ShortestRow>, p: seq<Step>, length: nat, first: nat)
    requires |p| == length && ShowsPaths(before, r, init, length, first)
    ensures ShowsPaths(before + PathRows(r, p, first + |init|), r, init + [p], length, first)
  {
    hide Place, ShowsPath;
    var more := PathRows(r, p, first + |init|);
    Product(|init|, length);
    if r.perStep {
      forall k: nat | k < |init + [p]|
        ensures ShowsPath(before + more, r, (init + [p])[k], Place(k, length), first + k)
      {
        if k < |init| {
          StillShown(before, more, r, init[k], Place(k, length), first + k);
        } else {
          ShownAtEnd(before, r, p, first + |init|);
        }
      }
    }
  }

  lemma StillShown(before: seq<ShortestRow>, more: seq<ShortestRow>, r: Request, p: seq<Step>, place: nat, index: nat)
    requires ShowsPath(before, r, p, place, index)
    ensures ShowsPath(before + more, r, p, place, index)
  {
  }

  lemma ShownAtEnd(before: seq<ShortestRow>, r: Request, p: seq<Step>, index: nat)
    requires r.perStep
    ensures ShowsPath(before + PathRows(r, p, index), r, p, |before|, index)
  {
    var more := PathRows(r, p, index);
    forall j | 0 <= j < |p|
      ensures ShowsStep((before + more)[|before| + j], r, p[j], index)
    {
      assert (before + more)[|before| + j] == more[j] == StepRow(r, p[j], index);
    }
  }

  lemma Product(m: nat, length: nat)
    ensures Place(m + 1, length) == Place(m, length) + length
  {
  }

  /** Every step shown is an edge of the graph, in the direction in which the row shows it. */
  ghost predicate StandsInGraph(row: ShortestRow, rows: Rows, edgeLabel: nat, outgoing: bool)
  {
    if outgoing then Edge(row.target, row.edgeId, edgeLabel) in rows(row.source)
    else Edge(row.source, row.edgeId, edgeLabel) in rows(row.target)
  }

  lemma RowsOfConcatLast(r: Request, a: seq<seq<Step>>, init: seq<seq<Step>>, p: seq<Step>, index: nat)
    requires RowsOf(r, a + init, index) == RowsOf(r, a, index) + RowsOf(r, init, index + |a|)
    ensures RowsOf(r, a + (init + [p]), index) == RowsOf(r, a, index) + RowsOf(r, init + [p], index + |a|)
  {
    RowsOfLast(r, a + init, p, index);
    RowsOfLast(r, init, p, index + |a|);
    hide *;
    Associative(a, init, [p]);
    Associative(RowsOf(r, a, index), RowsOf(r, init, index + |a|), PathRows(r, p, index + |a| + |init|));
  }

  lemma {:induction false} RowsOfConcat(r: Request, a: seq<seq<Step>>, b: seq<seq<Step>>, index: nat)
    ensures RowsOf(r, a + b, index) == RowsOf(r, a, index) + RowsOf(r, b, index + |a|)
    decreases |b|
  {
    if |b| == 0 {
      assert a + b == a && RowsOf(r, b, index + |a|) == [];
    } else {
      hide *;
      WithLast(b);
      RowsOfConcat(r, a, b[..|b| - 1], index);
      RowsOfConcatLast(r, a, b[..|b| - 1], b[|b| - 1], index);
    }
  }

  /** Each path followed by the steps that have already been walked back over. */
  function Followed(paths: seq<seq<Step>>, rest: seq<Step>): (r: seq<seq<Step>>)
    ensures |r| == |paths| && forall i :: 0 <= i < |r| ==> r[i] == paths[i] + rest
  {
    seq(|paths|, i requires 0 <= i < |paths| => paths[i] + rest)
  }

  lemma FollowedOver(settled: Steps, start: nat, steps: seq<Step>, i: nat, level: nat, rest: seq<Step>)
    requires level > 0 && i < |steps|
    ensures Followed(BackOver(settled, start, steps[..i + 1], level), rest)
         == Followed(BackOver(settled, start, steps[..i], level), rest)
          + Followed(Back(settled, start, steps[i].vertex, level - 1), [steps[i]] + rest)
  {
    assert steps[..i + 1][..i] == steps[..i];
    var before, paths := BackOver(settled, start, steps[..i], level), Back(settled, start, steps[i].vertex, level - 1);
    assert BackOver(settled, start, steps[..i + 1], level) == before + Extended(paths, steps[i]);
    forall j | 0 <= j < |paths|
      ensures (paths[j] + [steps[i]]) + rest == paths[j] + ([steps[i]] + rest)
    {
    }
  }

  /** The rows of every path through `v` that continues with `rest`, numbered from `index`. */
  ghost function BackRows(r: Request, settled: Steps, v: nat, level: nat, rest: seq<Step>, index: nat): seq<ShortestRow>
  {
    RowsOf(r, Followed(Back(settled, r.start, v, level), rest), index)
  }

  ghost function BackOverRows(r: Request, settled: Steps, steps: seq<Step>, level: nat, rest: seq<Step>,
                              index: nat): seq<ShortestRow>
    requires level > 0
  {
    RowsOf(r, Followed(BackOver(settled, r.start, steps, level), rest), index)
  }

  lemma BackRowsAtStart(r: Request, settled: Steps, v: nat, p: seq<Step>, index: nat)
    ensures BackRows(r, settled, v, 0, p, index) == if v == r.start then PathRows(r, p, index) else []
  {
    if v == r.start {
      assert [] + p == p;
      assert Followed([[]], p) == [p];
      assert RowsOf(r, [p], index) == PathRows(r, p, index);
    }
  }

  lemma BackRowsAbove(r: Request, settled: Steps, v: nat, level: nat, rest: seq<Step>, index: nat)
    requires level > 0
    ensures BackRows(r, settled, v, level, rest, index) == BackOverRows(r, settled, At(settled, v), level, rest, index)
    ensures Back(settled, r.start, v, level) == BackOver(settled, r.start, At(settled, v), level)
    ensures v !in settled ==>
      BackRows(r, settled, v, level, rest, index) == [] && Back(settled, r.start, v, level) == []
  {
  }

  lemma BackOverRowsNext(r: Request, settled: Steps, steps: seq<Step>, i: nat, level: nat, rest: seq<Step>, index: nat)
    requires level > 0 && i < |steps|
    ensures BackOverRows(r, settled, steps[..i + 1], level, rest, index)
         == BackOverRows(r, settled, steps[..i], level, rest, index)
          + BackRows(r, settled, steps[i].vertex, level - 1, [steps[i]] + rest,
                     index + |BackOver(settled, r.start, steps[..i], level)|)
    ensures |BackOver(settled, r.start, steps[..i + 1], level)|
         == |BackOver(settled, r.start, steps[..i], level)| + |Back(settled, r.start, steps[i].vertex, level - 1)|
  {
    FollowedOver(settled, r.start, steps, i, level, rest);
    RowsOfConcat(r, Followed(BackOver(settled, r.start, steps[..i], level), rest),
                 Followed(Back(settled, r.start, steps[i].vertex, level - 1), [steps[i]] + rest), index);
    assert steps[..i + 1][..i] == steps[..i];
  }

  /** The rows and the path count after some of the steps. */
  ghost predicate Emitted(r: Request, settled: Steps, steps: seq<Step>, level: nat, rest: seq<Step>,
                          rows0: seq<ShortestRow>, first: nat,
                          rows: seq<ShortestRow>, index: nat)
    requires level > 0
  {
    rows == rows0 + BackOverRows(r, settled, steps, level, rest, first)
        && index == first + |BackOver(settled, r.start, steps, level)|
  }

  lemma EmittedNext(r: Request, settled: Steps, steps: seq<Step>, i: nat, level: nat, rest: seq<Step>,
                    rows0: seq<ShortestRow>, first: nat,
                    rows: seq<ShortestRow>, index: nat)
    requires level > 0 && i < |steps| && Emitted(r, settled, steps[..i], level, rest, rows0, first, rows, index)
    ensures Emitted(r, settled, steps[..i + 1], level, rest, rows0, first,
                    rows + BackRows(r, settled, steps[i].vertex, level - 1, [steps[i]] + rest, index),
                    index + |Back(settled, r.start, steps[i].vertex, level - 1)|)
  {
    BackOverRowsNext(r, settled, steps, i, level, rest, first);
    Associative(rows0, BackOverRows(r, settled, steps[..i], level, rest, first),
                BackRows(r, settled, steps[i].vertex, level - 1, [steps[i]] + rest, index));
  }

  lemma WithLast<T>(s: seq<T>)
    requires |s| > 0
    ensures s == s[..|s| - 1] + [s[|s| - 1]]
  {
  }

  lemma Associative<T>(x: seq<T>, y: seq<T>, z: seq<T>)
    ensures (x + y) + z == x + (y + z)
  {
  }

  class WalkBack {
    const request: Request
    const settled: Steps
    const path: array<Step>
    var rows: seq<ShortestRow>
    var pathIndex: nat

    constructor (request: Request, settled: Steps, depth: nat)
      ensures this.request == request && this.settled == settled && rows == [] && pathIndex == 0
      ensures path.Length == depth && fresh(path)
    {
      this.request, this.settled, rows, pathIndex := request, settled, [], 0;
      path := new Step[depth](_ => Step(0, 0, 0));
    }

    /** Appends the rows of one path. */
    method Emit()
      modifies `rows, `pathIndex
      ensures pathIndex == old(pathIndex) + 1 && rows == old(rows) + PathRows(request, path[..], old(pathIndex))
    {
      if !request.perStep {
        rows := rows + [ShortestRow(0, request.start, request.target, pathIndex)];
      } else {
        var i := 0;
        while i < path.Length
          invariant 0 <= i <= path.Length && pathIndex == old(pathIndex)
          invariant rows == old(rows) + PathRows(request, path[..i], pathIndex)
        {
          rows := rows + [StepRow(request, path[i], pathIndex)];
          assert path[..i + 1] == path[..i] + [path[i]];
          i := i + 1;
        }
        assert path[..i] == path[..];
      }
      pathIndex := pathIndex + 1;
    }

    /** Appends the rows of every path through `v` at this level, with the rest of the path as it stands. */
    method Walk(v: nat, level: nat)
      requires level <= path.Length
      modifies this`rows, this`pathIndex, path
      ensures path[level..] == old(path[level..])
      ensures rows == old(rows) + BackRows(request, settled, v, level, path[level..], old(pathIndex))
      ensures pathIndex == old(pathIndex) + |Back(settled, request.start, v, level)|
      decreases level, 1
    {
      if level == 0 {
        BackRowsAtStart(request, settled, v, path[0..], pathIndex);
        assert path[0..] == path[..];
        if v == request.start {
          Emit();
        }
        return;
      }
      BackRowsAbove(request, settled, v, level, path[level..], pathIndex);
      if v !in settled {
        return;
      }
      WalkOver(settled[v], level);
    }

    method WalkOver(steps: seq<Step>, level: nat)
      requires 0 < level <= path.Length
      modifies this`rows, this`pathIndex, path
      ensures path[level..] == old(path[level..])
      ensures rows == old(rows) + BackOverRows(request, settled, steps, level, path[level..], old(pathIndex))
      ensures pathIndex == old(pathIndex) + |BackOver(settled, request.start, steps, level)|
      decreases level, 0, |steps|
    {
      ghost var rest, first, rows0 := path[level..], pathIndex, rows;
      var i: nat := 0;
      while i < |steps|
        invariant i <= |steps| && path[level..] == rest
        invariant Emitted(request, settled, steps[..i], level, rest, rows0, first, rows, pathIndex)
      {
        ghost var was, index := rows, pathIndex;
        WalkStep(steps[i], level, rest);
        EmittedNext(request, settled, steps, i, level, rest, rows0, first, was, index);
        i := i + 1;
      }
      assert steps[..i] == steps;
    }

    method WalkStep(step: Step, level: nat, ghost rest: seq<Step>)
      requires 0 < level <= path.Length && path[level..] == rest
      modifies this`rows, this`pathIndex, path
      ensures path[level..] == rest
      ensures rows == old(rows) + BackRows(request, settled, step.vertex, level - 1, [step] + rest, old(pathIndex))
      ensures pathIndex == old(pathIndex) + |Back(settled, request.start, step.vertex, level - 1)|
      decreases level - 1, 2
    {
      path[level - 1] := step;
      assert path[level - 1..] == [step] + rest;
      Walk(step.vertex, level - 1);
      assert path[level..] == path[level - 1..][1..];
    }
  }

  // ----- the search -----

  /** A path of positive length within the bounds that no other positive path undercuts. */
  ghost predicate IsShortest(rows: Rows, edgeLabel: nat, r: Request, p: seq<Step>)
  {
    && |p| > 0 && IsPath(rows, edgeLabel, r.start, r.target, p) && (r.unbounded || |p| <= r.maximum)
    && forall q :: |q| > 0 && IsPath(rows, edgeLabel, r.start, r.target, q) ==> |p| <= |q|
  }

  /** Where the level search stands. */
  ghost predicate Searching(rows: Rows, edgeLabel: nat, a: Arcs, r: Request, settled: Steps, frontier: seq<nat>,
                            depth: nat, found: bool)
  {
    && Complete(rows, edgeLabel, a, r.start, settled, depth)
    && Lists(frontier, a, r.start, depth) && (r.unbounded || depth <= r.maximum)
    && (if found then depth > 0 && OnLevel(a, r.start, r.target, depth) else r.target !in settled)
  }

  /** Every level up to a nonempty one has a vertex of its own. */
  lemma {:induction false} LevelsTake(a: Arcs, start: nat, v: nat, k: nat) returns (taken: set<nat>)
    requires OnLevel(a, start, v, k)
    ensures |taken| == k && taken <= Entered(a)
    ensures forall u :: u in taken ==> exists j :: 0 < j <= k && OnLevel(a, start, u, j)
    decreases k
  {
    if k == 0 {
      return {};
    }
    var u: nat :| HasWalk(a, start, u, k - 1) && (u, v) in a;
    BeforeOnLevel(a, start, u, v, k);
    var rest := LevelsTake(a, start, u, k - 1);
    assert v !in rest;
    taken := rest + {v};
  }

  lemma DepthIsBounded(a: Arcs, start: nat, frontier: seq<nat>, depth: nat)
    requires Lists(frontier, a, start, depth) && frontier != []
    ensures depth <= |Entered(a)|
  {
    assert frontier[0] in frontier;
    var taken := LevelsTake(a, start, frontier[0], depth);
    SubsetIsNoLarger(taken, Entered(a));
  }

  lemma SearchStarts(rows: Rows, edgeLabel: nat, a: Arcs, r: Request)
    requires GraphOk(rows, edgeLabel, a)
    ensures Searching(rows, edgeLabel, a, r, map[], [r.start], 0, false)
  {
  }

  lemma SearchGoesOn(rows: Rows, edgeLabel: nat, a: Arcs, r: Request, settled: Steps, frontier: seq<nat>, depth: nat,
                     level: Steps, next: seq<nat>)
    requires GraphOk(rows, edgeLabel, a) && Searching(rows, edgeLabel, a, r, settled, frontier, depth, false)
      && (r.unbounded || depth < r.maximum)
    requires IsLevel(rows, settled, frontier, level) && Distinct(next) && forall v :: v in next <==> v in level
    ensures Searching(rows, edgeLabel, a, r, settled + level, next, depth + 1, r.target in level)
    ensures next != [] ==> depth + 1 <= |Entered(a)|
  {
    LevelCompletes(rows, edgeLabel, a, r.start, settled, frontier, level, depth);
    if next != [] {
      DepthIsBounded(a, r.start, next, depth + 1);
    }
  }

  /** Exactly the shortest paths, each once, all of this length. */
  ghost predicate AreShortestPaths(rows: Rows, edgeLabel: nat, r: Request, length: nat, paths: seq<seq<Step>>)
  {
    && Distinct(paths)
    && (forall p :: p in paths <==> IsShortest(rows, edgeLabel, r, p))
    && (forall p :: p in paths ==> |p| == length)
  }

  lemma FoundPaths(rows: Rows, edgeLabel: nat, a: Arcs, r: Request, settled: Steps, frontier: seq<nat>, depth: nat)
    requires GraphOk(rows, edgeLabel, a) && Searching(rows, edgeLabel, a, r, settled, frontier, depth, true)
    ensures AreShortestPaths(rows, edgeLabel, r, depth, Back(settled, r.start, r.target, depth))
  {
    BackDiffer(rows, edgeLabel, a, r.start, settled, depth, r.target, depth);
    var path := WalkIsPath(rows, edgeLabel, a, r.start, r.target, depth);
    forall p
      ensures p in Back(settled, r.start, r.target, depth) <==> IsShortest(rows, edgeLabel, r, p)
      ensures IsShortest(rows, edgeLabel, r, p) ==> |p| == depth
    {
      BackIsExact(rows, edgeLabel, a, r.start, settled, depth, r.target, depth, p);
      forall q | |q| > 0 && IsPath(rows, edgeLabel, r.start, r.target, q)
        ensures depth <= |q|
      {
        PathIsWalk(rows, edgeLabel, a, r.start, r.target, q);
      }
    }
  }

  lemma NothingFound(rows: Rows, edgeLabel: nat, a: Arcs, r: Request, settled: Steps, frontier: seq<nat>, depth: nat)
    requires GraphOk(rows, edgeLabel, a) && Searching(rows, edgeLabel, a, r, settled, frontier, depth, false)
    requires frontier == [] || (!r.unbounded && depth >= r.maximum)
    ensures AreShortestPaths(rows, edgeLabel, r, 0, [])
  {
    forall p
      ensures !IsShortest(rows, edgeLabel, r, p)
    {
      NoPaths(rows, edgeLabel, a, r, settled, frontier, depth, p);
    }
  }

  /** A search that ended without the target: no path is within the bounds. */
  lemma NoPaths(rows: Rows, edgeLabel: nat, a: Arcs, r: Request, settled: Steps, frontier: seq<nat>, depth: nat,
                p: seq<Step>)
    requires GraphOk(rows, edgeLabel, a) && Searching(rows, edgeLabel, a, r, settled, frontier, depth, false)
    requires frontier == [] || (!r.unbounded && depth >= r.maximum)
    ensures !IsShortest(rows, edgeLabel, r, p)
  {
    if IsShortest(rows, edgeLabel, r, p) {
      PathIsWalk(rows, edgeLabel, a, r.start, r.target, p);
      assert HasWalkWithin(a, r.start, r.target, 1, |p|);
      var k := LeastWithin(a, r.start, r.target, 1, |p|);
      assert !HasWalkWithin(a, r.start, r.target, 1, depth);
      assert k > depth;
      LevelBelow(a, r.start, r.target, k, depth);
    }
  }

  /** Levels have no gaps. */
  lemma {:induction false} LevelBelow(a: Arcs, start: nat, v: nat, k: nat, depth: nat)
    requires OnLevel(a, start, v, k) && depth <= k
    ensures exists u: nat :: OnLevel(a, start, u, depth)
    decreases k
  {
    if depth < k {
      var u: nat :| HasWalk(a, start, u, k - 1) && (u, v) in a;
      BeforeOnLevel(a, start, u, v, k);
      LevelBelow(a, start, u, k - 1, depth);
    }
  }

  lemma GraphIsOk(g: View, edgeLabel: nat)
    requires g.Valid() && g.DistinctRows()
    ensures GraphOk(Labelled(g, edgeLabel), edgeLabel, LabelArcs(g, edgeLabel))
  {
    forall u
      ensures DifferentIds(Labelled(g, edgeLabel)(u))
    {
      MatchingDiffer(g.Row(u), edgeLabel);
    }
  }

  method SearchRound(g: View, edgeLabel: nat, r: Request, ghost rows: Rows, ghost a: Arcs, settled: Steps,
                     frontier: seq<nat>, ghost depth: nat)
    returns (next: Steps, queue: seq<nat>, found: bool)
    requires g.Valid() && rows == Labelled(g, edgeLabel) && frontier != [] && (r.unbounded || depth < r.maximum)
    requires GraphOk(rows, edgeLabel, a) && Searching(rows, edgeLabel, a, r, settled, frontier, depth, false)
    ensures Searching(rows, edgeLabel, a, r, next, queue, depth + 1, found)
    ensures queue != [] ==> depth + 1 <= |Entered(a)|
  {
    var level := GatherLevel(g, edgeLabel, rows, settled, frontier);
    LevelsApart(rows, settled, frontier, level);
    next, queue, found := Settle(settled, level, r.target);
    SearchGoesOn(rows, edgeLabel, a, r, settled, frontier, depth, level, queue);
  }

  /** Gathers levels until the target is reached or nothing is left within the bounds. */
  method SearchLevels(g: View, edgeLabel: nat, r: Request, ghost rows: Rows, ghost a: Arcs)
    returns (settled: Steps, depth: nat, found: bool, ghost frontier: seq<nat>)
    requires g.Valid() && rows == Labelled(g, edgeLabel) && GraphOk(rows, edgeLabel, a)
    ensures Searching(rows, edgeLabel, a, r, settled, frontier, depth, found)
    ensures found || frontier == [] || (!r.unbounded && depth >= r.maximum)
  {
    SearchStarts(rows, edgeLabel, a, r);
    settled, depth, found := map[], 0, false;
    var queue := [r.start];
    while !found && queue != [] && (r.unbounded || depth < r.maximum)
      invariant Searching(rows, edgeLabel, a, r, settled, queue, depth, found)
      invariant queue != [] ==> depth <= |Entered(a)|
      decreases |Entered(a)| + 1 - depth
    {
      settled, queue, found := SearchRound(g, edgeLabel, r, rows, a, settled, queue, depth);
      depth := depth + 1;
    }
    frontier := queue;
  }

  lemma {:induction false} PathSteps(rows: Rows, edgeLabel: nat, start: nat, v: nat, p: seq<Step>, s: Step)
    requires IsPath(rows, edgeLabel, start, v, p) && s in p
    ensures IsStep(rows, edgeLabel, s)
    decreases |p|
  {
    var init, last := p[..|p| - 1], p[|p| - 1];
    assert p == init + [last];
    if s != last {
      PathSteps(rows, edgeLabel, start, last.vertex, init, s);
    }
  }

  /** No row shows anything else than an edge of the graph. */
  lemma {:induction false} ShownStepsStand(rows: Rows, edgeLabel: nat, r: Request, paths: seq<seq<Step>>, first: nat,
                                           row: ShortestRow)
    requires r.perStep && (forall p :: p in paths ==> IsPath(rows, edgeLabel, r.start, r.target, p))
    requires row in RowsOf(r, paths, first)
    ensures StandsInGraph(row, rows, edgeLabel, r.outgoing)
    decreases |paths|
  {
    var init, p := paths[..|paths| - 1], paths[|paths| - 1];
    if row in RowsOf(r, init, first) {
      ShownStepsStand(rows, edgeLabel, r, init, first, row);
    } else {
      var more := PathRows(r, p, first + |init|);
      var j :| 0 <= j < |more| && more[j] == row;
      PathSteps(rows, edgeLabel, r.start, r.target, p, p[j]);
    }
  }

  /** What the rows found for a request are: they show exactly its shortest paths, each once. */
  ghost predicate IsAnswer(rows: Rows, edgeLabel: nat, r: Request, length: nat, output: seq<ShortestRow>)
  {
    && (exists paths ::
          AreShortestPaths(rows, edgeLabel, r, length, paths) && ShowsPaths(output, r, paths, length, 0))
    && (r.perStep ==> forall row :: row in output ==> StandsInGraph(row, rows, edgeLabel, r.outgoing))
  }

  lemma RowsAnswer(rows: Rows, edgeLabel: nat, r: Request, length: nat, paths: seq<seq<Step>>)
    requires AreShortestPaths(rows, edgeLabel, r, length, paths)
    ensures IsAnswer(rows, edgeLabel, r, length, RowsOf(r, paths, 0))
  {
    RowsShowPaths(r, paths, length, 0);
    forall p | p in paths
      ensures IsPath(rows, edgeLabel, r.start, r.target, p)
    {
      assert IsShortest(rows, edgeLabel, r, p);
    }
    hide ShowsPaths, IsPath;
    if r.perStep {
      forall row | row in RowsOf(r, paths, 0)
        ensures StandsInGraph(row, rows, edgeLabel, r.outgoing)
      {
        ShownStepsStand(rows, edgeLabel, r, paths, 0, row);
      }
    }
  }

  /** The rows of all shortest paths: each such path once, and nothing else. */
  method Search(g: View, edgeLabel: nat, r: Request) returns (length: nat, output: seq<ShortestRow>)
    requires g.Valid() && g.DistinctRows()
    ensures IsAnswer(Labelled(g, edgeLabel), edgeLabel, r, length, output)
  {
    ghost var rows, a, frontier := Labelled(g, edgeLabel), LabelArcs(g, edgeLabel), [];
    var settled, found;
    GraphIsOk(g, edgeLabel);
    settled, length, found, frontier := SearchLevels(g, edgeLabel, r, rows, a);
    if !found {
      NothingFound(rows, edgeLabel, a, r, settled, frontier, length);
      RowsAnswer(rows, edgeLabel, r, 0, []);
      assert RowsOf(r, [], 0) == [];
      return 0, [];
    }
    FoundPaths(rows, edgeLabel, a, r, settled, frontier, length);
    RowsAnswer(rows, edgeLabel, r, length, Back(settled, r.start, r.target, length));
    output := EmitPaths(r, settled, length);
  }

  method EmitPaths(r: Request, settled: Steps, depth: nat) returns (output: seq<ShortestRow>)
    ensures output == RowsOf(r, Back(settled, r.start, r.target, depth), 0)
  {
    var walk := new WalkBack(r, settled, depth);
    walk.Walk(r.target, depth);
    output := walk.rows;
    assert walk.path[depth..] == [];
    FollowedByNothing(Back(settled, r.start, r.target, depth));
  }

  lemma FollowedByNothing(paths: seq<seq<Step>>)
    ensures Followed(paths, []) == paths
  {
    assert forall i :: 0 <= i < |paths| ==> paths[i] + [] == paths[i];
  }

  lemma LevelsApart(rows: Rows, settled: Steps, frontier: seq<nat>, level: Steps)
    requires IsLevel(rows, settled, frontier, level)
    ensures forall v :: v in level ==> v !in settled
  {
    forall v | v in level
      ensures v !in settled
    {
      LevelSteps(rows, settled, frontier, level, v);
    }
  }
}
