/** Trail enumeration: a resumable depth-first search over an explicit stack of cursors. */
module Trails {
  import opened Sequences
  import opened Traversal

  datatype Query = Query(edgeLabel: nat, minimum: nat, maximum: nat, unbounded: bool)
  {
    /** What the operator checks before it searches. */
    predicate Valid()
    {
      unbounded || 1 <= minimum <= maximum
    }

    predicate Descends(depth: nat)
    {
      unbounded || depth < maximum
    }

    predicate Emits(depth: nat)
    {
      depth >= minimum
    }
  }

  /** What the search reads of the adjacency: rows, where base rows start, and all edge ids. */
  datatype Shape = Shape(rows: Rows, starts: nat -> nat, ids: set<nat>)
  {
    ghost predicate Bounded()
    {
      forall v, e :: e in rows(v) ==> e.edgeId in ids
    }

    /** Edge keys are unique, so no row repeats one. */
    ghost predicate Distinct()
    {
      forall v, i, j :: 0 <= i < j < |rows(v)| ==> rows(v)[i].edgeId != rows(v)[j].edgeId
    }
  }

  ghost predicate Matches(g: View, sh: Shape)
    requires g.Valid()
  {
    sh.Bounded() && forall v :: sh.rows(v) == g.Row(v) && sh.starts(v) == g.BaseStart(v)
  }

  ghost function ShapeOf(g: View): (sh: Shape)
    requires g.Valid()
    ensures sh.Bounded() && Matches(g, sh)
    ensures g.DistinctRows() ==> sh.Distinct()
  {
    var sh := Shape((v: nat) => g.Row(v), (v: nat) => g.BaseStart(v), g.EdgeIds());
    assert sh.Bounded() by {
      forall v, e | e in sh.rows(v)
        ensures e.edgeId in sh.ids
      {
        var i :| 0 <= i < |g.Row(v)| && g.Row(v)[i] == e;
        g.RowIds(v, i);
      }
    }
    sh
  }

  ghost function Ids(path: seq<Edge>): set<nat>
  {
    set e | e in path :: e.edgeId
  }

  lemma IdsWithoutLast(path: seq<Edge>)
    requires |path| > 0 && DistinctIds(path)
    ensures Ids(path[..|path| - 1]) == Ids(path) - {path[|path| - 1].edgeId}
  {
    var init, last := path[..|path| - 1], path[|path| - 1];
    assert path == init + [last];
    IdsAppend(init, last);
    assert forall e :: e in init ==> e.edgeId != last.edgeId;
  }

  /** The trails that extend `path` over the edges of `v` from position `i` on, depth first. */
  ghost function Extensions(sh: Shape, q: Query, v: nat, path: seq<Edge>, i: nat): seq<seq<Edge>>
    requires sh.Bounded()
    decreases sh.ids - Ids(path), 1 + |sh.rows(v)| - i
  {
    if i >= |sh.rows(v)| then []
    else
      var e := sh.rows(v)[i];
      if e.edgeLabel != q.edgeLabel || e.edgeId in Ids(path) then Extensions(sh, q, v, path, i + 1)
      else
        assert sh.rows(v)[i] in sh.rows(v);
        Through(sh, q, path, e) + Extensions(sh, q, v, path, i + 1)
  }

  /** A path is reported once it is long enough. */
  function Reported(q: Query, path: seq<Edge>): seq<seq<Edge>>
  {
    if q.Emits(|path|) then [path] else []
  }

  /** The trails that begin with `path` and then `e`. */
  ghost function Through(sh: Shape, q: Query, path: seq<Edge>, e: Edge): seq<seq<Edge>>
    requires sh.Bounded() && e.edgeId in sh.ids && e.edgeId !in Ids(path)
    decreases sh.ids - Ids(path), 0
  {
    IdsAppend(path, e);
    Reported(q, path + [e])
    + (if q.Descends(|path| + 1) then Extensions(sh, q, e.neighbor, path + [e], 0) else [])
  }

  lemma IdsAppend(path: seq<Edge>, e: Edge)
    ensures Ids(path + [e]) == Ids(path) + {e.edgeId}
  {
    assert e in path + [e] && forall x :: x in path ==> x in path + [e];
  }

  /** How many rounds of the search the same part of the tree takes. */
  ghost function Rounds(sh: Shape, q: Query, v: nat, path: seq<Edge>, i: nat): nat
    requires sh.Bounded()
    decreases sh.ids - Ids(path), 1 + |sh.rows(v)| - i
  {
    if i >= |sh.rows(v)| then 1
    else
      var e := sh.rows(v)[i];
      if e.edgeLabel != q.edgeLabel || e.edgeId in Ids(path) then 1 + Rounds(sh, q, v, path, i + 1)
      else
        assert sh.rows(v)[i] in sh.rows(v);
        IdsAppend(path, e);
        1 + Rounds(sh, q, v, path, i + 1)
        + (if q.Descends(|path| + 1) then Rounds(sh, q, e.neighbor, path + [e], 0) else 1)
  }

  /** A cursor at or past `baseEnd` indexes the delta edges. */
  datatype Frame = Frame(vertex: nat, cursor: nat, end: nat, baseEnd: nat, deltaEdges: seq<Edge>)

  /** A frame that still has edges is a cursor over its vertex's row. */
  ghost predicate FrameOk(sh: Shape, f: Frame)
    requires sh.Bounded()
  {
    && f.cursor <= f.end
    && (f.cursor < f.end ==>
          sh.starts(f.vertex) <= f.cursor && f.end - sh.starts(f.vertex) == |sh.rows(f.vertex)|)
  }

  ghost predicate FramesOk(sh: Shape, frames: seq<Frame>)
    requires sh.Bounded()
  {
    forall i :: 0 <= i < |frames| ==> FrameOk(sh, frames[i])
  }

  ghost function FrameTrails(sh: Shape, q: Query, f: Frame, path: seq<Edge>): seq<seq<Edge>>
    requires sh.Bounded() && FrameOk(sh, f)
  {
    if f.cursor == f.end then [] else Extensions(sh, q, f.vertex, path, f.cursor - sh.starts(f.vertex))
  }

  ghost function FrameRounds(sh: Shape, q: Query, f: Frame, path: seq<Edge>): nat
    requires sh.Bounded() && FrameOk(sh, f)
  {
    if f.cursor == f.end then 1 else Rounds(sh, q, f.vertex, path, f.cursor - sh.starts(f.vertex))
  }

  /** What a stack has still to produce: its top frame's trails, then those of the frames below. */
  ghost function Pending(sh: Shape, q: Query, frames: seq<Frame>, path: seq<Edge>): seq<seq<Edge>>
    requires sh.Bounded() && FramesOk(sh, frames) && |frames| <= |path| + 1
  {
    if |frames| == 0 then []
    else
      FrameTrails(sh, q, frames[|frames| - 1], path[..|frames| - 1]) + Pending(sh, q, frames[..|frames| - 1], path)
  }

  ghost function PendingRounds(sh: Shape, q: Query, frames: seq<Frame>, path: seq<Edge>): nat
    requires sh.Bounded() && FramesOk(sh, frames) && |frames| <= |path| + 1
  {
    if |frames| == 0 then 0
    else
      FrameRounds(sh, q, frames[|frames| - 1], path[..|frames| - 1])
          + PendingRounds(sh, q, frames[..|frames| - 1], path)
  }

  /** Lower frames depend only on their own part of the path. */
  lemma {:induction false} PendingPrefix(sh: Shape, q: Query, frames: seq<Frame>, path: seq<Edge>, other: seq<Edge>)
    requires sh.Bounded() && FramesOk(sh, frames) && |frames| <= |path| + 1 && |frames| <= |other| + 1
    requires forall i :: 0 <= i < |frames| - 1 ==> path[i] == other[i]
    ensures Pending(sh, q, frames, path) == Pending(sh, q, frames, other)
    ensures PendingRounds(sh, q, frames, path) == PendingRounds(sh, q, frames, other)
  {
    if |frames| > 0 {
      PendingPrefix(sh, q, frames[..|frames| - 1], path, other);
      assert path[..|frames| - 1] == other[..|frames| - 1];
    }
  }

  /** The stack between two rounds: one frame more than the path has edges. */
  ghost predicate StackOk(sh: Shape, frames: seq<Frame>, path: seq<Edge>)
  {
    && sh.Bounded() && FramesOk(sh, frames)
    && (|frames| == |path| + 1 || (frames == [] && path == []))
  }

  lemma TopOfStack(sh: Shape, frames: seq<Frame>, path: seq<Edge>)
    requires StackOk(sh, frames, path) && |frames| > 0
    ensures FrameOk(sh, frames[|frames| - 1]) && path[..|frames| - 1] == path
    ensures FramesOk(sh, frames[..|frames| - 1])
  {
  }

  /** The edge under a cursor. */
  function EdgeAt(g: View, f: Frame): Edge
    requires g.Valid() && FrameReads(g, f) && f.cursor < f.end
  {
    if f.cursor < f.baseEnd then g.BaseEdge(f.cursor) else f.deltaEdges[f.cursor - f.baseEnd]
  }

  /** A frame that still has edges indexes them in its vertex's base row and delta edges. */
  ghost predicate FrameReads(g: View, f: Frame)
    requires g.Valid()
  {
    f.cursor < f.end ==>
      && f.baseEnd == g.BaseEnd(f.vertex) <= |g.base.neighbors| && f.deltaEdges == g.DeltaRow(f.vertex)
      && f.end == f.baseEnd + |f.deltaEdges| && g.BaseStart(f.vertex) <= f.cursor
  }

  ghost predicate FramesRead(g: View, frames: seq<Frame>)
    requires g.Valid()
  {
    forall i :: 0 <= i < |frames| ==> FrameReads(g, frames[i])
  }

  /** The cursor stands at this edge of its vertex's row. */
  ghost predicate AtEdge(sh: Shape, f: Frame, e: Edge)
  {
    && f.cursor < f.end && f.cursor >= sh.starts(f.vertex) && f.cursor - sh.starts(f.vertex) < |sh.rows(f.vertex)|
    && e == sh.rows(f.vertex)[f.cursor - sh.starts(f.vertex)]
  }

  lemma EdgeAtIsRow(g: View, sh: Shape, f: Frame)
    requires g.Valid() && Matches(g, sh) && FrameReads(g, f) && f.cursor < f.end
    ensures AtEdge(sh, f, EdgeAt(g, f))
  {
    assert |g.Row(f.vertex)| == f.end - g.BaseStart(f.vertex);
  }

  function Moved(f: Frame): Frame
  {
    f.(cursor := f.cursor + 1)
  }

  /** The stack after its top cursor has moved on. */
  function Advanced(frames: seq<Frame>): seq<Frame>
    requires |frames| > 0
  {
    frames[|frames| - 1 := Moved(frames[|frames| - 1])]
  }

  lemma AdvancedStack(sh: Shape, frames: seq<Frame>, path: seq<Edge>)
    requires StackOk(sh, frames, path) && |frames| > 0 && frames[|frames| - 1].cursor < frames[|frames| - 1].end
    ensures StackOk(sh, Advanced(frames), path) && Advanced(frames)[..|frames| - 1] == frames[..|frames| - 1]
  {
  }

  /** Past its last edge a cursor has nothing to produce, wherever it stands in the row. */
  lemma AdvancedFrame(sh: Shape, q: Query, f: Frame, path: seq<Edge>)
    requires sh.Bounded() && FrameOk(sh, f) && f.cursor < f.end
    ensures FrameOk(sh, Moved(f))
    ensures var i := f.cursor + 1 - sh.starts(f.vertex);
      && FrameTrails(sh, q, Moved(f), path) == Extensions(sh, q, f.vertex, path, i)
      && FrameRounds(sh, q, Moved(f), path) == Rounds(sh, q, f.vertex, path, i)
  {
    assert f.end - sh.starts(f.vertex) == |sh.rows(f.vertex)|;
  }

  lemma FrameSkips(sh: Shape, q: Query, f: Frame, path: seq<Edge>, e: Edge)
    requires sh.Bounded() && FrameOk(sh, f) && AtEdge(sh, f, e)
    requires e.edgeLabel != q.edgeLabel || e.edgeId in Ids(path)
    ensures FrameOk(sh, Moved(f))
    ensures FrameTrails(sh, q, f, path) == FrameTrails(sh, q, Moved(f), path)
    ensures FrameRounds(sh, q, f, path) == 1 + FrameRounds(sh, q, Moved(f), path)
  {
    AdvancedFrame(sh, q, f, path);
  }

  /** A frame for a vertex reached at some depth: its whole row, or nothing at the last depth. */
  ghost predicate Opens(sh: Shape, q: Query, f: Frame, v: nat, depth: nat)
  {
    && f.vertex == v && f.cursor <= f.end
    && if q.Descends(depth) then f.cursor == sh.starts(v) && f.end - sh.starts(v) == |sh.rows(v)| else f.cursor == f.end
  }

  lemma OpenedFrame(sh: Shape, q: Query, f: Frame, v: nat, path: seq<Edge>)
    requires sh.Bounded() && Opens(sh, q, f, v, |path|)
    ensures FrameOk(sh, f)
    ensures FrameTrails(sh, q, f, path) == if q.Descends(|path|) then Extensions(sh, q, v, path, 0) else []
    ensures FrameRounds(sh, q, f, path) == if q.Descends(|path|) then Rounds(sh, q, v, path, 0) else 1
  {
    hide Through, Ids;
  }

  lemma ExtensionsTake(sh: Shape, q: Query, v: nat, path: seq<Edge>, i: nat)
    requires sh.Bounded() && i < |sh.rows(v)|
    requires var e := sh.rows(v)[i]; e.edgeLabel == q.edgeLabel && e.edgeId !in Ids(path)
    ensures sh.rows(v)[i].edgeId in sh.ids
    ensures Extensions(sh, q, v, path, i) == Through(sh, q, path, sh.rows(v)[i]) + Extensions(sh, q, v, path, i + 1)
    ensures Rounds(sh, q, v, path, i) == 1 + Rounds(sh, q, v, path, i + 1)
      + (if q.Descends(|path| + 1) then Rounds(sh, q, sh.rows(v)[i].neighbor, path + [sh.rows(v)[i]], 0) else 1)
  {
    assert sh.rows(v)[i] in sh.rows(v);
  }

  lemma FrameTakes(sh: Shape, q: Query, f: Frame, path: seq<Edge>, e: Edge, next: Frame)
    requires sh.Bounded() && FrameOk(sh, f) && AtEdge(sh, f, e) && Opens(sh, q, next, e.neighbor, |path + [e]|)
    requires e.edgeLabel == q.edgeLabel && e.edgeId !in Ids(path)
    ensures FrameOk(sh, Moved(f)) && FrameOk(sh, next)
    ensures FrameTrails(sh, q, f, path) ==
            Reported(q, path + [e]) + FrameTrails(sh, q, next, path + [e]) + FrameTrails(sh, q, Moved(f), path)
    ensures FrameRounds(sh, q, f, path) == 1 + FrameRounds(sh, q, Moved(f), path) + FrameRounds(sh, q, next, path + [e])
  {
    AdvancedFrame(sh, q, f, path);
    ExtensionsTake(sh, q, f.vertex, path, f.cursor - sh.starts(f.vertex));
    OpenedFrame(sh, q, next, e.neighbor, path + [e]);
  }

  /** The trails and rounds that a stack still has ahead. */
  ghost predicate Remains(sh: Shape, q: Query, frames: seq<Frame>, path: seq<Edge>, todo: seq<seq<Edge>>, rounds: nat)
  {
    StackOk(sh, frames, path) && todo == Pending(sh, q, frames, path) && rounds == PendingRounds(sh, q, frames, path)
  }

  /** What the loop reads off the stack. */
  lemma StackShape(sh: Shape, q: Query, frames: seq<Frame>, path: seq<Edge>, todo: seq<seq<Edge>>, rounds: nat)
    requires Remains(sh, q, frames, path, todo, rounds)
    ensures |frames| == |path| + 1 || (frames == [] && path == [] && todo == [])
    ensures |frames| > 0 ==> frames[|frames| - 1].cursor <= frames[|frames| - 1].end
  {
    if |frames| > 0 {
      TopOfStack(sh, frames, path);
    }
  }

  lemma PopStep(sh: Shape, q: Query, frames: seq<Frame>, path: seq<Edge>, path': seq<Edge>, todo: seq<seq<Edge>>,
                rounds: nat)
    requires Remains(sh, q, frames, path, todo, rounds) && |frames| > 0
      && frames[|frames| - 1].cursor == frames[|frames| - 1].end
    requires path' == if |path| > 0 then path[..|path| - 1] else path
    ensures rounds > 0 && Remains(sh, q, frames[..|frames| - 1], path', todo, rounds - 1)
  {
    TopOfStack(sh, frames, path);
    PendingPrefix(sh, q, frames[..|frames| - 1], path, path');
  }

  lemma SkipStep(sh: Shape, q: Query, frames: seq<Frame>, path: seq<Edge>, e: Edge, todo: seq<seq<Edge>>, rounds: nat)
    requires Remains(sh, q, frames, path, todo, rounds) && |frames| > 0
    requires AtEdge(sh, frames[|frames| - 1], e)
    requires e.edgeLabel != q.edgeLabel || e.edgeId in Ids(path)
    ensures rounds > 0 && Remains(sh, q, Advanced(frames), path, todo, rounds - 1)
  {
    TopOfStack(sh, frames, path);
    AdvancedStack(sh, frames, path);
    FrameSkips(sh, q, frames[|frames| - 1], path, e);
  }

  lemma TakeStep(sh: Shape, q: Query, frames: seq<Frame>, path: seq<Edge>, e: Edge, next: Frame, todo: seq<seq<Edge>>,
                 rounds: nat)
    returns (todo': seq<seq<Edge>>, rounds': nat)
    requires Remains(sh, q, frames, path, todo, rounds) && |frames| > 0
    requires AtEdge(sh, frames[|frames| - 1], e) && Opens(sh, q, next, e.neighbor, |path + [e]|)
    requires e.edgeLabel == q.edgeLabel && e.edgeId !in Ids(path)
    ensures Remains(sh, q, Advanced(frames) + [next], path + [e], todo', rounds')
    ensures todo == Reported(q, path + [e]) + todo' && rounds' < rounds
  {
    TopOfStack(sh, frames, path);
    AdvancedStack(sh, frames, path);
    var top := frames[|frames| - 1];
    FrameTakes(sh, q, top, path, e, next);
    PushedStack(sh, q, Advanced(frames), path, e, next);
    Regroup(Reported(q, path + [e]), FrameTrails(sh, q, next, path + [e]),
            FrameTrails(sh, q, Moved(top), path), Pending(sh, q, frames[..|frames| - 1], path));
    todo', rounds' := Pending(sh, q, Advanced(frames) + [next], path + [e]),
        PendingRounds(sh, q, Advanced(frames) + [next], path + [e]);
  }

  lemma Regroup<T>(a: seq<T>, b: seq<T>, c: seq<T>, d: seq<T>)
    ensures (a + b + c) + d == a + (b + (c + d))
  {
  }

  lemma PushedStack(sh: Shape, q: Query, frames: seq<Frame>, path: seq<Edge>, e: Edge, next: Frame)
    requires StackOk(sh, frames, path) && |frames| > 0 && FrameOk(sh, next)
    ensures StackOk(sh, frames + [next], path + [e])
    ensures Pending(sh, q, frames + [next], path + [e]) == FrameTrails(sh, q, next, path + [e])
      + Pending(sh, q, frames, path)
    ensures PendingRounds(sh, q, frames + [next], path + [e]) == FrameRounds(sh, q, next, path + [e])
      + PendingRounds(sh, q, frames, path)
  {
    var frames', path' := frames + [next], path + [e];
    assert frames'[..|frames|] == frames && path'[..|path'|] == path';
    PendingPrefix(sh, q, frames, path', path);
  }

  // ----- the operator's local state -----

  /** The first trails are searched in the list of edge ids; from this many edges on, in a hash set. */
  const EDGE_MEMBERSHIP_THRESHOLD: nat := 64

  /** Everything one input row asks for: the empty trail where zero repetitions are allowed, then
      the trails from the start, depth first. */
  ghost function AllTrails(sh: Shape, q: Query, start: nat): seq<seq<Edge>>
    requires sh.Bounded()
  {
    if q.minimum == 0 then [[]] + Extensions(sh, q, start, [], 0) else Extensions(sh, q, start, [], 0)
  }

  lemma FirstFrame(sh: Shape, q: Query, start: nat, f: Frame) returns (rounds: nat)
    requires sh.Bounded() && f.vertex == start && f.cursor == sh.starts(start)
      && f.end - sh.starts(start) == |sh.rows(start)|
    ensures Remains(sh, q, [f], [], Extensions(sh, q, start, [], 0), rounds)
  {
    var frames := [f];
    var none: seq<Frame> := [];
    var path: seq<Edge> := [];
    assert frames[..0] == none && path[..0] == path;
    assert Pending(sh, q, none, path) == [];
    assert FrameTrails(sh, q, f, path) == Extensions(sh, q, start, path, 0);
    rounds := PendingRounds(sh, q, frames, path);
  }

  function MakeFrame(g: View, v: nat): Frame
    requires g.Valid()
  {
    Frame(v, g.BaseStart(v), g.BaseEnd(v) + |g.DeltaRow(v)|, g.BaseEnd(v), g.DeltaRow(v))
  }

  /** The frame of a vertex that the search has reached at some depth; at the last depth it is empty. */
  function NextFrame(g: View, q: Query, v: nat, depth: nat): Frame
    requires g.Valid()
  {
    if q.Descends(depth) then MakeFrame(g, v) else Frame(v, 0, 0, 0, [])
  }

  lemma MadeFrame(g: View, sh: Shape, v: nat)
    requires g.Valid() && Matches(g, sh)
    ensures var f := MakeFrame(g, v);
      f.cursor == sh.starts(v) <= f.end && f.end - sh.starts(v) == |sh.rows(v)| && FrameReads(g, f)
  {
    assert |sh.rows(v)| == |g.Row(v)|;
  }

  lemma NextFrameOpens(g: View, sh: Shape, q: Query, v: nat, depth: nat)
    requires g.Valid() && Matches(g, sh)
    ensures Opens(sh, q, NextFrame(g, q, v, depth), v, depth) && FrameReads(g, NextFrame(g, q, v, depth))
  {
    MadeFrame(g, sh, v);
  }

  /** The list and, once it is in use, the set hold the ids of the trail's edges, which differ. */
  ghost predicate TracksPath(edgeIds: seq<nat>, active: set<nat>, indexed: bool, path: seq<Edge>)
  {
    && |edgeIds| == |path| && (forall i :: 0 <= i < |path| ==> edgeIds[i] == path[i].edgeId)
    && DistinctIds(path)
    && active == (if indexed then Ids(path) else {})
  }

  ghost predicate DistinctIds(path: seq<Edge>)
  {
    forall i, j :: 0 <= i < j < |path| ==> path[i].edgeId != path[j].edgeId
  }

  lemma TrackedLength(edgeIds: seq<nat>, active: set<nat>, indexed: bool, path: seq<Edge>)
    requires TracksPath(edgeIds, active, indexed, path)
    ensures |edgeIds| == |path| && (!indexed ==> active == {})
    ensures |path| > 0 ==> edgeIds[|path| - 1] == path[|path| - 1].edgeId
  {
  }

  lemma TrackedPathGrows(edgeIds: seq<nat>, active: set<nat>, indexed: bool, path: seq<Edge>, e: Edge)
    requires TracksPath(edgeIds, active, indexed, path) && e.edgeId !in Ids(path)
    ensures TracksPath(edgeIds + [e.edgeId], if indexed then active + {e.edgeId} else active, indexed, path + [e])
  {
    IdsAppend(path, e);
    forall i | 0 <= i < |path|
      ensures path[i].edgeId != e.edgeId
    {
      assert path[i] in path;
    }
  }

  lemma TrackedPathShrinks(edgeIds: seq<nat>, active: set<nat>, indexed: bool, path: seq<Edge>)
    requires TracksPath(edgeIds, active, indexed, path) && |path| > 0
    ensures TracksPath(edgeIds[..|edgeIds| - 1], if indexed then active - {edgeIds[|edgeIds| - 1]} else active, indexed,
                       path[..|path| - 1])
  {
    IdsWithoutLast(path);
  }

  /** Moving the list into a set changes no membership test. */
  lemma TrackedPathIndexed(edgeIds: seq<nat>, active: set<nat>, path: seq<Edge>)
    requires TracksPath(edgeIds, active, false, path)
    ensures TracksPath(edgeIds, set x | x in edgeIds, true, path)
  {
    IdsOfPath(edgeIds, path);
  }

  /** The last edge of a trail and the two ends of the trail, in the direction of its edges. */
  datatype PathRow = PathRow(edgeId: nat, source: nat, target: nat)

  function EndOf(start: nat, t: seq<Edge>): nat
  {
    if |t| == 0 then start else t[|t| - 1].neighbor
  }

  /** The row of a trail: its last edge, and its ends in the direction of the edges, so that a search
      against the edges shows the start as the target.  A trail without edges joins the start to itself. */
  ghost predicate IsRowOf(row: PathRow, outgoing: bool, start: nat, t: seq<Edge>)
  {
    if |t| == 0 then row.edgeId == 0 && row.source == row.target == start
    else
      && row.edgeId == t[|t| - 1].edgeId
      && (outgoing ==> row.source == start && row.target == t[|t| - 1].neighbor)
      && (!outgoing ==> row.source == t[|t| - 1].neighbor && row.target == start)
  }

  ghost predicate AreRowsOf(outgoing: bool, start: nat, rows: seq<PathRow>, trails: seq<seq<Edge>>)
  {
    |rows| == |trails| && forall i :: 0 <= i < |rows| ==> IsRowOf(rows[i], outgoing, start, trails[i])
  }

  class PathExpansion {
    const view: View
    const query: Query
    const outgoing: bool
    const start: nat
    var frames: seq<Frame>
    var edgeIds: seq<nat>
    var activeEdgeIds: set<nat>
    var indexedEdges: bool
    var zeroPending: bool
    var currentEnd: nat
    ghost const shape: Shape
    ghost var path: seq<Edge>
    ghost var todo: seq<seq<Edge>>
    ghost var rounds: nat

    ghost predicate Valid()
      reads this
    {
      && view.Valid() && Matches(view, shape) && FramesRead(view, frames)
      && Remains(shape, query, frames, path, todo, rounds)
      && TracksPath(edgeIds, activeEdgeIds, indexedEdges, path) && (zeroPending ==> path == [])
    }

    /** The trails that later calls will produce, in order. */
    ghost function Remaining(): seq<seq<Edge>>
      reads this
    {
      if zeroPending then [[]] + todo else todo
    }

    constructor (view: View, query: Query, outgoing: bool, start: nat)
      requires view.Valid()
      ensures Valid() && this.view == view && this.query == query && this.outgoing == outgoing && this.start == start
      ensures Remaining() == AllTrails(ShapeOf(view), query, start)
    {
      hide Remains, Matches;
      this.view, this.query, this.outgoing, this.start := view, query, outgoing, start;
      frames, edgeIds, path := [MakeFrame(view, start)], [], [];
      activeEdgeIds, indexedEdges, zeroPending, currentEnd := {}, false, query.minimum == 0, start;
      shape, todo, rounds := ShapeOf(view), Extensions(ShapeOf(view), query, start, [], 0), 0;
      new;
      MadeFrame(view, shape, start);
      rounds := FirstFrame(shape, query, start, MakeFrame(view, start));
    }

    /** Leaves a frame that has no edges left, and the edge that led to it. */
    method Pop()
      requires Valid() && |frames| > 0 && frames[|frames| - 1].cursor == frames[|frames| - 1].end && !zeroPending
      modifies this
      ensures Valid() && !zeroPending && todo == old(todo) && rounds < old(rounds)
    {
      hide Remains, TracksPath, Matches;
      ghost var path' := if |path| > 0 then path[..|path| - 1] else path;
      StackShape(shape, query, frames, path, todo, rounds);
      TrackedLength(edgeIds, activeEdgeIds, indexedEdges, path);
      PopStep(shape, query, frames, path, path', todo, rounds);
      frames := frames[..|frames| - 1];
      if |edgeIds| > 0 && |edgeIds| >= |frames| {
        TrackedPathShrinks(edgeIds, activeEdgeIds, indexedEdges, path);
        if indexedEdges {
          activeEdgeIds := activeEdgeIds - {edgeIds[|edgeIds| - 1]};
        }
        edgeIds := edgeIds[..|edgeIds| - 1];
      }
      path, rounds := path', rounds - 1;
    }

    /** Whether the trail already uses an edge; the set replaces the list once the trail is long. */
    method IsRepeated(id: nat) returns (repeated: bool)
      requires Valid()
      modifies `activeEdgeIds, `indexedEdges
      ensures Valid() && (repeated <==> id in Ids(path))
    {
      IdsOfPath(edgeIds, path);
      if !indexedEdges && |edgeIds| >= EDGE_MEMBERSHIP_THRESHOLD {
        TrackedPathIndexed(edgeIds, activeEdgeIds, path);
        activeEdgeIds, indexedEdges := set x | x in edgeIds, true;
      }
      repeated := if indexedEdges then id in activeEdgeIds else id in edgeIds;
    }

    /** Follows the edge under the top cursor and tells whether the longer trail is reported. */
    method Take(e: Edge) returns (found: bool)
      requires Valid() && |frames| > 0 && !zeroPending && AtEdge(shape, frames[|frames| - 1], e)
      requires e.edgeLabel == query.edgeLabel && e.edgeId !in Ids(path)
      modifies this
      ensures Valid() && !zeroPending && old(todo) == (if found then [path] else []) + todo && rounds < old(rounds)
      ensures found ==> currentEnd == EndOf(start, path)
    {
      hide Remains, TracksPath, Matches, Opens, AtEdge, Ids, NextFrame;
      TrackedLength(edgeIds, activeEdgeIds, indexedEdges, path);
      TrackedPathGrows(edgeIds, activeEdgeIds, indexedEdges, path, e);
      NextFrameOpens(view, shape, query, e.neighbor, |path + [e]|);
      var next := NextFrame(view, query, e.neighbor, |edgeIds| + 1);
      todo, rounds := TakeStep(shape, query, frames, path, e, next, todo, rounds);
      if indexedEdges {
        activeEdgeIds := activeEdgeIds + {e.edgeId};
      }
      frames := Advanced(frames) + [next];
      edgeIds, path, currentEnd := edgeIds + [e.edgeId], path + [e], e.neighbor;
      found := query.Emits(|edgeIds|);
    }

    /** Moves past the edge under the top cursor. */
    method Skip(ghost e: Edge)
      requires Valid() && |frames| > 0 && !zeroPending && AtEdge(shape, frames[|frames| - 1], e)
      requires e.edgeLabel != query.edgeLabel || e.edgeId in Ids(path)
      modifies `frames, `rounds
      ensures Valid() && rounds < old(rounds)
    {
      hide Remains, TracksPath, Matches;
      SkipStep(shape, query, frames, path, e, todo, rounds);
      frames, rounds := Advanced(frames), rounds - 1;
    }

    /** Handles the edge under the top cursor: it is skipped, or taken and perhaps reported. */
    method Follow(e: Edge) returns (found: bool)
      requires Valid() && |frames| > 0 && !zeroPending && AtEdge(shape, frames[|frames| - 1], e)
      modifies this
      ensures Valid() && !zeroPending && old(todo) == (if found then [path] else []) + todo && rounds < old(rounds)
      ensures found ==> currentEnd == EndOf(start, path)
    {
      hide Remains, TracksPath, Matches;
      if e.edgeLabel != query.edgeLabel {
        Skip(e);
        return false;
      }
      var repeated := IsRepeated(e.edgeId);
      if repeated {
        Skip(e);
        return false;
      }
      found := Take(e);
    }

    /** One round of the search. */
    method Round() returns (found: bool)
      requires Valid() && |frames| > 0 && !zeroPending
      modifies this
      ensures Valid() && !zeroPending && old(todo) == (if found then [path] else []) + todo && rounds < old(rounds)
      ensures found ==> currentEnd == EndOf(start, path)
    {
      hide Remains, TracksPath, Matches;
      var frame := frames[|frames| - 1];
      StackShape(shape, query, frames, path, todo, rounds);
      if frame.cursor >= frame.end {
        Pop();
        return false;
      }
      EdgeAtIsRow(view, shape, frame);
      found := Follow(EdgeAt(view, frame));
    }

    /** The next trail, if there is one. */
    method Next() returns (found: bool)
      requires Valid()
      modifies this
      ensures Valid() && !zeroPending
      ensures if found then old(Remaining()) == [path] + Remaining() else old(Remaining()) == [] && Remaining() == []
      ensures found ==> currentEnd == EndOf(start, path)
    {
      hide Remains, TracksPath, Matches;
      if zeroPending {
        zeroPending, currentEnd := false, start;
        return true;
      }
      found := false;
      while |frames| > 0 && !found
        invariant Valid() && !zeroPending
        invariant old(todo) == if found then [path] + todo else todo
        invariant found ==> currentEnd == EndOf(start, path)
        decreases rounds
      {
        found := Round();
      }
      StackShape(shape, query, frames, path, todo, rounds);
    }

    /** The next output row, if there is one. */
    method NextRow() returns (found: bool, row: PathRow, ghost trail: seq<Edge>)
      requires Valid()
      modifies this
      ensures Valid() && IsRowOf(row, outgoing, start, trail)
      ensures if found then old(Remaining()) == [trail] + Remaining() else old(Remaining()) == [] && Remaining() == []
    {
      hide Remains, TracksPath, Matches;
      found := Next();
      if !found {
        return false, PathRow(0, start, start), [];
      }
      trail := path;
      TrackedLength(edgeIds, activeEdgeIds, indexedEdges, path);
      var edgeId := if |edgeIds| == 0 then 0 else edgeIds[|edgeIds| - 1];
      row := PathRow(edgeId, if outgoing then start else currentEnd, if outgoing then currentEnd else start);
    }

    /** Fills a chunk of at most `size` rows; a chunk that is not full is the last. */
    method Fill(size: nat) returns (rows: seq<PathRow>, ghost trails: seq<seq<Edge>>)
      requires Valid()
      modifies this
      ensures Valid() && old(Remaining()) == trails + Remaining()
      ensures |rows| <= size && (|rows| < size ==> Remaining() == [])
      ensures AreRowsOf(outgoing, start, rows, trails)
    {
      hide Remains, TracksPath, Matches;
      rows, trails := [], [];
      ghost var todo, left := Remaining(), Remaining();
      var found := true;
      while |rows| < size && found
        invariant Valid() && left == Remaining() && todo == trails + left
        invariant |rows| <= size && (!found ==> left == [])
        invariant AreRowsOf(outgoing, start, rows, trails)
        decreases size - |rows|, found
      {
        ghost var before, trail := left, [];
        var row;
        found, row, trail := NextRow();
        left := Remaining();
        if found {
          assert trails + before == trails + [trail] + left;
          rows, trails := rows + [row], trails + [trail];
        }
      }
    }
  }

  // ----- what the trails are -----

  ghost predicate IsStep(sh: Shape, q: Query, v: nat, e: Edge)
    requires sh.Bounded()
  {
    e.edgeLabel == q.edgeLabel && e in sh.rows(v)
  }

  /** Edge `k` leaves the vertex where the edges before it end. */
  ghost predicate StepsOn(sh: Shape, q: Query, start: nat, t: seq<Edge>, k: nat)
    requires sh.Bounded() && k < |t|
  {
    IsStep(sh, q, if k == 0 then start else t[k - 1].neighbor, t[k])
  }

  ghost predicate IsWalk(sh: Shape, q: Query, start: nat, t: seq<Edge>)
    requires sh.Bounded()
  {
    forall k: nat :: k < |t| ==> StepsOn(sh, q, start, t, k)
  }

  /** A walk over edges with the wanted label whose edges are all different. */
  ghost predicate IsTrail(sh: Shape, q: Query, start: nat, t: seq<Edge>)
    requires sh.Bounded()
  {
    IsWalk(sh, q, start, t) && DistinctIds(t)
  }

  ghost predicate LengthAllowed(q: Query, length: nat)
  {
    q.minimum <= length && (q.unbounded || length <= q.maximum)
  }

  ghost predicate Continues(sh: Shape, q: Query, v: nat, used: set<nat>, s: seq<Edge>)
    requires sh.Bounded()
    decreases |s|
  {
    |s| == 0
    || (s[0] in sh.rows(v) && s[0].edgeLabel == q.edgeLabel && s[0].edgeId !in used
        && Continues(sh, q, s[0].neighbor, used + {s[0].edgeId}, s[1..]))
  }

  lemma WalkFirst(sh: Shape, q: Query, v: nat, s: seq<Edge>)
    requires sh.Bounded() && |s| > 0
    ensures IsWalk(sh, q, v, s) <==> IsStep(sh, q, v, s[0]) && IsWalk(sh, q, s[0].neighbor, s[1..])
  {
    var rest := s[1..];
    forall k: nat | k < |rest|
      ensures StepsOn(sh, q, s[0].neighbor, rest, k) <==> StepsOn(sh, q, v, s, k + 1)
    {
    }
    assert StepsOn(sh, q, v, s, 0) <==> IsStep(sh, q, v, s[0]);
    if IsStep(sh, q, v, s[0]) && IsWalk(sh, q, s[0].neighbor, rest) {
      forall k: nat | k < |s|
        ensures StepsOn(sh, q, v, s, k)
      {
        assert k > 0 ==> StepsOn(sh, q, s[0].neighbor, rest, k - 1);
      }
    }
  }

  lemma DistinctFirst(s: seq<Edge>, used: set<nat>)
    requires |s| > 0
    ensures DistinctIds(s) && Ids(s) !! used <==>
            s[0].edgeId !in used && DistinctIds(s[1..]) && Ids(s[1..]) !! used + {s[0].edgeId}
  {
    IdsOfFirst(s);
    assert s[0].edgeId in used + {s[0].edgeId};
    if DistinctIds(s[1..]) && s[0].edgeId !in Ids(s[1..]) {
      FirstIdDiffers(s);
    }
  }

  lemma {:induction false} TrailContinues(sh: Shape, q: Query, v: nat, used: set<nat>, s: seq<Edge>)
    requires sh.Bounded()
    ensures Continues(sh, q, v, used, s) <==> IsTrail(sh, q, v, s) && Ids(s) !! used
    decreases |s|
  {
    if |s| > 0 {
      TrailContinues(sh, q, s[0].neighbor, used + {s[0].edgeId}, s[1..]);
      WalkFirst(sh, q, v, s);
      DistinctFirst(s, used);
    }
  }

  lemma IdsOfFirst(s: seq<Edge>)
    requires |s| > 0
    ensures Ids(s) == Ids(s[1..]) + {s[0].edgeId}
    ensures DistinctIds(s) ==> s[0].edgeId !in Ids(s[1..])
  {
    assert s == [s[0]] + s[1..];
    forall x
      ensures x in Ids(s) <==> x in Ids(s[1..]) + {s[0].edgeId}
    {
      assert forall e :: e in s <==> e == s[0] || e in s[1..];
    }
  }

  lemma FirstIdDiffers(s: seq<Edge>)
    requires |s| > 0 && DistinctIds(s[1..]) && s[0].edgeId !in Ids(s[1..])
    ensures DistinctIds(s)
  {
    forall i, j | 0 <= i < j < |s|
      ensures s[i].edgeId != s[j].edgeId
    {
      assert s[j] == s[1..][j - 1] && s[j] in s[1..];
      if i > 0 {
        assert s[i] == s[1..][i - 1];
      }
    }
  }

  ghost predicate FoundFrom(row: seq<Edge>, i: nat, e: Edge)
  {
    exists j :: i <= j < |row| && row[j] == e
  }

  ghost predicate Extends(sh: Shape, q: Query, v: nat, path: seq<Edge>, i: nat, t: seq<Edge>)
    requires sh.Bounded()
  {
    && |path| < |t| && t[..|path|] == path && LengthAllowed(q, |t|)
    && FoundFrom(sh.rows(v), i, t[|path|]) && Continues(sh, q, v, Ids(path), t[|path|..])
  }

  lemma FoundFromNext(row: seq<Edge>, i: nat, e: Edge)
    requires i < |row|
    ensures FoundFrom(row, i, e) <==> e == row[i] || FoundFrom(row, i + 1, e)
  {
  }

  /** Continuing with a given first edge. */
  lemma ContinuesThrough(sh: Shape, q: Query, v: nat, path: seq<Edge>, e: Edge, t: seq<Edge>)
    requires sh.Bounded() && e in sh.rows(v) && e.edgeLabel == q.edgeLabel && e.edgeId !in Ids(path)
    requires |path| < |t| && t[..|path|] == path && t[|path|] == e
    ensures t[..|path| + 1] == path + [e]
    ensures Continues(sh, q, v, Ids(path), t[|path|..]) <==>
      Continues(sh, q, e.neighbor, Ids(path + [e]), t[|path| + 1..])
  {
    IdsAppend(path, e);
    assert t[|path|..][0] == e && t[|path|..][1..] == t[|path| + 1..];
  }

  lemma {:induction false} InExtensions(sh: Shape, q: Query, v: nat, path: seq<Edge>, i: nat, t: seq<Edge>)
    requires sh.Bounded() && q.Descends(|path|)
    ensures t in Extensions(sh, q, v, path, i) <==> Extends(sh, q, v, path, i, t)
    decreases sh.ids - Ids(path), 1 + |sh.rows(v)| - i
  {
    if i < |sh.rows(v)| {
      var e := sh.rows(v)[i];
      if |path| < |t| {
        FoundFromNext(sh.rows(v), i, t[|path|]);
      }
      InExtensions(sh, q, v, path, i + 1, t);
      if e.edgeLabel == q.edgeLabel && e.edgeId !in Ids(path) {
        assert sh.rows(v)[i] in sh.rows(v);
        InThrough(sh, q, v, path, e, t);
      }
    }
  }

  lemma {:induction false} InThrough(sh: Shape, q: Query, v: nat, path: seq<Edge>, e: Edge, t: seq<Edge>)
    requires sh.Bounded() && q.Descends(|path|) && e in sh.rows(v) && e.edgeLabel == q.edgeLabel
    requires e.edgeId in sh.ids && e.edgeId !in Ids(path)
    ensures t in Through(sh, q, path, e) <==>
            |path| < |t| && t[..|path|] == path && LengthAllowed(q, |t|) && t[|path|] == e
            && Continues(sh, q, v, Ids(path), t[|path|..])
    decreases sh.ids - Ids(path), 0
  {
    IdsAppend(path, e);
    var longer := path + [e];
    assert longer[..|path|] == path;
    if |path| < |t| && t[..|path|] == path && t[|path|] == e {
      ContinuesThrough(sh, q, v, path, e, t);
      if |t| == |longer| {
        assert t == longer;
      }
    }
    if q.Descends(|longer|) {
      InExtensions(sh, q, e.neighbor, longer, 0, t);
      if Extends(sh, q, e.neighbor, longer, 0, t) {
        assert t[..|path|] == t[..|longer|][..|path|] == path;
        assert t[|path|] == t[..|longer|][|path|] == e;
      }
      if |longer| < |t| {
        assert t[|longer|..][0] == t[|longer|];
      }
    }
  }

  /** The search reports exactly the trails of an allowed length. */
  lemma AllTrailsAreExact(sh: Shape, q: Query, start: nat, t: seq<Edge>)
    requires sh.Bounded() && q.Valid()
    ensures t in AllTrails(sh, q, start) <==>
      IsTrail(sh, q, start, t) && q.minimum <= |t| && (q.unbounded || |t| <= q.maximum)
  {
    var none: seq<Edge> := [];
    InExtensions(sh, q, start, none, 0, t);
    TrailContinues(sh, q, start, {}, t);
    assert Ids(none) == {};
    if |t| == 0 {
      assert t == none;
    } else {
      assert t[0..] == t && t[..0] == none;
      assert FoundFrom(sh.rows(start), 0, t[0]) <==> t[0] in sh.rows(start);
    }
  }

  lemma {:induction false} ExtensionsDiffer(sh: Shape, q: Query, v: nat, path: seq<Edge>, i: nat)
    requires sh.Bounded() && sh.Distinct() && q.Descends(|path|)
    ensures Distinct(Extensions(sh, q, v, path, i))
    decreases sh.ids - Ids(path), 1 + |sh.rows(v)| - i
  {
    if i < |sh.rows(v)| {
      var e := sh.rows(v)[i];
      ExtensionsDiffer(sh, q, v, path, i + 1);
      if e.edgeLabel == q.edgeLabel && e.edgeId !in Ids(path) {
        assert sh.rows(v)[i] in sh.rows(v);
        ThroughDiffer(sh, q, v, path, e);
        forall t | t in Through(sh, q, path, e)
          ensures t !in Extensions(sh, q, v, path, i + 1)
        {
          InThrough(sh, q, v, path, e, t);
          InExtensions(sh, q, v, path, i + 1, t);
        }
        ConcatDistinct(Through(sh, q, path, e), Extensions(sh, q, v, path, i + 1));
      }
    }
  }

  lemma {:induction false} ThroughDiffer(sh: Shape, q: Query, v: nat, path: seq<Edge>, e: Edge)
    requires sh.Bounded() && sh.Distinct() && q.Descends(|path|) && e in sh.rows(v) && e.edgeLabel == q.edgeLabel
    requires e.edgeId in sh.ids && e.edgeId !in Ids(path)
    ensures Distinct(Through(sh, q, path, e))
    decreases sh.ids - Ids(path), 0
  {
    IdsAppend(path, e);
    var longer := path + [e];
    if q.Descends(|longer|) {
      ExtensionsDiffer(sh, q, e.neighbor, longer, 0);
      InExtensions(sh, q, e.neighbor, longer, 0, longer);
      ConcatDistinct(Reported(q, longer), Extensions(sh, q, e.neighbor, longer, 0));
    }
  }

  /** No trail is reported twice. */
  lemma AllTrailsDiffer(sh: Shape, q: Query, start: nat)
    requires sh.Bounded() && sh.Distinct() && q.Valid()
    ensures Distinct(AllTrails(sh, q, start))
  {
    ExtensionsDiffer(sh, q, start, [], 0);
    InExtensions(sh, q, start, [], 0, []);
    if q.minimum == 0 {
      ConcatDistinct([[]], Extensions(sh, q, start, [], 0));
    }
  }

  lemma IdsOfPath(edgeIds: seq<nat>, path: seq<Edge>)
    requires |edgeIds| == |path| && (forall i :: 0 <= i < |path| ==> edgeIds[i] == path[i].edgeId)
    ensures forall id :: id in edgeIds <==> id in Ids(path)
  {
    forall id | id in edgeIds
      ensures id in Ids(path)
    {
      var i :| 0 <= i < |edgeIds| && edgeIds[i] == id;
      assert path[i] in path;
    }
  }
}
