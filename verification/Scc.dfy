/** Strongly connected components by two depth-first passes: finish order along outgoing edges,
    then a backward flood from each vertex in reverse finish order. */
module Scc {
  import opened Walks
  import opened Csr
  import opened Sequences

  datatype Frame = Frame(vertex: nat, offset: nat, end: nat)

  /** What the first pass knows about the vertex that finished at position `p`: the vertices that
      finished at `k` or later, but before it, are reachable from it, and no arc leads from the
      first `k` to a vertex that finished at `k` or later, unless that finished after `p`. */
  ghost predicate Cut(a: Arcs, order: seq<nat>, p: nat, k: nat)
    requires k <= p < |order|
  {
    && (forall i :: k <= i <= p ==> Reaches(a, order[p], order[i]))
    && (forall i, v: nat :: 0 <= i < k && (order[i], v) in a ==> v in order[..k] || v !in order[..p + 1])
  }

  /** The finish order lists every projected vertex once and has a cut at every position. */
  ghost predicate IsFinishOrder(a: Arcs, vertices: set<nat>, order: seq<nat>, cuts: seq<nat>)
  {
    && Distinct(order)
    && (forall v :: v in order <==> v in vertices)
    && |cuts| == |order|
    && forall p :: 0 <= p < |order| ==> cuts[p] <= p && Cut(a, order, p, cuts[p])
  }

  /** The first pass between two steps.  `path` is the vertices on the stack, and `starts[i]` how
      many vertices had finished when `path[i]` was entered. */
  ghost predicate Searching(a: Arcs, path: seq<nat>, starts: seq<nat>, order: seq<nat>, cuts: seq<nat>)
  {
    && Distinct(order) && Distinct(path)
    && (forall v :: v in path ==> v !in order)
    && |starts| == |path| && |cuts| == |order|
    && (forall i, j :: 0 <= i <= j < |path| ==> Reaches(a, path[i], path[j]))
    && (forall i :: 0 <= i < |path| ==> starts[i] <= |order|)
    && (forall i, j :: 0 <= i < |path| && starts[i] <= j < |order| ==> Reaches(a, path[i], order[j]))
    && (forall i, j, v: nat :: 0 <= i < |path| && 0 <= j < starts[i] && (order[j], v) in a
          ==> v in order[..starts[i]] || v in path[..i])
    && (forall i, v: nat :: 0 <= i < |order| && (order[i], v) in a ==> v in order || v in path)
    && (forall p :: 0 <= p < |order| ==> cuts[p] <= p && Cut(a, order, p, cuts[p]))
  }

  lemma Enter(a: Arcs, path: seq<nat>, starts: seq<nat>, order: seq<nat>, cuts: seq<nat>, v: nat)
    requires Searching(a, path, starts, order, cuts)
    requires v !in path && v !in order
    requires |path| > 0 ==> (path[|path| - 1], v) in a
    ensures Searching(a, path + [v], starts + [|order|], order, cuts)
  {
    hide Reaches, Cut;
    var path', starts' := path + [v], starts + [|order|];
    ReachRefl(a, v);
    forall i, j | 0 <= i <= j < |path'|
      ensures Reaches(a, path'[i], path'[j])
    {
      if j == |path| && i < j {
        ReachArc(a, path[|path| - 1], v);
        ReachTrans(a, path[i], path[|path| - 1], v);
      }
    }
    forall i, j, w: nat | 0 <= i < |path'| && 0 <= j < starts'[i] && (order[j], w) in a
      ensures w in order[..starts'[i]] || w in path'[..i]
    {
      assert order[..|order|] == order && path'[..|path|] == path;
      if i < |path| {
        assert path'[..i] == path[..i];
      }
    }
  }

  lemma Finish(a: Arcs, path: seq<nat>, starts: seq<nat>, order: seq<nat>, cuts: seq<nat>)
    requires Searching(a, path, starts, order, cuts) && |path| > 0
    requires forall v: nat :: (path[|path| - 1], v) in a ==> v in order || v in path
    ensures Searching(a, path[..|path| - 1], starts[..|path| - 1], order + [path[|path| - 1]],
                      cuts + [starts[|path| - 1]])
  {
    var top := |path| - 1;
    var path', starts', order', cuts' := path[..top], starts[..top], order + [path[top]], cuts + [starts[top]];
    assert path[top] in path;
    assert Distinct(order');
    forall i, j | 0 <= i < |path'| && starts'[i] <= j < |order'|
      ensures Reaches(a, path'[i], order'[j])
    {
      if j == |order| {
        assert Reaches(a, path[i], path[top]);
      }
    }
    forall v | v in path'
      ensures v !in order'
    {
      var i :| 0 <= i < |path'| && path'[i] == v;
      assert path[i] != path[top];
    }
    forall i, j, v: nat | 0 <= i < |path'| && 0 <= j < starts'[i] && (order'[j], v) in a
      ensures v in order'[..starts'[i]] || v in path'[..i]
    {
      assert order'[..starts'[i]] == order[..starts[i]] && path'[..i] == path[..i];
    }
    forall i, v: nat | 0 <= i < |order'| && (order'[i], v) in a
      ensures v in order' || v in path'
    {
      assert v in order || v in path;
      assert path == path' + [path[top]];
    }
    forall p | 0 <= p < |order'|
      ensures cuts'[p] <= p && Cut(a, order', p, cuts'[p])
    {
      if p < |order| {
        assert order'[..cuts[p]] == order[..cuts[p]] && order'[..p + 1] == order[..p + 1];
        assert Cut(a, order, p, cuts[p]);
      } else {
        CutAtFinish(a, path, starts, order, cuts);
      }
    }
  }

  lemma CutAtFinish(a: Arcs, path: seq<nat>, starts: seq<nat>, order: seq<nat>, cuts: seq<nat>)
    requires Searching(a, path, starts, order, cuts) && |path| > 0
    ensures Cut(a, order + [path[|path| - 1]], |order|, starts[|path| - 1])
  {
    var top := |path| - 1;
    var k, order' := starts[top], order + [path[top]];
    forall i, v: nat | 0 <= i < k && (order'[i], v) in a
      ensures v in order'[..k] || v !in order'[..|order| + 1]
    {
      assert order'[..k] == order[..k] && order'[..|order| + 1] == order';
      if v in path[..top] {
        var j :| 0 <= j < top && path[j] == v;
        assert v !in order && v != path[top];
      }
    }
  }

  /** Moves a frame's cursor past the next projected neighbour that has not been visited. */
  method NextUnvisited(n: nat, outgoing: Adjacency, pr: Projection, visited: array<bool>, from: Frame)
    returns (frame: Frame, descended: bool)
    requires outgoing.Valid(n) && pr.Valid(n) && visited.Length == n
    requires Framed(n, outgoing, pr, from, from.vertex) && Scanned(outgoing, pr, visited, from)
    ensures Framed(n, outgoing, pr, frame, from.vertex)
    ensures descended ==>
      && from.offset < frame.offset
      && Scanned(outgoing, pr, visited, frame.(offset := frame.offset - 1))
      && pr.KeepsLabel(outgoing.labels[frame.offset - 1])
      && pr.Keeps(outgoing.neighbors[frame.offset - 1]) && !visited[outgoing.neighbors[frame.offset - 1]]
    ensures !descended ==> frame.offset == frame.end && Scanned(outgoing, pr, visited, frame)
  {
    frame, descended := from, false;
    while frame.offset < frame.end
      invariant Framed(n, outgoing, pr, frame, from.vertex) && from.offset <= frame.offset
      invariant Scanned(outgoing, pr, visited, frame)
    {
      var slot := frame.offset;
      frame := frame.(offset := slot + 1);
      if pr.filterLabel && outgoing.labels[slot] != pr.requiredLabel {
        continue;
      }
      var neighbor := outgoing.neighbors[slot];
      if !pr.Keeps(neighbor) || visited[neighbor] {
        continue;
      }
      return frame, true;
    }
  }

  /** What holds between two steps of the first pass, on top of `Searching`: the stack is `path` with
      cursors, and a vertex is marked exactly when it has finished or is on the stack. */
  ghost predicate Consistent(n: nat, outgoing: Adjacency, pr: Projection, visited: array<bool>, stack: seq<Frame>,
                             path: seq<nat>, starts: seq<nat>, order: seq<nat>, cuts: seq<nat>)
    requires outgoing.Valid(n)
    reads visited
  {
    && visited.Length == n && |stack| == |path|
    && Searching(ProjectedArcs(n, outgoing, pr), path, starts, order, cuts)
    && (forall i :: 0 <= i < |stack| ==> Framed(n, outgoing, pr, stack[i], path[i]))
    && (forall i :: 0 <= i < |stack| ==> Scanned(outgoing, pr, visited, stack[i]))
    && (forall v: nat :: v in order ==> v < n && pr.Keeps(v))
    && (forall v: nat :: v < n ==> (visited[v] <==> v in order || v in path))
  }

  ghost function Unvisited(visited: array<bool>): set<nat>
    reads visited
  {
    set v: nat | v < visited.Length && !visited[v]
  }

  /** Marks a projected vertex and puts it on the stack. */
  method Push(n: nat, outgoing: Adjacency, pr: Projection, visited: array<bool>, stack: seq<Frame>,
              ghost path: seq<nat>, ghost starts: seq<nat>, ghost order: seq<nat>, ghost cuts: seq<nat>, v: nat)
    returns (stack': seq<Frame>)
    requires outgoing.Valid(n) && pr.Valid(n) && Consistent(n, outgoing, pr, visited, stack, path, starts, order, cuts)
    requires v < n && pr.Keeps(v) && !visited[v]
    requires |path| > 0 ==> (path[|path| - 1], v) in ProjectedArcs(n, outgoing, pr)
    modifies visited
    ensures Consistent(n, outgoing, pr, visited, stack', path + [v], starts + [|order|], order, cuts)
    ensures forall w: nat :: w < n ==> (visited[w] <==> old(visited[w]) || w == v)
  {
    hide Searching, ProjectedArcs;
    visited[v] := true;
    stack' := stack + [Frame(v, outgoing.offsets[v], outgoing.offsets[v + 1])];
    Enter(ProjectedArcs(n, outgoing, pr), path, starts, order, cuts, v);
  }

  lemma ReplaceFrame(n: nat, outgoing: Adjacency, pr: Projection, visited: array<bool>, stack: seq<Frame>, i: nat,
                     frame: Frame,
                     path: seq<nat>, starts: seq<nat>, order: seq<nat>, cuts: seq<nat>)
    requires outgoing.Valid(n) && Consistent(n, outgoing, pr, visited, stack, path, starts, order, cuts)
    requires i < |stack| && Framed(n, outgoing, pr, frame, path[i]) && Scanned(outgoing, pr, visited, frame)
    ensures Consistent(n, outgoing, pr, visited, stack[i := frame], path, starts, order, cuts)
  {
  }

  lemma ScannedOneMore(n: nat, outgoing: Adjacency, pr: Projection, visited: array<bool>, frame: Frame)
    requires outgoing.Valid(n) && visited.Length == n && frame.vertex < n
    requires outgoing.offsets[frame.vertex] < frame.offset <= outgoing.offsets[frame.vertex + 1]
    requires Scanned(outgoing, pr, visited, frame.(offset := frame.offset - 1))
    requires visited[outgoing.neighbors[frame.offset - 1]]
    ensures Scanned(outgoing, pr, visited, frame)
  {
  }

  /** Enters the vertex that `frame`, the advanced top frame, has just passed. */
  method Descend(n: nat, outgoing: Adjacency, pr: Projection, visited: array<bool>, stack: seq<Frame>, frame: Frame,
                 ghost path: seq<nat>, ghost starts: seq<nat>, ghost order: seq<nat>, ghost cuts: seq<nat>)
    returns (stack': seq<Frame>)
    requires outgoing.Valid(n) && pr.Valid(n) && Consistent(n, outgoing, pr, visited, stack, path, starts, order, cuts)
    requires |stack| > 0 && Framed(n, outgoing, pr, frame, path[|stack| - 1])
      && outgoing.offsets[frame.vertex] < frame.offset
    requires Scanned(outgoing, pr, visited, frame.(offset := frame.offset - 1))
    requires pr.KeepsLabel(outgoing.labels[frame.offset - 1]) && pr.Keeps(outgoing.neighbors[frame.offset - 1])
    requires !visited[outgoing.neighbors[frame.offset - 1]]
    modifies visited
    ensures Consistent(n, outgoing, pr, visited, stack', path + [outgoing.neighbors[frame.offset - 1]],
                       starts + [|order|], order, cuts)
    ensures forall w: nat :: w < n ==> (visited[w] <==> old(visited[w]) || w == outgoing.neighbors[frame.offset - 1])
  {
    var neighbor := outgoing.neighbors[frame.offset - 1];
    SlotIsArc(n, outgoing, pr, frame.vertex, frame.offset - 1);
    var pushed := Push(n, outgoing, pr, visited, stack, path, starts, order, cuts, neighbor);
    assert Scanned(outgoing, pr, visited, frame.(offset := frame.offset - 1));
    ScannedOneMore(n, outgoing, pr, visited, frame);
    ReplaceFrame(n, outgoing, pr, visited, pushed, |stack| - 1, frame, path + [neighbor], starts + [|order|], order,
                 cuts);
    stack' := pushed[|stack| - 1 := frame];
  }

  /** A frame whose row is exhausted finishes its vertex. */
  lemma Retreat(n: nat, outgoing: Adjacency, pr: Projection, visited: array<bool>, stack: seq<Frame>, frame: Frame,
                path: seq<nat>, starts: seq<nat>, order: seq<nat>, cuts: seq<nat>)
    requires outgoing.Valid(n) && pr.Valid(n) && Consistent(n, outgoing, pr, visited, stack, path, starts, order, cuts)
    requires |stack| > 0 && Framed(n, outgoing, pr, frame, path[|stack| - 1]) && frame.offset == frame.end
    requires Scanned(outgoing, pr, visited, frame)
    ensures Consistent(n, outgoing, pr, visited, stack[..|stack| - 1], path[..|stack| - 1], starts[..|stack| - 1],
                       order + [frame.vertex], cuts + [starts[|stack| - 1]])
  {
    var top := |stack| - 1;
    forall v: nat | (path[top], v) in ProjectedArcs(n, outgoing, pr)
      ensures v in order || v in path
    {
      var slot := ArcHasSlot(n, outgoing, pr, path[top], v);
    }
    Finish(ProjectedArcs(n, outgoing, pr), path, starts, order, cuts);
    assert path == path[..top] + [frame.vertex];
  }

  /** One round of the first pass: descend from the top frame, or finish its vertex. */
  method Step(n: nat, outgoing: Adjacency, pr: Projection, visited: array<bool>, stack: seq<Frame>,
              ghost path: seq<nat>, ghost starts: seq<nat>, order: seq<nat>, ghost cuts: seq<nat>)
    returns (stack': seq<Frame>, ghost path': seq<nat>, ghost starts': seq<nat>, order': seq<nat>,
             ghost cuts': seq<nat>)
    requires outgoing.Valid(n) && pr.Valid(n) && Consistent(n, outgoing, pr, visited, stack, path, starts, order, cuts)
    requires |stack| > 0
    modifies visited
    ensures Consistent(n, outgoing, pr, visited, stack', path', starts', order', cuts')
    ensures forall v: nat :: v < n && old(visited[v]) ==> visited[v]
    ensures Unvisited(visited) < old(Unvisited(visited))
      || (Unvisited(visited) == old(Unvisited(visited)) && |stack'| < |stack|)
  {
    assert |starts| == |path|;
    hide Searching, ProjectedArcs;
    var top := |stack| - 1;
    var frame, descended := NextUnvisited(n, outgoing, pr, visited, stack[top]);
    if descended {
      var neighbor := outgoing.neighbors[frame.offset - 1];
      assert neighbor in Unvisited(visited);
      stack' := Descend(n, outgoing, pr, visited, stack, frame, path, starts, order, cuts);
      path', starts', order', cuts' := path + [neighbor], starts + [|order|], order, cuts;
    } else {
      Retreat(n, outgoing, pr, visited, stack, frame, path, starts, order, cuts);
      order', cuts' := order + [frame.vertex], cuts + [starts[top]];
      path', starts', stack' := path[..top], starts[..top], stack[..top];
    }
  }

  /** The first pass: an iterative depth-first search that keeps one cursor per frame. */
  method FinishOrder(n: nat, outgoing: Adjacency, pr: Projection) returns (order: seq<nat>)
    requires outgoing.Valid(n) && pr.Valid(n)
    ensures exists cuts :: IsFinishOrder(ProjectedArcs(n, outgoing, pr), Vertices(n, pr), order, cuts)
  {
    ghost var cuts: seq<nat>;
    var visited := new bool[n](i => false);
    order, cuts := [], [];
    for start := 0 to n
      invariant Consistent(n, outgoing, pr, visited, [], [], [], order, cuts)
      invariant forall v: nat :: v < start && pr.Keeps(v) ==> visited[v]
    {
      if !pr.Keeps(start) || visited[start] {
        continue;
      }
      var stack := Push(n, outgoing, pr, visited, [], [], [], order, cuts, start);
      ghost var path: seq<nat>, starts: seq<nat> := [] + [start], [] + [|order|];
      while |stack| > 0
        invariant Consistent(n, outgoing, pr, visited, stack, path, starts, order, cuts)
        invariant forall v: nat :: v <= start && pr.Keeps(v) ==> visited[v]
        decreases Unvisited(visited), |stack|
      {
        stack, path, starts, order, cuts := Step(n, outgoing, pr, visited, stack, path, starts, order, cuts);
      }
    }
    assert IsFinishOrder(ProjectedArcs(n, outgoing, pr), Vertices(n, pr), order, cuts);
  }

  ghost predicate Framed(n: nat, outgoing: Adjacency, pr: Projection, f: Frame, v: nat)
    requires outgoing.Valid(n)
  {
    f.vertex == v < n && pr.Keeps(v) && outgoing.offsets[v] <= f.offset <= f.end == outgoing.offsets[v + 1]
  }

  /** Every projected neighbour before the frame's cursor has been visited. */
  ghost predicate Scanned(outgoing: Adjacency, pr: Projection, visited: array<bool>, f: Frame)
    reads visited
  {
    forall slot: nat :: f.vertex + 1 < |outgoing.offsets| && outgoing.offsets[f.vertex] <= slot < f.offset
      && slot < |outgoing.neighbors| && slot < |outgoing.labels| && outgoing.neighbors[slot] < visited.Length
      && pr.KeepsLabel(outgoing.labels[slot]) && pr.Keeps(outgoing.neighbors[slot])
      ==> visited[outgoing.neighbors[slot]]
  }

  /** The projected vertices that reach `v` and are reached from it. */
  ghost function Class(a: Arcs, vertices: set<nat>, v: nat): set<nat>
  {
    set w | w in vertices && Mutual(a, v, w)
  }

  lemma ClassesAgree(a: Arcs, vertices: set<nat>, u: nat, v: nat)
    requires Mutual(a, u, v)
    ensures Class(a, vertices, u) == Class(a, vertices, v)
  {
    forall w | w in vertices
      ensures Mutual(a, u, w) <==> Mutual(a, v, w)
    {
      if Mutual(a, u, w) {
        ReachTrans(a, v, u, w);
        ReachTrans(a, w, u, v);
      }
      if Mutual(a, v, w) {
        ReachTrans(a, u, v, w);
        ReachTrans(a, w, v, u);
      }
    }
  }

  /** A union of strong classes of the projected graph. */
  ghost predicate Saturated(a: Arcs, vertices: set<nat>, done: set<nat>)
  {
    done <= vertices && forall u, v :: u in done && v in vertices && Mutual(a, u, v) ==> v in done
  }

  /** A backward flood that stops at finished classes cannot miss a vertex of the start's class. */
  lemma {:induction false} FloodReachesClass(a: Arcs, vertices: set<nat>, done: set<nat>, members: set<nat>, start: nat,
                                             v: nat, k: nat)
    requires Saturated(a, vertices, done) && start in vertices && start !in done && start in members
    requires forall u, w :: w in members && (u, w) in a ==> u in members || u in done
    requires forall u, w :: (u, w) in a ==> u in vertices && w in vertices
    requires Reaches(a, start, v) && HasWalk(a, v, start, k)
    ensures v in members
    decreases k
  {
    if k > 0 {
      var x := WalkSplit(a, v, start, 1, k - 1);
      WalkOne(a, v, x);
      ReachArc(a, v, x);
      ReachTrans(a, start, v, x);
      FloodReachesClass(a, vertices, done, members, start, x, k - 1);
      assert Mutual(a, v, start);
    }
  }

  /** The first pass confines the flood: going backwards from the vertices at positions `k` to `p`
      over unfinished classes never leaves those positions. */
  ghost predicate Zone(a: Arcs, vertices: set<nat>, done: set<nat>, start: nat, zone: set<nat>)
  {
    && start in zone
    && (forall z :: z in zone ==> Reaches(a, start, z))
    && (forall u, w :: w in zone && w !in done && (u, w) in a && u !in done ==> u in zone)
  }

  /** The vertices that finished at positions `k` to `p`. */
  ghost function Positions(order: seq<nat>, k: nat, p: nat): set<nat>
    requires p < |order|
  {
    set i | k <= i <= p :: order[i]
  }

  ghost predicate SuffixDone(order: seq<nat>, index: nat, done: set<nat>)
  {
    forall i :: index <= i < |order| ==> order[i] in done
  }

  lemma SuffixGrows(order: seq<nat>, index: nat, done: set<nat>, done': set<nat>)
    requires index < |order| && SuffixDone(order, index + 1, done) && done <= done' && order[index] in done'
    ensures SuffixDone(order, index, done')
  {
  }

  lemma CutGivesZone(a: Arcs, vertices: set<nat>, order: seq<nat>, cuts: seq<nat>, p: nat, done: set<nat>)
    requires IsFinishOrder(a, vertices, order, cuts) && p < |order|
    requires forall u, w :: (u, w) in a ==> u in vertices && w in vertices
    requires SuffixDone(order, p + 1, done)
    ensures Zone(a, vertices, done, order[p], Positions(order, cuts[p], p))
  {
    var k := cuts[p];
    var zone := Positions(order, k, p);
    forall u, w | w in zone && w !in done && (u, w) in a && u !in done
      ensures u in zone
    {
      var i :| 0 <= i < |order| && order[i] == u;
      var j :| k <= j <= p && order[j] == w;
      assert w == order[..p + 1][j];
      assert w !in order[..k];
      assert i >= k;
    }
  }

  ghost predicate Minimum(vertexIds: seq<nat>, group: set<nat>, id: nat)
  {
    && (exists v :: v in group && v < |vertexIds| && vertexIds[v] == id)
    && (forall v :: v in group && v < |vertexIds| ==> id <= vertexIds[v])
  }

  ghost function Visited(visited: array<bool>): set<nat>
    reads visited
  {
    set v: nat | v < visited.Length && visited[v]
  }

  /** The flood between two steps: what is marked is what was marked before, collected or pending. */
  ghost predicate Flooding(a: Arcs, vertices: set<nat>, done: set<nat>, zone: set<nat>, start: nat, seen: set<nat>,
                           members: seq<nat>, stack: seq<nat>)
  {
    && Distinct(members) && Distinct(stack) && Elements(members) !! Elements(stack)
    && (forall v :: v in members || v in stack ==> v in vertices && v in zone && v !in done && Reaches(a, v, start))
    && seen == done + Elements(members) + Elements(stack)
    && start in seen
  }

  ghost predicate Explored(a: Arcs, members: seq<nat>, seen: set<nat>)
  {
    forall u, w :: w in members && (u, w) in a ==> u in seen
  }

  /** Moving the last pending vertex to the collected ones. */
  lemma Collect(a: Arcs, vertices: set<nat>, done: set<nat>, zone: set<nat>, start: nat, seen: set<nat>,
                members: seq<nat>, stack: seq<nat>)
    requires Flooding(a, vertices, done, zone, start, seen, members, stack) && |stack| > 0
    ensures var v := stack[|stack| - 1];
      && v in vertices && v !in members
      && Elements(members + [v]) == Elements(members) + {v}
      && Flooding(a, vertices, done, zone, start, seen, members + [v], stack[..|stack| - 1])
  {
    var v, rest := stack[|stack| - 1], stack[..|stack| - 1];
    assert v in Elements(stack) && stack == rest + [v];
    assert v !in rest;
    assert Elements(stack) == Elements(rest) + {v};
  }

  /** Marking a neighbour of a collected vertex. */
  lemma Touch(a: Arcs, vertices: set<nat>, done: set<nat>, zone: set<nat>, start: nat, seen: set<nat>,
              members: seq<nat>, stack: seq<nat>, u: nat, w: nat)
    requires Flooding(a, vertices, done, zone, start, seen, members, stack) && Zone(a, vertices, done, start, zone)
    requires w in members && (u, w) in a && u in vertices && u !in seen
    ensures Flooding(a, vertices, done, zone, start, seen + {u}, members, stack + [u])
  {
    ReachArc(a, u, w);
    ReachTrans(a, u, w, start);
    assert u in zone && u !in Elements(members) && u !in Elements(stack);
    assert Elements(stack + [u]) == Elements(stack) + {u};
  }

  lemma MinimumGrows(vertexIds: seq<nat>, group: set<nat>, id: nat, v: nat)
    requires v < |vertexIds| && (group == {} ==> id == vertexIds[v]) && (group != {} ==> Minimum(vertexIds, group, id))
    ensures Minimum(vertexIds, group + {v}, if vertexIds[v] < id then vertexIds[v] else id)
  {
  }

  /** When nothing is pending, exactly the class of the start has been collected. */
  lemma FloodIsClass(a: Arcs, vertices: set<nat>, done: set<nat>, zone: set<nat>, start: nat, seen: set<nat>,
                     members: seq<nat>)
    requires forall u, w :: (u, w) in a ==> u in vertices && w in vertices
    requires Saturated(a, vertices, done) && Zone(a, vertices, done, start, zone) && start in vertices && start !in done
    requires Flooding(a, vertices, done, zone, start, seen, members, []) && Explored(a, members, seen)
    ensures Elements(members) == Class(a, vertices, start)
  {
    forall v | v in Class(a, vertices, start)
      ensures v in members
    {
      var k :| HasWalk(a, v, start, k);
      FloodReachesClass(a, vertices, done, Elements(members), start, v, k);
    }
  }

  /** The second pass, from one start: collects the start's class over incoming edges. */
  method Flood(vertexIds: seq<nat>, incoming: Adjacency, pr: Projection, visited: array<bool>, start: nat,
               ghost a: Arcs, ghost vertices: set<nat>, ghost zone: set<nat>)
    returns (members: seq<nat>, minimumId: nat)
    requires incoming.Valid(|vertexIds|) && visited.Length == |vertexIds|
    requires Reverse(a) == ProjectedArcs(|vertexIds|, incoming, pr) && vertices == Vertices(|vertexIds|, pr)
    requires start in vertices && !visited[start]
    requires Saturated(a, vertices, Visited(visited)) && Zone(a, vertices, Visited(visited), start, zone)
    modifies visited
    ensures Distinct(members) && Elements(members) == Class(a, vertices, start)
    ensures Visited(visited) == old(Visited(visited)) + Elements(members)
    ensures Minimum(vertexIds, Elements(members), minimumId)
  {
    ghost var done := Visited(visited);
    ReachRefl(a, start);
    members := [];
    var stack: seq<nat> := [start];
    visited[start] := true;
    minimumId := vertexIds[start];
    FloodStarts(a, vertices, done, zone, start, Visited(visited));
    hide Flooding, Zone, Saturated, Minimum;
    while |stack| > 0
      invariant Flooding(a, vertices, done, zone, start, Visited(visited), members, stack)
      invariant Explored(a, members, Visited(visited))
      invariant Elements(members) == {} ==> stack == [start] && minimumId == vertexIds[start]
      invariant Elements(members) != {} ==> Minimum(vertexIds, Elements(members), minimumId)
      decreases vertices - Elements(members)
    {
      var vertex := stack[|stack| - 1];
      Collect(a, vertices, done, zone, start, Visited(visited), members, stack);
      MinimumGrows(vertexIds, Elements(members), minimumId, vertex);
      stack := stack[..|stack| - 1];
      members := members + [vertex];
      minimumId := if vertexIds[vertex] < minimumId then vertexIds[vertex] else minimumId;
      stack := VisitIncoming(|vertexIds|, incoming, pr, visited, vertex, members, stack, a, vertices, done, zone,
                             start);
    }
    FloodIsClass(a, vertices, done, zone, start, Visited(visited), members);
    FloodEnds(a, vertices, done, zone, start, Visited(visited), members);
  }

  lemma FloodStarts(a: Arcs, vertices: set<nat>, done: set<nat>, zone: set<nat>, start: nat, seen: set<nat>)
    requires Zone(a, vertices, done, start, zone) && start in vertices && start !in done && Reaches(a, start, start)
    requires seen == done + {start}
    ensures Flooding(a, vertices, done, zone, start, seen, [], [start])
  {
  }

  lemma FloodEnds(a: Arcs, vertices: set<nat>, done: set<nat>, zone: set<nat>, start: nat, seen: set<nat>,
                  members: seq<nat>)
    requires Flooding(a, vertices, done, zone, start, seen, members, [])
    ensures start in seen && Distinct(members) && seen == done + Elements(members)
  {
  }

  /** Visits the incoming edges of a collected vertex. */
  method VisitIncoming(n: nat, incoming: Adjacency, pr: Projection, visited: array<bool>, vertex: nat,
                       ghost members: seq<nat>,
                       pending: seq<nat>, ghost a: Arcs, ghost vertices: set<nat>, ghost done: set<nat>,
                           ghost zone: set<nat>,
                       ghost start: nat)
    returns (stack: seq<nat>)
    requires incoming.Valid(n) && visited.Length == n && vertex in members
    requires Reverse(a) == ProjectedArcs(n, incoming, pr) && vertices == Vertices(n, pr)
    requires Flooding(a, vertices, done, zone, start, Visited(visited), members, pending)
    requires Zone(a, vertices, done, start, zone)
    modifies visited
    ensures Flooding(a, vertices, done, zone, start, Visited(visited), members, stack)
    ensures old(Visited(visited)) <= Visited(visited)
    ensures forall u: nat :: (u, vertex) in a ==> u in Visited(visited)
  {
    assert vertex in vertices;
    hide Flooding, Zone, ProjectedArcs, Visited, RowSeen;
    RowSeenAtStart(incoming, pr, incoming.offsets[vertex], Visited(visited));
    stack := pending;
    var slot := incoming.offsets[vertex];
    while slot < incoming.offsets[vertex + 1]
      invariant incoming.offsets[vertex] <= slot <= incoming.offsets[vertex + 1] <= |incoming.neighbors|
      invariant Flooding(a, vertices, done, zone, start, Visited(visited), members, stack)
      invariant old(Visited(visited)) <= Visited(visited)
      invariant RowSeen(incoming, pr, incoming.offsets[vertex], slot, Visited(visited))
    {
      var neighbor := incoming.neighbors[slot];
      ghost var before := Visited(visited);
      VisitedHolds(visited, neighbor);
      if pr.KeepsLabel(incoming.labels[slot]) && pr.Keeps(neighbor) && !visited[neighbor] {
        SlotIsArc(n, incoming, pr, vertex, slot);
        stack := Mark(visited, neighbor, vertex, members, stack, a, vertices, done, zone, start);
      }
      RowSeenNext(incoming, pr, incoming.offsets[vertex], slot, before, Visited(visited));
      slot := slot + 1;
    }
    RowSeenCovers(n, incoming, pr, vertex, a, Visited(visited));
  }

  lemma VisitedHolds(visited: array<bool>, v: nat)
    ensures v in Visited(visited) <==> v < visited.Length && visited[v]
  {
  }

  /** Marks a neighbour of a collected vertex and leaves it pending. */
  method Mark(visited: array<bool>, neighbor: nat, ghost vertex: nat, ghost members: seq<nat>, pending: seq<nat>,
              ghost a: Arcs,
              ghost vertices: set<nat>, ghost done: set<nat>, ghost zone: set<nat>, ghost start: nat)
    returns (stack: seq<nat>)
    requires Flooding(a, vertices, done, zone, start, Visited(visited), members, pending)
    requires Zone(a, vertices, done, start, zone) && vertex in members && (neighbor, vertex) in a
    requires neighbor < visited.Length && neighbor in vertices && !visited[neighbor]
    modifies visited
    ensures Visited(visited) == old(Visited(visited)) + {neighbor}
    ensures Flooding(a, vertices, done, zone, start, Visited(visited), members, stack)
  {
    hide Flooding, Zone;
    Touch(a, vertices, done, zone, start, Visited(visited), members, pending, neighbor, vertex);
    visited[neighbor] := true;
    assert Visited(visited) == old(Visited(visited)) + {neighbor};
    stack := pending + [neighbor];
  }

  ghost predicate RowSeen(adj: Adjacency, pr: Projection, start: nat, end: nat, seen: set<nat>)
    requires end <= |adj.neighbors| && end <= |adj.labels|
  {
    forall i :: start <= i < end && pr.KeepsLabel(adj.labels[i]) && pr.Keeps(adj.neighbors[i]) ==>
        adj.neighbors[i] in seen
  }

  /** The row reported for a vertex describes its strong class. */
  ghost predicate Labelled(vertexIds: seq<nat>, a: Arcs, vertices: set<nat>, v: nat, id: nat, size: nat)
  {
    Minimum(vertexIds, Class(a, vertices, v), id) && size == |Class(a, vertices, v)|
  }

  lemma LabelAgrees(vertexIds: seq<nat>, a: Arcs, vertices: set<nat>, u: nat, v: nat, id: nat, size: nat)
    requires Mutual(a, u, v) && Labelled(vertexIds, a, vertices, u, id, size)
    ensures Labelled(vertexIds, a, vertices, v, id, size)
  {
    ClassesAgree(a, vertices, u, v);
  }

  /** Distinct external ids make the minimum id of a class its name. */
  lemma SameIdIffMutual(vertexIds: seq<nat>, a: Arcs, vertices: set<nat>, u: nat, v: nat, i: nat, j: nat)
    requires forall x, y :: 0 <= x < y < |vertexIds| ==> vertexIds[x] < vertexIds[y]
    requires forall x :: x in vertices ==> x < |vertexIds|
    requires u in vertices && v in vertices
    requires Minimum(vertexIds, Class(a, vertices, u), i) && Minimum(vertexIds, Class(a, vertices, v), j)
    ensures i == j <==> Mutual(a, u, v)
  {
    if Mutual(a, u, v) {
      ClassesAgree(a, vertices, u, v);
    } else if i == j {
      var x :| x in Class(a, vertices, u) && x < |vertexIds| && vertexIds[x] == i;
      var y :| y in Class(a, vertices, v) && y < |vertexIds| && vertexIds[y] == j;
      assert x == y;
      ReachTrans(a, u, x, v);
      ReachTrans(a, v, x, u);
    }
  }

  /** A union of classes stays one when a class is added to it. */
  lemma SaturatedGrows(a: Arcs, vertices: set<nat>, done: set<nat>, v: nat)
    requires Saturated(a, vertices, done) && v in vertices
    ensures Saturated(a, vertices, done + Class(a, vertices, v))
  {
    forall x, y | x in Class(a, vertices, v) && y in vertices && Mutual(a, x, y)
      ensures y in Class(a, vertices, v)
    {
      ReachTrans(a, v, x, y);
      ReachTrans(a, y, x, v);
    }
  }

  /** Writes one class's row to all of its members. */
  method Assign(componentIds: array<nat>, componentSizes: array<nat>, members: seq<nat>, minimumId: nat)
    requires componentIds != componentSizes && componentIds.Length == componentSizes.Length
    requires forall v :: v in members ==> v < componentIds.Length
    modifies componentIds, componentSizes
    ensures forall v :: v in members ==> componentIds[v] == minimumId && componentSizes[v] == |members|
    ensures forall v: nat :: v < componentIds.Length && v !in members ==>
      componentIds[v] == old(componentIds[v]) && componentSizes[v] == old(componentSizes[v])
  {
    for i := 0 to |members|
      invariant forall k :: 0 <= k < i ==>
        members[k] in members && componentIds[members[k]] == minimumId && componentSizes[members[k]] == |members|
      invariant forall v: nat :: v < componentIds.Length && v !in members ==>
        componentIds[v] == old(componentIds[v]) && componentSizes[v] == old(componentSizes[v])
    {
      assert members[i] in members;
      componentIds[members[i]], componentSizes[members[i]] := minimumId, |members|;
    }
  }

  lemma RowSeenAtStart(adj: Adjacency, pr: Projection, start: nat, seen: set<nat>)
    requires start <= |adj.neighbors| && start <= |adj.labels|
    ensures RowSeen(adj, pr, start, start, seen)
  {
  }

  lemma RowSeenNext(adj: Adjacency, pr: Projection, start: nat, slot: nat, before: set<nat>, seen: set<nat>)
    requires slot < |adj.neighbors| && slot < |adj.labels| && RowSeen(adj, pr, start, slot, before) && before <= seen
    requires pr.KeepsLabel(adj.labels[slot]) && pr.Keeps(adj.neighbors[slot]) ==> adj.neighbors[slot] in seen
    ensures RowSeen(adj, pr, start, slot + 1, seen)
  {
  }

  lemma RowSeenCovers(n: nat, incoming: Adjacency, pr: Projection, vertex: nat, a: Arcs, seen: set<nat>)
    requires incoming.Valid(n) && vertex < n && Reverse(a) == ProjectedArcs(n, incoming, pr)
    requires RowSeen(incoming, pr, incoming.offsets[vertex], incoming.offsets[vertex + 1], seen)
    ensures forall u: nat :: (u, vertex) in a ==> u in seen
  {
    forall u: nat | (u, vertex) in a
      ensures u in seen
    {
      var slot := ArcHasSlot(n, incoming, pr, vertex, u);
    }
  }

  /** Collects the class of `start` and writes its rows. */
  method AssignClass(vertexIds: seq<nat>, incoming: Adjacency, pr: Projection, visited: array<bool>, start: nat,
                     componentIds: array<nat>, componentSizes: array<nat>,
                     ghost a: Arcs, ghost vertices: set<nat>, ghost zone: set<nat>)
    requires incoming.Valid(|vertexIds|) && visited.Length == |vertexIds|
    requires Reverse(a) == ProjectedArcs(|vertexIds|, incoming, pr) && vertices == Vertices(|vertexIds|, pr)
    requires componentIds != componentSizes && componentIds.Length == componentSizes.Length == |vertexIds|
    requires start in vertices && !visited[start]
    requires Saturated(a, vertices, Visited(visited)) && Zone(a, vertices, Visited(visited), start, zone)
    modifies visited, componentIds, componentSizes
    ensures Visited(visited) == old(Visited(visited)) + Class(a, vertices, start)
    ensures forall v: nat :: v < |vertexIds| && v !in Class(a, vertices, start) ==>
      componentIds[v] == old(componentIds[v]) && componentSizes[v] == old(componentSizes[v])
    ensures forall v :: v in Class(a, vertices, start) ==>
      Labelled(vertexIds, a, vertices, v, componentIds[v], componentSizes[v])
  {
    var members, minimumId := Flood(vertexIds, incoming, pr, visited, start, a, vertices, zone);
    DistinctCardinality(members);
    Assign(componentIds, componentSizes, members, minimumId);
    forall v | v in Class(a, vertices, start)
      ensures v in members && Labelled(vertexIds, a, vertices, v, componentIds[v], componentSizes[v])
    {
      assert v in Elements(members);
      LabelAgrees(vertexIds, a, vertices, start, v, minimumId, |members|);
    }
  }

  /** The second pass, in reverse finish order. */
  method AssignComponents(vertexIds: seq<nat>, incoming: Adjacency, pr: Projection, order: seq<nat>,
                          ghost cuts: seq<nat>, ghost a: Arcs, ghost vertices: set<nat>)
    returns (componentIds: array<nat>, componentSizes: array<nat>)
    requires incoming.Valid(|vertexIds|) && IsFinishOrder(a, vertices, order, cuts)
    requires Reverse(a) == ProjectedArcs(|vertexIds|, incoming, pr) && vertices == Vertices(|vertexIds|, pr)
    ensures componentIds.Length == componentSizes.Length == |vertexIds|
    ensures forall v :: v in vertices ==> Labelled(vertexIds, a, vertices, v, componentIds[v], componentSizes[v])
  {
    var visited := new bool[|vertexIds|](i => false);
    componentIds, componentSizes := new nat[|vertexIds|](i => 0), new nat[|vertexIds|](i => 0);
    for index := |order| downto 0
      invariant Saturated(a, vertices, Visited(visited)) && SuffixDone(order, index, Visited(visited))
      invariant forall v :: v in Visited(visited) ==>
        Labelled(vertexIds, a, vertices, v, componentIds[v], componentSizes[v])
    {
      var start := order[index];
      assert start in order;
      ghost var done := Visited(visited);
      if !visited[start] {
        CutGivesZone(a, vertices, order, cuts, index, done);
        SaturatedGrows(a, vertices, done, start);
        ReachRefl(a, start);
        AssignClass(vertexIds, incoming, pr, visited, start, componentIds, componentSizes, a, vertices,
                    Positions(order, cuts[index], index));
      }
      SuffixGrows(order, index, done, Visited(visited));
    }
  }

  /** The component id of two projected vertices is the same exactly when each reaches the other. */
  method ComputeScc(s: Snapshot, pr: Projection) returns (componentIds: array<nat>, componentSizes: array<nat>)
    requires s.Valid() && pr.Valid(|s.vertexIds|)
    ensures componentIds.Length == componentSizes.Length == |s.vertexIds|
    ensures var a, vertices := ProjectedArcs(|s.vertexIds|, s.outgoing, pr), Vertices(|s.vertexIds|, pr);
      && (forall u, v :: u in vertices && v in vertices ==> (componentIds[u] == componentIds[v] <==> Mutual(a, u, v)))
      && (forall u :: u in vertices ==> Labelled(s.vertexIds, a, vertices, u, componentIds[u], componentSizes[u]))
  {
    ghost var a, vertices := ProjectedArcs(|s.vertexIds|, s.outgoing, pr), Vertices(|s.vertexIds|, pr);
    TransposeReversesArcs(s, pr);
    var order := FinishOrder(|s.vertexIds|, s.outgoing, pr);
    ghost var cuts :| IsFinishOrder(a, vertices, order, cuts);
    componentIds, componentSizes := AssignComponents(s.vertexIds, s.incoming, pr, order, cuts, a, vertices);
    forall u, v | u in vertices && v in vertices
      ensures componentIds[u] == componentIds[v] <==> Mutual(a, u, v)
    {
      SameIdIffMutual(s.vertexIds, a, vertices, u, v, componentIds[u], componentIds[v]);
    }
  }
}
