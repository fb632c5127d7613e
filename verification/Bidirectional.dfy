/** The hop distance between two vertices: layers grow from both ends until an edge joins them. */
module Bidirectional {
  import opened Csr
  import opened Sequences
  import opened Walks

  // ----- one side -----

  /** The vertices of one owner are exactly those that some walk of at most `k` arcs reaches. */
  ghost predicate OwnsBall(visited: seq<nat>, owner: nat, b: Arcs, origin: nat, k: nat)
  {
    forall v: nat :: (v < |visited| && visited[v] == owner) <==> HasWalkWithin(b, origin, v, 0, k)
  }

  /** The vertices at distance exactly `k`. */
  ghost predicate IsLayer(frontier: seq<nat>, b: Arcs, origin: nat, k: nat)
  {
    forall v: nat :: v in frontier <==> IsLeast(b, origin, v, 0, k)
  }

  lemma BallGrows(b: Arcs, origin: nat, v: nat, k: nat)
    ensures HasWalkWithin(b, origin, v, 0, k + 1) <==>
      HasWalkWithin(b, origin, v, 0, k) || IsLeast(b, origin, v, 0, k + 1)
  {
    if HasWalkWithin(b, origin, v, 0, k + 1) && !HasWalkWithin(b, origin, v, 0, k) {
      var j: nat :| 0 <= j <= k + 1 && HasWalk(b, origin, v, j);
      assert j == k + 1;
    }
    if HasWalkWithin(b, origin, v, 0, k) {
      var j: nat :| 0 <= j <= k && HasWalk(b, origin, v, j);
      assert 0 <= j <= k + 1;
    }
  }

  /** The next layer is what the layer leads to outside the ball. */
  lemma LayerGrows(b: Arcs, origin: nat, v: nat, k: nat)
    ensures IsLeast(b, origin, v, 0, k + 1) <==>
            !HasWalkWithin(b, origin, v, 0, k) && exists u: nat :: IsLeast(b, origin, u, 0, k) && (u, v) in b
  {
    if IsLeast(b, origin, v, 0, k + 1) {
      var u: nat :| HasWalk(b, origin, u, k) && (u, v) in b;
      forall j | 0 <= j < k
        ensures !HasWalk(b, origin, u, j)
      {
        if HasWalk(b, origin, u, j) {
          assert HasWalk(b, origin, v, j + 1);
        }
      }
      assert IsLeast(b, origin, u, 0, k);
    }
    if !HasWalkWithin(b, origin, v, 0, k) && exists u: nat :: IsLeast(b, origin, u, 0, k) && (u, v) in b {
      var u: nat :| IsLeast(b, origin, u, 0, k) && (u, v) in b;
      assert HasWalk(b, origin, v, k + 1);
    }
  }

  ghost predicate HasArcFrom(b: Arcs, frontier: seq<nat>, v: nat)
  {
    exists i :: 0 <= i < |frontier| && (frontier[i], v) in b
  }

  /** What has been claimed for the next layer: vertices nobody owned that the visited part leads to. */
  ghost predicate Claims(before: seq<nat>, visited: seq<nat>, owner: nat, next: seq<nat>, b: Arcs, frontier: seq<nat>)
  {
    && |visited| == |before| && Distinct(next)
    && (forall v :: v in next ==> v < |before| && before[v] == 0 && HasArcFrom(b, frontier, v))
    && (forall v: nat :: v < |before| ==> visited[v] == if v in next then owner else before[v])
  }

  /** Every arc of the visited part ends at a vertex of the owner. */
  ghost predicate Covers(visited: seq<nat>, owner: nat, b: Arcs, frontier: seq<nat>, m: nat)
    requires m <= |frontier|
  {
    forall i: nat :: i < m ==> CoversArcs(visited, owner, b, frontier[i])
  }

  ghost predicate CoversArcs(visited: seq<nat>, owner: nat, b: Arcs, u: nat)
  {
    forall v: nat :: (u, v) in b ==> v < |visited| && visited[v] == owner
  }

  /** Both sides meet at an arc out of the layer. */
  ghost predicate Meets(before: seq<nat>, owner: nat, b: Arcs, frontier: seq<nat>)
  {
    exists v: nat :: v < |before| && before[v] != 0 && before[v] != owner && HasArcFrom(b, frontier, v)
  }

  lemma LayerDone(before: seq<nat>, visited: seq<nat>, owner: nat, next: seq<nat>, b: Arcs, frontier: seq<nat>,
                  origin: nat, k: nat)
    requires owner != 0 && OwnsBall(before, owner, b, origin, k) && IsLayer(frontier, b, origin, k)
    requires Claims(before, visited, owner, next, b, frontier) && Covers(visited, owner, b, frontier, |frontier|)
    ensures OwnsBall(visited, owner, b, origin, k + 1) && IsLayer(next, b, origin, k + 1)
  {
    forall v: nat
      ensures v in next <==> IsLeast(b, origin, v, 0, k + 1)
      ensures (v < |visited| && visited[v] == owner) <==> HasWalkWithin(b, origin, v, 0, k + 1)
    {
      LayerGrows(b, origin, v, k);
      BallGrows(b, origin, v, k);
      assert (v < |before| && before[v] == owner) <==> HasWalkWithin(b, origin, v, 0, k);
      if v in next {
        var i :| 0 <= i < |frontier| && (frontier[i], v) in b;
        assert frontier[i] in frontier && IsLeast(b, origin, frontier[i], 0, k);
        assert before[v] == 0;
      }
      if IsLeast(b, origin, v, 0, k + 1) {
        var u: nat :| IsLeast(b, origin, u, 0, k) && (u, v) in b;
        assert u in frontier;
        var i: nat :| i < |frontier| && frontier[i] == u;
        assert CoversArcs(visited, owner, b, frontier[i]);
        assert v < |visited| && visited[v] == owner;
      }
    }
  }

  ghost predicate RowCovered(visited: seq<nat>, owner: nat, adj: Adjacency, pr: Projection, start: nat, end: nat)
    requires end <= |adj.neighbors| && end <= |adj.labels|
  {
    forall slot: nat :: start <= slot < end && pr.KeepsLabel(adj.labels[slot]) && pr.Keeps(adj.neighbors[slot]) ==>
      adj.neighbors[slot] < |visited| && visited[adj.neighbors[slot]] == owner
  }

  function Degree(adj: Adjacency, v: nat): nat
    requires v + 1 < |adj.offsets| && adj.offsets[v] <= adj.offsets[v + 1]
  {
    adj.offsets[v + 1] - adj.offsets[v]
  }

  lemma ClaimMore(before: seq<nat>, visited: seq<nat>, owner: nat, next: seq<nat>, b: Arcs, frontier: seq<nat>, m: nat,
                  v: nat)
    requires m < |frontier| && Claims(before, visited, owner, next, b, frontier[..m + 1]) && v < |visited|
    requires (frontier[m], v) in b && visited[v] == 0 && owner != 0
    ensures Claims(before, visited[v := owner], owner, next + [v], b, frontier[..m + 1])
  {
    assert frontier[..m + 1][m] == frontier[m];
    assert v !in next;
  }

  lemma ClaimsGrow(before: seq<nat>, visited: seq<nat>, owner: nat, next: seq<nat>, b: Arcs, frontier: seq<nat>, m: nat)
    requires m < |frontier| && Claims(before, visited, owner, next, b, frontier[..m])
    ensures Claims(before, visited, owner, next, b, frontier[..m + 1])
  {
    forall v | v in next
      ensures HasArcFrom(b, frontier[..m + 1], v)
    {
      var i :| 0 <= i < m && (frontier[..m][i], v) in b;
      assert frontier[..m + 1][i] == frontier[i];
    }
  }

  /** Visits one vertex of the layer; stops at a vertex of the other side. */
  method ExpandVertex(n: nat, adj: Adjacency, pr: Projection, visited: array<nat>, owner: nat, frontier: seq<nat>,
                      m: nat, next: seq<nat>,
                      work: nat, ghost b: Arcs, ghost before: seq<nat>)
    returns (longer: seq<nat>, more: nat, found: bool)
    requires adj.Valid(n) && b == ProjectedArcs(n, adj, pr) && visited.Length == |before| == n && owner != 0
    requires m < |frontier| && frontier[m] < n && pr.Keeps(frontier[m])
    requires Claims(before, visited[..], owner, next, b, frontier[..m])
    modifies visited
    ensures found ==> Meets(before, owner, b, frontier)
    ensures !found ==> Claims(before, visited[..], owner, longer, b, frontier[..m + 1])
    ensures !found ==> RowCovered(visited[..], owner, adj, pr, adj.offsets[frontier[m]], adj.offsets[frontier[m] + 1])
    ensures !found ==> forall v: nat :: v < n && old(visited[v]) == owner ==> visited[v] == owner
  {
    hide ProjectedArcs;
    var vertex := frontier[m];
    longer, more, found := next, work, false;
    ClaimsGrow(before, visited[..], owner, next, b, frontier, m);
    var slot: nat := adj.offsets[vertex];
    while slot < adj.offsets[vertex + 1]
      invariant adj.offsets[vertex] <= slot <= adj.offsets[vertex + 1] <= |adj.neighbors|
      invariant Claims(before, visited[..], owner, longer, b, frontier[..m + 1])
      invariant RowCovered(visited[..], owner, adj, pr, adj.offsets[vertex], slot)
      invariant forall v: nat :: v < n && old(visited[v]) == owner ==> visited[v] == owner
    {
      var neighbor := adj.neighbors[slot];
      if pr.KeepsLabel(adj.labels[slot]) && pr.Keeps(neighbor) && visited[neighbor] != owner {
        SlotIsArc(n, adj, pr, vertex, slot);
        if visited[neighbor] != 0 {
          MeetsAt(before, visited[..], owner, longer, b, frontier, m, neighbor);
          return longer, more, true;
        }
        ClaimMore(before, visited[..], owner, longer, b, frontier, m, neighbor);
        ghost var was := visited[..];
        visited[neighbor] := owner;
        assert visited[..] == was[neighbor := owner];
        longer := longer + [neighbor];
        more := more + Degree(adj, neighbor);
      }
      slot := slot + 1;
    }
  }

  lemma MeetsAt(before: seq<nat>, visited: seq<nat>, owner: nat, next: seq<nat>, b: Arcs, frontier: seq<nat>, m: nat,
                v: nat)
    requires m < |frontier| && Claims(before, visited, owner, next, b, frontier[..m + 1]) && v < |visited|
    requires (frontier[m], v) in b && visited[v] != 0 && visited[v] != owner
    ensures Meets(before, owner, b, frontier)
  {
    assert before[v] == visited[v];
  }

  lemma RowIsCovered(n: nat, adj: Adjacency, pr: Projection, b: Arcs, before: seq<nat>, visited: seq<nat>, owner: nat,
                     frontier: seq<nat>, m: nat)
    requires adj.Valid(n) && b == ProjectedArcs(n, adj, pr) && m < |frontier| && frontier[m] < n
      && |before| == |visited| == n
    requires Covers(before, owner, b, frontier, m) && forall v: nat :: v < n && before[v] == owner ==>
      visited[v] == owner
    requires RowCovered(visited, owner, adj, pr, adj.offsets[frontier[m]], adj.offsets[frontier[m] + 1])
    ensures Covers(visited, owner, b, frontier, m + 1)
  {
    forall i: nat | i < m + 1
      ensures CoversArcs(visited, owner, b, frontier[i])
    {
      forall v: nat | (frontier[i], v) in b
        ensures v < |visited| && visited[v] == owner
      {
        if i == m {
          var slot := ArcHasSlot(n, adj, pr, frontier[m], v);
        } else {
          assert CoversArcs(before, owner, b, frontier[i]);
          assert before[v] == owner;
        }
      }
    }
  }

  /** Advances one side by a complete layer, unless an edge joins the two sides. */
  method ExpandLayer(n: nat, adj: Adjacency, pr: Projection, visited: array<nat>, owner: nat, frontier: seq<nat>,
                     ghost b: Arcs,
                     ghost origin: nat, ghost k: nat)
    returns (next: seq<nat>, work: nat, found: bool)
    requires adj.Valid(n) && b == ProjectedArcs(n, adj, pr) && visited.Length == n && owner != 0
    requires forall v :: v in frontier ==> v < n && pr.Keeps(v)
    requires OwnsBall(visited[..], owner, b, origin, k) && IsLayer(frontier, b, origin, k)
    modifies visited
    ensures found ==> Meets(old(visited[..]), owner, b, frontier)
    ensures !found ==> OwnsBall(visited[..], owner, b, origin, k + 1) && IsLayer(next, b, origin, k + 1)
    ensures !found ==> Claims(old(visited[..]), visited[..], owner, next, b, frontier)
  {
    ghost var before := visited[..];
    next, work, found := [], 0, false;
    hide ProjectedArcs, OwnsBall, IsLayer, RowCovered;
    var m: nat := 0;
    assert frontier[..0] == [];
    while m < |frontier|
      invariant m <= |frontier| && visited.Length == n
      invariant Claims(before, visited[..], owner, next, b, frontier[..m]) && Covers(visited[..], owner, b, frontier, m)
    {
      assert frontier[m] in frontier;
      ghost var was := visited[..];
      next, work, found := ExpandVertex(n, adj, pr, visited, owner, frontier, m, next, work, b, before);
      if found {
        return;
      }
      RowIsCovered(n, adj, pr, b, was, visited[..], owner, frontier, m);
      m := m + 1;
    }
    assert frontier[..m] == frontier;
    LayerDone(before, visited[..], owner, next, b, frontier, origin, k);
  }

  // ----- both sides -----

  /** The balls around the two ends, which no vertex shares because each has one owner. */
  ghost predicate BothBalls(visited: seq<nat>, a: Arcs, source: nat, target: nat, forwardDepth: nat, backwardDepth: nat)
  {
    && OwnsBall(visited, 1, a, source, forwardDepth) && OwnsBall(visited, 2, Reverse(a), target, backwardDepth)
    && forall v :: 0 <= v < |visited| ==> visited[v] <= 2
  }

  lemma BallsAreDisjoint(visited: seq<nat>, a: Arcs, source: nat, target: nat, forwardDepth: nat, backwardDepth: nat,
                         v: nat)
    requires BothBalls(visited, a, source, target, forwardDepth, backwardDepth)
    ensures !HasWalkWithin(a, source, v, 0, forwardDepth) || !HasWalkWithin(Reverse(a), target, v, 0, backwardDepth)
  {
    if HasWalkWithin(a, source, v, 0, forwardDepth) {
      assert visited[v] == 1;
    }
  }

  /** Disjoint balls: every walk between the ends is longer than both radii together. */
  lemma NoShortWalk(visited: seq<nat>, a: Arcs, source: nat, target: nat, forwardDepth: nat, backwardDepth: nat, k: nat)
    requires BothBalls(visited, a, source, target, forwardDepth, backwardDepth) && HasWalk(a, source, target, k)
    ensures k > forwardDepth + backwardDepth
  {
    if k <= forwardDepth + backwardDepth {
      var j := if k < forwardDepth then k else forwardDepth;
      var m := WalkSplit(a, source, target, j, k - j);
      WalkReverse(a, m, target, k - j);
      assert HasWalkWithin(a, source, m, 0, forwardDepth);
      BallsAreDisjoint(visited, a, source, target, forwardDepth, backwardDepth, m);
      assert HasWalkWithin(Reverse(a), target, m, 0, backwardDepth);
    }
  }

  /** An arc from one side's layer into the other ball closes a shortest walk. */
  lemma ForwardMeets(visited: seq<nat>, a: Arcs, source: nat, target: nat, forwardDepth: nat, backwardDepth: nat,
                     frontier: seq<nat>)
    requires BothBalls(visited, a, source, target, forwardDepth, backwardDepth)
      && IsLayer(frontier, a, source, forwardDepth)
    requires Meets(visited, 1, a, frontier)
    ensures IsLeast(a, source, target, 0, forwardDepth + backwardDepth + 1)
  {
    var v: nat :| v < |visited| && visited[v] != 0 && visited[v] != 1 && HasArcFrom(a, frontier, v);
    var i :| 0 <= i < |frontier| && (frontier[i], v) in a;
    assert frontier[i] in frontier;
    assert HasWalk(a, source, v, forwardDepth + 1);
    assert visited[v] == 2 && HasWalkWithin(Reverse(a), target, v, 0, backwardDepth);
    var j: nat :| 0 <= j <= backwardDepth && HasWalk(Reverse(a), target, v, j);
    WalkReverse(a, v, target, j);
    MetWalkIsLeast(visited, a, source, v, target, forwardDepth, backwardDepth, forwardDepth + 1, j);
  }

  lemma BackwardMeets(visited: seq<nat>, a: Arcs, source: nat, target: nat, forwardDepth: nat, backwardDepth: nat,
                      frontier: seq<nat>)
    requires BothBalls(visited, a, source, target, forwardDepth, backwardDepth)
      && IsLayer(frontier, Reverse(a), target, backwardDepth)
    requires Meets(visited, 2, Reverse(a), frontier)
    ensures IsLeast(a, source, target, 0, forwardDepth + backwardDepth + 1)
  {
    var v: nat :| v < |visited| && visited[v] != 0 && visited[v] != 2 && HasArcFrom(Reverse(a), frontier, v);
    var i :| 0 <= i < |frontier| && (frontier[i], v) in Reverse(a);
    assert frontier[i] in frontier;
    assert HasWalk(Reverse(a), target, v, backwardDepth + 1);
    WalkReverse(a, v, target, backwardDepth + 1);
    assert visited[v] == 1 && HasWalkWithin(a, source, v, 0, forwardDepth);
    var j: nat :| 0 <= j <= forwardDepth && HasWalk(a, source, v, j);
    MetWalkIsLeast(visited, a, source, v, target, forwardDepth, backwardDepth, j, backwardDepth + 1);
  }

  lemma MetWalkIsLeast(visited: seq<nat>, a: Arcs, source: nat, v: nat, target: nat, forwardDepth: nat,
                       backwardDepth: nat, i: nat, j: nat)
    requires BothBalls(visited, a, source, target, forwardDepth, backwardDepth)
    requires HasWalk(a, source, v, i) && HasWalk(a, v, target, j) && i + j <= forwardDepth + backwardDepth + 1
    ensures IsLeast(a, source, target, 0, forwardDepth + backwardDepth + 1)
  {
    WalkConcat(a, source, v, target, i, j);
    NoShortWalk(visited, a, source, target, forwardDepth, backwardDepth, i + j);
    forall k: nat | k < forwardDepth + backwardDepth + 1
      ensures !HasWalk(a, source, target, k)
    {
      if HasWalk(a, source, target, k) {
        NoShortWalk(visited, a, source, target, forwardDepth, backwardDepth, k);
      }
    }
  }

  /** An empty layer means that the ball is all that its end reaches. */
  lemma {:induction false} EmptyLayerCloses(b: Arcs, origin: nat, v: nat, k: nat, j: nat)
    requires (forall u: nat :: !IsLeast(b, origin, u, 0, k)) && HasWalk(b, origin, v, j)
    ensures HasWalkWithin(b, origin, v, 0, k)
    decreases j
  {
    if j == 0 {
      assert HasWalk(b, origin, v, 0);
    } else {
      var u: nat :| HasWalk(b, origin, u, j - 1) && (u, v) in b;
      EmptyLayerCloses(b, origin, u, k, j - 1);
      var i: nat :| 0 <= i <= k && HasWalk(b, origin, u, i);
      if i == k {
        NotLeast(b, origin, u, k);
        var h: nat :| 0 <= h < k && HasWalk(b, origin, u, h);
        assert HasWalk(b, origin, v, h + 1);
      } else {
        assert HasWalk(b, origin, v, i + 1);
      }
    }
  }

  lemma NotLeast(b: Arcs, origin: nat, u: nat, k: nat)
    requires !IsLeast(b, origin, u, 0, k) && HasWalk(b, origin, u, k)
    ensures exists h: nat :: 0 <= h < k && HasWalk(b, origin, u, h)
  {
    var h :| 0 <= h < k && HasWalk(b, origin, u, h);
  }

  lemma ForwardExhausted(visited: seq<nat>, a: Arcs, source: nat, target: nat, forwardDepth: nat, backwardDepth: nat)
    requires BothBalls(visited, a, source, target, forwardDepth, backwardDepth) && IsLayer([], a, source, forwardDepth)
    ensures !Reaches(a, source, target)
  {
    if k :| HasWalk(a, source, target, k) {
      forall u: nat
        ensures !IsLeast(a, source, u, 0, forwardDepth)
      {
        assert u !in [];
      }
      EmptyLayerCloses(a, source, target, forwardDepth, k);
      assert HasWalk(Reverse(a), target, target, 0);
      BallsAreDisjoint(visited, a, source, target, forwardDepth, backwardDepth, target);
      assert HasWalkWithin(Reverse(a), target, target, 0, backwardDepth);
    }
  }

  lemma BackwardExhausted(visited: seq<nat>, a: Arcs, source: nat, target: nat, forwardDepth: nat, backwardDepth: nat)
    requires BothBalls(visited, a, source, target, forwardDepth, backwardDepth)
      && IsLayer([], Reverse(a), target, backwardDepth)
    ensures !Reaches(a, source, target)
  {
    if k :| HasWalk(a, source, target, k) {
      WalkReverse(a, source, target, k);
      forall u: nat
        ensures !IsLeast(Reverse(a), target, u, 0, backwardDepth)
      {
        assert u !in [];
      }
      EmptyLayerCloses(Reverse(a), target, source, backwardDepth, k);
      assert HasWalk(a, source, source, 0);
      BallsAreDisjoint(visited, a, source, target, forwardDepth, backwardDepth, source);
      assert HasWalkWithin(a, source, source, 0, forwardDepth);
    }
  }

  // ----- the search -----

  /** Where the search stands between two layers. */
  ghost predicate Searching(visited: seq<nat>, a: Arcs, source: nat, target: nat, forward: seq<nat>, backward: seq<nat>,
                            forwardDepth: nat, backwardDepth: nat)
  {
    && BothBalls(visited, a, source, target, forwardDepth, backwardDepth)
    && IsLayer(forward, a, source, forwardDepth) && IsLayer(backward, Reverse(a), target, backwardDepth)
  }

  ghost function Unvisited(visited: seq<nat>): nat
  {
    if |visited| == 0 then 0 else Unvisited(visited[..|visited| - 1]) + (if visited[|visited| - 1] == 0 then 1 else 0)
  }

  /** Bounds the layers that are left. */
  ghost function LayersLeft(visited: seq<nat>, forward: seq<nat>, backward: seq<nat>): nat
  {
    Unvisited(visited) + (if forward == [] then 0 else 1) + (if backward == [] then 0 else 1)
  }

  lemma {:induction false} ClaimsShrink(before: seq<nat>, visited: seq<nat>, owner: nat, next: seq<nat>)
    requires |visited| == |before| && owner != 0
    requires forall v: nat :: v < |before| ==> visited[v] == if v in next then owner else before[v]
    ensures Unvisited(visited) <= Unvisited(before)
    ensures (exists v :: v in next && v < |before| && before[v] == 0) ==> Unvisited(visited) < Unvisited(before)
    decreases |before|
  {
    if |before| > 0 {
      var last := |before| - 1;
      ClaimsShrink(before[..last], visited[..last], owner, next);
      assert forall v :: v in next && v < last ==> before[..last][v] == before[v];
    }
  }

  lemma LayerShrinks(before: seq<nat>, visited: seq<nat>, owner: nat, next: seq<nat>, b: Arcs, frontier: seq<nat>)
    requires Claims(before, visited, owner, next, b, frontier) && owner != 0 && frontier != []
    ensures Unvisited(visited) + (if next == [] then 0 else 1) < Unvisited(before) + (if frontier == [] then 0 else 1)
  {
    ClaimsShrink(before, visited, owner, next);
    if next != [] {
      assert next[0] in next;
    }
  }

  lemma OtherBallKept(before: seq<nat>, visited: seq<nat>, owner: nat, other: nat, next: seq<nat>, b: Arcs,
                      frontier: seq<nat>,
                      c: Arcs, origin: nat, k: nat)
    requires Claims(before, visited, owner, next, b, frontier) && owner != other && other != 0
      && OwnsBall(before, other, c, origin, k)
    ensures OwnsBall(visited, other, c, origin, k)
  {
    forall v: nat
      ensures (v < |visited| && visited[v] == other) <==> (v < |before| && before[v] == other)
    {
    }
  }

  lemma SearchStarts(n: nat, a: Arcs, source: nat, target: nat, visited: seq<nat>)
    requires source < n && target < n && source != target && |visited| == n
    requires forall v: nat :: v < n ==> visited[v] == if v == source then 1 else if v == target then 2 else 0
    ensures Searching(visited, a, source, target, [source], [target], 0, 0)
  {
    forall b: Arcs, origin: nat, v: nat
      ensures HasWalkWithin(b, origin, v, 0, 0) <==> v == origin
      ensures IsLeast(b, origin, v, 0, 0) <==> v == origin
    {
      assert HasWalk(b, origin, v, 0) <==> v == origin;
    }
  }

  /** Every layer stays inside the projection. */
  lemma LayerInside(n: nat, adj: Adjacency, pr: Projection, b: Arcs, frontier: seq<nat>, origin: nat, k: nat)
    requires b == ProjectedArcs(n, adj, pr) && IsLayer(frontier, b, origin, k) && origin < n && pr.Keeps(origin)
    ensures forall v :: v in frontier ==> v < n && pr.Keeps(v)
  {
    forall v | v in frontier
      ensures v < n && pr.Keeps(v)
    {
      if k > 0 {
        var u: nat :| HasWalk(b, origin, u, k - 1) && (u, v) in b;
      }
    }
  }

  method Advance(n: nat, adj: Adjacency, pr: Projection, visited: array<nat>, owner: nat, frontier: seq<nat>,
                 ghost other: nat, ghost b: Arcs,
                 ghost c: Arcs, ghost origin: nat, ghost far: nat, ghost k: nat, ghost j: nat)
    returns (next: seq<nat>, work: nat, found: bool)
    requires adj.Valid(n) && b == ProjectedArcs(n, adj, pr) && visited.Length == n && origin < n && pr.Keeps(origin)
    requires owner != other && 0 < owner <= 2 && 0 < other <= 2 && frontier != []
    requires OwnsBall(visited[..], owner, b, origin, k) && IsLayer(frontier, b, origin, k)
      && OwnsBall(visited[..], other, c, far, j)
    requires forall v :: 0 <= v < n ==> visited[v] <= 2
    modifies visited
    ensures found ==> Meets(old(visited[..]), owner, b, frontier)
    ensures !found ==> OwnsBall(visited[..], owner, b, origin, k + 1) && IsLayer(next, b, origin, k + 1)
    ensures !found ==> OwnsBall(visited[..], other, c, far, j) && forall v :: 0 <= v < n ==> visited[v] <= 2
    ensures !found ==> Unvisited(visited[..]) + (if next == [] then 0 else 1) < Unvisited(old(visited[..])) + 1
  {
    hide OwnsBall, IsLayer, ProjectedArcs;
    LayerInside(n, adj, pr, b, frontier, origin, k);
    ghost var before := visited[..];
    next, work, found := ExpandLayer(n, adj, pr, visited, owner, frontier, b, origin, k);
    if !found {
      LayerShrinks(before, visited[..], owner, next, b, frontier);
      OtherBallKept(before, visited[..], owner, other, next, b, frontier, c, far, j);
      StaysSmall(before, visited[..], owner, next, b, frontier);
    }
  }

  lemma StaysSmall(before: seq<nat>, visited: seq<nat>, owner: nat, next: seq<nat>, b: Arcs, frontier: seq<nat>)
    requires Claims(before, visited, owner, next, b, frontier) && owner <= 2 && forall v :: 0 <= v < |before| ==>
      before[v] <= 2
    ensures forall v :: 0 <= v < |visited| ==> visited[v] <= 2
  {
  }

  /** The exact hop distance between two projected vertices, or -1 when there is no walk. */
  method ComputeShortestPathLength(s: Snapshot, pr: Projection, source: nat, target: nat) returns (length: int)
    requires s.Valid() && pr.Valid(|s.vertexIds|)
    requires source < |s.vertexIds| && target < |s.vertexIds| && pr.Keeps(source) && pr.Keeps(target)
    ensures var a := ProjectedArcs(|s.vertexIds|, s.outgoing, pr);
      if length == -1 then !Reaches(a, source, target) else length >= 0 && IsLeast(a, source, target, 0, length)
  {
    var n := |s.vertexIds|;
    ghost var a := ProjectedArcs(n, s.outgoing, pr);
    if source == target {
      assert HasWalk(a, source, target, 0);
      return 0;
    }
    TransposeReversesArcs(s, pr);
    var visited := new nat[n](_ => 0);
    visited[source] := 1;
    visited[target] := 2;
    SearchStarts(n, a, source, target, visited[..]);
    length := Search(n, s.outgoing, s.incoming, pr, source, target, visited, a);
  }

  method Search(n: nat, outgoing: Adjacency, incoming: Adjacency, pr: Projection, source: nat, target: nat,
                visited: array<nat>, ghost a: Arcs)
    returns (length: int)
    requires outgoing.Valid(n) && incoming.Valid(n) && visited.Length == n
    requires a == ProjectedArcs(n, outgoing, pr) && Reverse(a) == ProjectedArcs(n, incoming, pr)
    requires source < n && target < n && pr.Keeps(source) && pr.Keeps(target)
    requires Searching(visited[..], a, source, target, [source], [target], 0, 0)
    modifies visited
    ensures if length == -1 then !Reaches(a, source, target) else length >= 0 && IsLeast(a, source, target, 0, length)
  {
    hide OwnsBall, IsLayer, ProjectedArcs, Meets, IsLeast, Reverse;
    var forward, backward := [source], [target];
    var forwardDepth: nat, backwardDepth: nat := 0, 0;
    var forwardWork, backwardWork := Degree(outgoing, source), Degree(incoming, target);
    while forward != [] && backward != []
      invariant visited.Length == n
        && Searching(visited[..], a, source, target, forward, backward, forwardDepth, backwardDepth)
      decreases LayersLeft(visited[..], forward, backward)
    {
      var found, work;
      if backwardWork < forwardWork {
        BackwardReady(visited[..], a, source, target, forward, backward, forwardDepth, backwardDepth);
        ghost var layer := backward;
        backward, work, found :=
          Advance(n, incoming, pr, visited, 2, backward, 1, Reverse(a), a, target, source, backwardDepth, forwardDepth);
        if found {
          return forwardDepth + backwardDepth + 1;
        }
        backwardDepth, backwardWork := backwardDepth + 1, work;
      } else {
        ForwardReady(visited[..], a, source, target, forward, backward, forwardDepth, backwardDepth);
        forward, work, found :=
          Advance(n, outgoing, pr, visited, 1, forward, 2, a, Reverse(a), source, target, forwardDepth, backwardDepth);
        if found {
          return forwardDepth + backwardDepth + 1;
        }
        forwardDepth, forwardWork := forwardDepth + 1, work;
      }
    }
    if forward == [] {
      ForwardExhausted(visited[..], a, source, target, forwardDepth, backwardDepth);
    } else {
      BackwardExhausted(visited[..], a, source, target, forwardDepth, backwardDepth);
    }
    return -1;
  }

  lemma ForwardReady(visited: seq<nat>, a: Arcs, source: nat, target: nat, forward: seq<nat>, backward: seq<nat>,
                     forwardDepth: nat, backwardDepth: nat)
    requires Searching(visited, a, source, target, forward, backward, forwardDepth, backwardDepth)
    ensures Meets(visited, 1, a, forward) ==> IsLeast(a, source, target, 0, forwardDepth + backwardDepth + 1)
  {
    if Meets(visited, 1, a, forward) {
      ForwardMeets(visited, a, source, target, forwardDepth, backwardDepth, forward);
    }
  }

  lemma BackwardReady(visited: seq<nat>, a: Arcs, source: nat, target: nat, forward: seq<nat>, backward: seq<nat>,
                      forwardDepth: nat, backwardDepth: nat)
    requires Searching(visited, a, source, target, forward, backward, forwardDepth, backwardDepth)
    ensures Meets(visited, 2, Reverse(a), backward) ==> IsLeast(a, source, target, 0, forwardDepth + backwardDepth + 1)
  {
    if Meets(visited, 2, Reverse(a), backward) {
      BackwardMeets(visited, a, source, target, forwardDepth, backwardDepth, backward);
    }
  }
}
