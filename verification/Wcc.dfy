/** Weakly connected components: union by size with path compression over the outgoing edges. */
module Wcc {
  import opened Csr
  import opened Powers
  import opened Scc
  import opened Walks

  lemma SymmetricReach(a: Arcs, u: nat, v: nat)
    ensures Reaches(Symmetric(a), u, v) <==> Reaches(Symmetric(a), v, u)
  {
    var s := Symmetric(a);
    assert Reverse(s) == s by {
      assert forall e :: e in Reverse(s) <==> e in s;
    }
    if k :| HasWalk(s, u, v, k) {
      WalkReverse(s, u, v, k);
    }
    if k :| HasWalk(s, v, u, k) {
      WalkReverse(s, v, u, k);
    }
  }

  // ----- the forest -----

  /** `roots` and `ranks` describe a forest of parent links: parents lead to the root by increasing rank. */
  ghost predicate Forest(parents: seq<nat>, roots: seq<nat>, ranks: seq<nat>)
  {
    && |parents| == |roots| == |ranks|
    && forall v: nat :: v < |parents| ==> InForest(parents, roots, ranks, v)
  }

  ghost predicate InForest(parents: seq<nat>, roots: seq<nat>, ranks: seq<nat>, v: nat)
    requires |parents| == |roots| == |ranks| && v < |parents|
  {
    && parents[v] < |parents| && roots[v] < |parents|
    && (parents[v] == v <==> roots[v] == v) && roots[parents[v]] == roots[v] && roots[roots[v]] == roots[v]
    && (parents[v] != v ==> ranks[v] < ranks[parents[v]]) && ranks[v] <= ranks[roots[v]]
    && (v != roots[v] ==> ranks[v] < ranks[roots[v]])
  }

  /** How much rank is left between a vertex and its root. */
  ghost function Climb(roots: seq<nat>, ranks: seq<nat>, v: nat): nat
  {
    if v < |roots| && v < |ranks| && roots[v] < |ranks| && ranks[v] <= ranks[roots[v]] then ranks[roots[v]] - ranks[v]
        else 0
  }

  lemma ParentClimbs(parents: seq<nat>, roots: seq<nat>, ranks: seq<nat>, v: nat)
    requires Forest(parents, roots, ranks) && v < |parents|
    ensures parents[v] < |parents| && roots[v] < |parents| && roots[parents[v]] == roots[v]
      && roots[roots[v]] == roots[v]
    ensures parents[v] == v <==> roots[v] == v
    ensures parents[v] != v ==> Climb(roots, ranks, parents[v]) < Climb(roots, ranks, v)
  {
    assert InForest(parents, roots, ranks, v);
    assert InForest(parents, roots, ranks, parents[v]);
  }

  /** How many links lead from a vertex to its root. */
  ghost function Height(parents: seq<nat>, roots: seq<nat>, ranks: seq<nat>, v: nat): nat
    requires Forest(parents, roots, ranks) && v < |parents|
    decreases Climb(roots, ranks, v)
  {
    ParentClimbs(parents, roots, ranks, v);
    if parents[v] == v then 0
    else
      1 + Height(parents, roots, ranks, parents[v])
  }

  lemma {:induction false} HeightIsBounded(parents: seq<nat>, roots: seq<nat>, ranks: seq<nat>, v: nat)
    requires Forest(parents, roots, ranks) && v < |parents|
    ensures roots[v] < |parents| && Height(parents, roots, ranks, v) + ranks[v] <= ranks[roots[v]]
    decreases Climb(roots, ranks, v)
  {
    ParentClimbs(parents, roots, ranks, v);
    assert InForest(parents, roots, ranks, v);
    if parents[v] != v {
      HeightIsBounded(parents, roots, ranks, parents[v]);
    }
  }

  ghost function Members(roots: seq<nat>, r: nat): set<nat>
  {
    set v: nat | v < |roots| && roots[v] == r
  }

  /** A root's size is that of its tree, and its rank is at most the logarithm of it. */
  ghost predicate SizesOk(roots: seq<nat>, ranks: seq<nat>, sizes: seq<nat>)
  {
    && |sizes| == |roots| == |ranks|
    && forall r: nat :: r < |roots| && roots[r] == r ==> sizes[r] == |Members(roots, r)| && Pow2(ranks[r]) <= sizes[r]
  }

  /** The tree of a vertex is no higher than the logarithm of its size. */
  lemma HeightIsLogarithmic(parents: seq<nat>, roots: seq<nat>, ranks: seq<nat>, sizes: seq<nat>, v: nat)
    requires Forest(parents, roots, ranks) && SizesOk(roots, ranks, sizes) && v < |parents|
    ensures Pow2(Height(parents, roots, ranks, v)) <= |Members(roots, roots[v])|
  {
    assert InForest(parents, roots, ranks, v);
    HeightIsBounded(parents, roots, ranks, v);
    Pow2Grows(Height(parents, roots, ranks, v), ranks[roots[v]]);
  }

  /** Linking a vertex straight to its root keeps the forest. */
  lemma CompressionKeeps(parents: seq<nat>, roots: seq<nat>, ranks: seq<nat>, v: nat)
    requires Forest(parents, roots, ranks) && v < |parents| && parents[v] != v
    ensures Forest(parents[v := roots[v]], roots, ranks)
  {
    assert InForest(parents, roots, ranks, v);
    var after := parents[v := roots[v]];
    forall u: nat | u < |parents|
      ensures InForest(after, roots, ranks, u)
    {
      assert InForest(parents, roots, ranks, u);
    }
  }

  method FindComponentRoot(parents: array<nat>, start: nat, ghost roots: seq<nat>,
                           ghost ranks: seq<nat>)
    returns (root: nat)
    requires Forest(parents[..], roots, ranks) && start < parents.Length
    modifies parents
    ensures Forest(parents[..], roots, ranks) && root == roots[start] < parents.Length
  {
    root := start;
    while parents[root] != root
      invariant root < parents.Length == |roots| && roots[root] == roots[start]
      invariant Forest(parents[..], roots, ranks)
      decreases Climb(roots, ranks, root)
    {
      ParentClimbs(parents[..], roots, ranks, root);
      root := parents[root];
    }
    ParentClimbs(parents[..], roots, ranks, root);
    var vertex: nat := start;
    while parents[vertex] != vertex
      invariant parents.Length == |roots| && vertex < parents.Length && roots[vertex] == root
      invariant Forest(parents[..], roots, ranks)
      decreases Climb(roots, ranks, vertex)
    {
      ParentClimbs(parents[..], roots, ranks, vertex);
      CompressionKeeps(parents[..], roots, ranks, vertex);
      var parent := parents[vertex];
      ghost var before := parents[..];
      parents[vertex] := root;
      assert parents[..] == before[vertex := root];
      vertex := parent;
    }
  }

  // ----- joining two trees -----

  ghost function Joined(roots: seq<nat>, over: nat, under: nat): (r: seq<nat>)
    ensures |r| == |roots| && forall v :: 0 <= v < |r| ==> r[v] == if roots[v] == under then over else roots[v]
  {
    seq(|roots|, v requires 0 <= v < |roots| => if roots[v] == under then over else roots[v])
  }

  ghost function Raised(ranks: seq<nat>, over: nat, under: nat): seq<nat>
    requires over < |ranks| && under < |ranks|
  {
    ranks[over := if ranks[over] > ranks[under] then ranks[over] else ranks[under] + 1]
  }

  lemma LinkKeepsForest(parents: seq<nat>, roots: seq<nat>, ranks: seq<nat>, over: nat, under: nat)
    requires Forest(parents, roots, ranks) && over < |parents| && under < |parents| && over != under
    requires roots[over] == over && roots[under] == under
    ensures Forest(parents[under := over], Joined(roots, over, under), Raised(ranks, over, under))
  {
    assert InForest(parents, roots, ranks, over) && InForest(parents, roots, ranks, under);
    var parents', roots', ranks' := parents[under := over], Joined(roots, over, under), Raised(ranks, over, under);
    forall v: nat | v < |parents|
      ensures InForest(parents', roots', ranks', v)
    {
      assert InForest(parents, roots, ranks, v);
      assert InForest(parents, roots, ranks, parents[v]);
    }
  }

  lemma LinkKeepsSizes(roots: seq<nat>, ranks: seq<nat>, sizes: seq<nat>, over: nat, under: nat)
    requires SizesOk(roots, ranks, sizes) && over < |roots| && under < |roots| && over != under
    requires roots[over] == over && roots[under] == under && sizes[over] >= sizes[under]
    ensures SizesOk(Joined(roots, over, under), Raised(ranks, over, under), sizes[over := sizes[over] + sizes[under]])
  {
    var roots', ranks', sizes' := Joined(roots, over, under), Raised(ranks, over, under),
        sizes[over := sizes[over] + sizes[under]];
    forall r: nat | r < |roots'| && roots'[r] == r
      ensures sizes'[r] == |Members(roots', r)| && Pow2(ranks'[r]) <= sizes'[r]
    {
      if r == over {
        assert Members(roots', over) == Members(roots, over) + Members(roots, under);
        assert Members(roots, over) !! Members(roots, under);
      } else {
        assert Members(roots', r) == Members(roots, r);
      }
    }
  }

  // ----- the partition -----

  /** Vertices in one tree are connected. */
  ghost predicate Sound(a: Arcs, roots: seq<nat>)
  {
    forall u: nat, v: nat :: u < |roots| && v < |roots| && roots[u] == roots[v] ==> Reaches(Symmetric(a), u, v)
  }

  lemma LinkIsSound(a: Arcs, roots: seq<nat>, s: nat, t: nat, over: nat, under: nat)
    requires Sound(a, roots) && (s, t) in a && s < |roots| && t < |roots|
    requires (roots[s] == over && roots[t] == under) || (roots[s] == under && roots[t] == over)
    ensures Sound(a, Joined(roots, over, under))
  {
    var arcs, after := Symmetric(a), Joined(roots, over, under);
    ReachArc(arcs, s, t);
    ReachArc(arcs, t, s);
    forall u: nat, v: nat | u < |roots| && v < |roots| && after[u] == after[v]
      ensures Reaches(arcs, u, v)
    {
      if roots[u] != roots[v] {
        var x, y := if roots[u] == roots[s] then s else t, if roots[u] == roots[s] then t else s;
        assert Reaches(arcs, u, x) && Reaches(arcs, y, v);
        ReachTrans(arcs, u, x, y);
        ReachTrans(arcs, u, y, v);
      }
    }
  }

  /** When every arc stays in its tree, trees are exactly the components. */
  lemma TreesAreComponents(a: Arcs, roots: seq<nat>, u: nat, v: nat)
    requires Sound(a, roots) && u < |roots| && v < |roots|
    requires forall x: nat, y: nat :: (x, y) in a ==> x < |roots| && y < |roots| && roots[x] == roots[y]
    ensures roots[u] == roots[v] <==> Reaches(Symmetric(a), u, v)
  {
    if k :| HasWalk(Symmetric(a), u, v, k) {
      ClosedUnderWalks(Symmetric(a), Members(roots, roots[u]), u, v, k);
    }
  }

  // ----- the pass over the edges -----

  /** The union-find arrays with the roots and ranks they stand for. */
  ghost predicate StateOk(a: Arcs, parents: seq<nat>, sizes: seq<nat>, roots: seq<nat>, ranks: seq<nat>)
  {
    Forest(parents, roots, ranks) && SizesOk(roots, ranks, sizes) && Sound(a, roots)
  }

  ghost predicate InOneTree(roots: seq<nat>, x: nat, y: nat)
  {
    x < |roots| && y < |roots| && roots[x] == roots[y]
  }

  /** Vertices that were in one tree stay in one. */
  ghost predicate Coarser(before: seq<nat>, after: seq<nat>)
  {
    |before| == |after| && forall x: nat, y: nat :: InOneTree(before, x, y) ==> InOneTree(after, x, y)
  }

  lemma SizesMatch(parents: seq<nat>, roots: seq<nat>, ranks: seq<nat>, sizes: seq<nat>)
    requires Forest(parents, roots, ranks) && SizesOk(roots, ranks, sizes)
    ensures |sizes| == |roots| == |parents|
  {
  }

  lemma LinkIsCoarser(roots: seq<nat>, over: nat, under: nat)
    ensures Coarser(roots, Joined(roots, over, under))
  {
  }

  /** Puts the two ends of an arc into one tree, the smaller under the larger. */
  method Union(parents: array<nat>, sizes: array<nat>, source: nat, target: nat, ghost a: Arcs, ghost roots: seq<nat>,
               ghost ranks: seq<nat>)
    returns (ghost roots': seq<nat>, ghost ranks': seq<nat>)
    requires parents != sizes && StateOk(a, parents[..], sizes[..], roots, ranks) && (source, target) in a
    requires source < parents.Length && target < parents.Length
    modifies parents, sizes
    ensures StateOk(a, parents[..], sizes[..], roots', ranks') && Coarser(roots, roots')
      && InOneTree(roots', source, target)
  {
    SizesMatch(parents[..], roots, ranks, sizes[..]);
    hide Forest, SizesOk, Sound, Coarser;
    var sourceRoot := FindComponentRoot(parents, source, roots, ranks);
    var targetRoot := FindComponentRoot(parents, target, roots, ranks);
    if sourceRoot == targetRoot {
      CoarserIsReflexive(roots);
      return roots, ranks;
    }
    LinkIsCoarser(roots, sourceRoot, targetRoot);
    LinkIsCoarser(roots, targetRoot, sourceRoot);
    if sizes[sourceRoot] < sizes[targetRoot] {
      sourceRoot, targetRoot := targetRoot, sourceRoot;
    }
    RootsAreRoots(parents[..], roots, ranks, source);
    RootsAreRoots(parents[..], roots, ranks, target);
    LinkKeepsForest(parents[..], roots, ranks, sourceRoot, targetRoot);
    LinkKeepsSizes(roots, ranks, sizes[..], sourceRoot, targetRoot);
    LinkIsSound(a, roots, source, target, sourceRoot, targetRoot);
    roots', ranks' := Joined(roots, sourceRoot, targetRoot), Raised(ranks, sourceRoot, targetRoot);
    ghost var parents0, sizes0 := parents[..], sizes[..];
    parents[targetRoot] := sourceRoot;
    sizes[sourceRoot] := sizes[sourceRoot] + sizes[targetRoot];
    assert parents[..] == parents0[targetRoot := sourceRoot];
    assert sizes[..] == sizes0[sourceRoot := sizes0[sourceRoot] + sizes0[targetRoot]];
  }

  lemma RootsAreRoots(parents: seq<nat>, roots: seq<nat>, ranks: seq<nat>, v: nat)
    requires Forest(parents, roots, ranks) && v < |parents|
    ensures roots[v] < |parents| && roots[roots[v]] == roots[v]
  {
    assert InForest(parents, roots, ranks, v);
  }

  /** The arcs of one slot range are each inside a tree. */
  ghost predicate SlotsJoined(adj: Adjacency, pr: Projection, source: nat, start: nat, end: nat, roots: seq<nat>)
    requires end <= |adj.neighbors| && end <= |adj.labels|
  {
    forall slot: nat :: start <= slot < end && pr.KeepsLabel(adj.labels[slot]) && pr.Keeps(adj.neighbors[slot]) ==>
      InOneTree(roots, source, adj.neighbors[slot])
  }

  method UnionRow(n: nat, outgoing: Adjacency, pr: Projection, source: nat, parents: array<nat>, sizes: array<nat>,
                  ghost a: Arcs,
                  ghost roots0: seq<nat>, ghost ranks0: seq<nat>)
    returns (ghost roots: seq<nat>, ghost ranks: seq<nat>)
    requires outgoing.Valid(n) && a == ProjectedArcs(n, outgoing, pr) && source < n && pr.Keeps(source)
    requires parents != sizes && parents.Length == n && StateOk(a, parents[..], sizes[..], roots0, ranks0)
    modifies parents, sizes
    ensures StateOk(a, parents[..], sizes[..], roots, ranks) && Coarser(roots0, roots)
    ensures SlotsJoined(outgoing, pr, source, outgoing.offsets[source], outgoing.offsets[source + 1], roots)
  {
    hide StateOk, Coarser, SlotsJoined, ProjectedArcs;
    roots, ranks := roots0, ranks0;
    var slot: nat, end: nat := outgoing.offsets[source], outgoing.offsets[source + 1];
    StayJoined(outgoing, pr, source, slot, slot, roots0, roots);
    while slot < end
      invariant outgoing.offsets[source] <= slot <= end <= |outgoing.neighbors|
      invariant StateOk(a, parents[..], sizes[..], roots, ranks) && Coarser(roots0, roots)
      invariant SlotsJoined(outgoing, pr, source, outgoing.offsets[source], slot, roots)
    {
      ghost var before := roots;
      if pr.KeepsLabel(outgoing.labels[slot]) && pr.Keeps(outgoing.neighbors[slot]) {
        SlotIsArc(n, outgoing, pr, source, slot);
        roots, ranks := Union(parents, sizes, source, outgoing.neighbors[slot], a, roots, ranks);
        CoarserIsTransitive(roots0, before, roots);
      }
      NextSlotJoined(outgoing, pr, source, outgoing.offsets[source], slot, before, roots);
      slot := slot + 1;
    }
  }

  lemma StayJoined(adj: Adjacency, pr: Projection, source: nat, start: nat, end: nat, before: seq<nat>, after: seq<nat>)
    requires start == end <= |adj.neighbors| && end <= |adj.labels| && before == after
    ensures SlotsJoined(adj, pr, source, start, end, after) && Coarser(before, after)
  {
  }

  lemma CoarserIsTransitive(a: seq<nat>, b: seq<nat>, c: seq<nat>)
    requires Coarser(a, b) && Coarser(b, c)
    ensures Coarser(a, c)
  {
  }

  lemma NextSlotJoined(adj: Adjacency, pr: Projection, source: nat, start: nat, slot: nat, before: seq<nat>,
                       after: seq<nat>)
    requires start <= slot < |adj.neighbors| == |adj.labels| && SlotsJoined(adj, pr, source, start, slot, before)
    requires Coarser(before, after) || before == after
    requires pr.KeepsLabel(adj.labels[slot]) && pr.Keeps(adj.neighbors[slot]) ==>
      InOneTree(after, source, adj.neighbors[slot])
    ensures SlotsJoined(adj, pr, source, start, slot + 1, after)
  {
    forall s: nat | start <= s < slot + 1 && pr.KeepsLabel(adj.labels[s]) && pr.Keeps(adj.neighbors[s])
      ensures InOneTree(after, source, adj.neighbors[s])
    {
      assert s < slot ==> InOneTree(before, source, adj.neighbors[s]);
    }
  }

  /** All arcs out of the first vertices are inside trees. */
  ghost predicate ArcsJoined(a: Arcs, roots: seq<nat>, m: nat)
  {
    forall x: nat, y: nat :: (x, y) in a && x < m ==> InOneTree(roots, x, y)
  }

  lemma RowJoined(n: nat, adj: Adjacency, pr: Projection, a: Arcs, source: nat, before: seq<nat>, after: seq<nat>)
    requires adj.Valid(n) && a == ProjectedArcs(n, adj, pr) && source < n && ArcsJoined(a, before, source)
      && Coarser(before, after)
    requires pr.Keeps(source) ==> SlotsJoined(adj, pr, source, adj.offsets[source], adj.offsets[source + 1], after)
    ensures ArcsJoined(a, after, source + 1)
  {
    forall x: nat, y: nat | (x, y) in a && x < source + 1
      ensures InOneTree(after, x, y)
    {
      if x < source {
        assert InOneTree(before, x, y);
      } else {
        var slot := ArcHasSlot(n, adj, pr, x, y);
      }
    }
  }

  method JoinComponents(n: nat, outgoing: Adjacency, pr: Projection, ghost a: Arcs)
    returns (parents: array<nat>, ghost roots: seq<nat>, ghost ranks: seq<nat>, ghost sizes: seq<nat>)
    requires outgoing.Valid(n) && a == ProjectedArcs(n, outgoing, pr)
    ensures fresh(parents) && parents.Length == n && StateOk(a, parents[..], sizes, roots, ranks)
      && ArcsJoined(a, roots, n)
  {
    parents := new nat[n](v => v);
    var treeSizes := new nat[n](_ => 1);
    roots, ranks := seq(n, v => v), seq(n, _ => 0);
    SingletonsAreOk(a, n, parents[..], treeSizes[..], roots, ranks);
    hide StateOk, ArcsJoined, SlotsJoined, Coarser, ProjectedArcs;
    var source: nat := 0;
    while source < n
      invariant source <= n && parents.Length == n && StateOk(a, parents[..], treeSizes[..], roots, ranks)
        && ArcsJoined(a, roots, source)
    {
      ghost var before := roots;
      CoarserIsReflexive(before);
      if pr.Keeps(source) {
        roots, ranks := UnionRow(n, outgoing, pr, source, parents, treeSizes, a, roots, ranks);
      }
      RowJoined(n, outgoing, pr, a, source, before, roots);
      source := source + 1;
    }
    sizes := treeSizes[..];
  }

  lemma CoarserIsReflexive(roots: seq<nat>)
    ensures Coarser(roots, roots)
  {
  }

  lemma SingletonsAreOk(a: Arcs, n: nat, parents: seq<nat>, sizes: seq<nat>, roots: seq<nat>, ranks: seq<nat>)
    requires |parents| == |sizes| == |roots| == |ranks| == n
    requires forall v :: 0 <= v < n ==> parents[v] == v && sizes[v] == 1 && roots[v] == v && ranks[v] == 0
    ensures StateOk(a, parents, sizes, roots, ranks) && ArcsJoined(a, roots, 0)
  {
    forall v: nat | v < n
      ensures |Members(roots, v)| == 1 && InForest(parents, roots, ranks, v) && Reaches(Symmetric(a), v, v)
    {
      assert Members(roots, v) == {v};
      ReachRefl(Symmetric(a), v);
    }
  }

  // ----- the rows -----

  ghost function Gathered(roots: seq<nat>, vertices: set<nat>, r: nat, m: nat): set<nat>
  {
    set v: nat | v in vertices && v < m && v < |roots| && roots[v] == r
  }

  ghost predicate GatheredAt(vertexIds: seq<nat>, roots: seq<nat>, vertices: set<nat>, m: nat, minimumId: nat,
                             size: nat, r: nat)
  {
    && size == |Gathered(roots, vertices, r, m)|
    && (if Gathered(roots, vertices, r, m) == {} then minimumId == MAX_UINT64
        else Minimum(vertexIds, Gathered(roots, vertices, r, m), minimumId))
  }

  ghost predicate AllGathered(vertexIds: seq<nat>, roots: seq<nat>, vertices: set<nat>, m: nat, minimumIds: seq<nat>,
                              sizes: seq<nat>)
  {
    && |minimumIds| == |sizes| == |roots|
    && forall r: nat :: r < |roots| ==> GatheredAt(vertexIds, roots, vertices, m, minimumIds[r], sizes[r], r)
  }

  lemma GatherNext(vertexIds: seq<nat>, roots: seq<nat>, vertices: set<nat>, v: nat, minimumIds: seq<nat>,
                   sizes: seq<nat>)
    requires AllGathered(vertexIds, roots, vertices, v, minimumIds, sizes) && v in vertices
      && v < |roots| <= |vertexIds|
    requires vertexIds[v] <= MAX_UINT64 && roots[v] < |roots|
    ensures AllGathered(vertexIds, roots, vertices, v + 1,
                        minimumIds[roots[v] := if vertexIds[v] < minimumIds[roots[v]] then vertexIds[v]
                                   else minimumIds[roots[v]]],
                        sizes[roots[v] := sizes[roots[v]] + 1])
  {
    var m := v + 1;
    var minimumIds' :=
      minimumIds[roots[v] := if vertexIds[v] < minimumIds[roots[v]] then vertexIds[v] else minimumIds[roots[v]]];
    var sizes' := sizes[roots[v] := sizes[roots[v]] + 1];
    hide GatheredAt;
    forall r: nat | r < |roots|
      ensures GatheredAt(vertexIds, roots, vertices, m, minimumIds'[r], sizes'[r], r)
    {
      if roots[v] == r {
        OneMoreGathered(vertexIds, roots, vertices, v, minimumIds[r], sizes[r]);
      } else {
        NoMoreGathered(vertexIds, roots, vertices, v, minimumIds[r], sizes[r], r);
      }
    }
  }

  lemma OneMoreGathered(vertexIds: seq<nat>, roots: seq<nat>, vertices: set<nat>, v: nat, minimumId: nat, size: nat)
    requires v in vertices && v < |roots| <= |vertexIds| && vertexIds[v] <= MAX_UINT64
    requires GatheredAt(vertexIds, roots, vertices, v, minimumId, size, roots[v])
    ensures GatheredAt(vertexIds, roots, vertices, v + 1, if vertexIds[v] < minimumId then vertexIds[v]
                       else minimumId, size + 1, roots[v])
  {
    var before, after := Gathered(roots, vertices, roots[v], v), Gathered(roots, vertices, roots[v], v + 1);
    assert after == before + {v} && v !in before;
    var least := if vertexIds[v] < minimumId then vertexIds[v] else minimumId;
    if before == {} {
      assert vertexIds[v] == least;
    } else {
      var u :| u in before && u < |vertexIds| && vertexIds[u] == minimumId;
      assert u in after && v in after;
    }
  }

  lemma NoMoreGathered(vertexIds: seq<nat>, roots: seq<nat>, vertices: set<nat>, v: nat, minimumId: nat, size: nat,
                       r: nat)
    requires v < |roots| && !(v in vertices && roots[v] == r)
      && GatheredAt(vertexIds, roots, vertices, v, minimumId, size, r)
    ensures GatheredAt(vertexIds, roots, vertices, v + 1, minimumId, size, r)
  {
    assert Gathered(roots, vertices, r, v + 1) == Gathered(roots, vertices, r, v);
  }

  method GatherComponents(vertexIds: seq<nat>, pr: Projection, parents: array<nat>, ghost vertices: set<nat>,
                          ghost roots: seq<nat>,
                          ghost ranks: seq<nat>)
    returns (minimumIds: array<nat>, componentSizes: array<nat>)
    requires Forest(parents[..], roots, ranks) && parents.Length == |vertexIds| && vertices == Vertices(|vertexIds|, pr)
    requires forall id :: id in vertexIds ==> id <= MAX_UINT64
    modifies parents
    ensures Forest(parents[..], roots, ranks) && fresh(minimumIds) && fresh(componentSizes)
    ensures AllGathered(vertexIds, roots, vertices, |vertexIds|, minimumIds[..], componentSizes[..])
  {
    minimumIds := new nat[|vertexIds|](_ => MAX_UINT64);
    componentSizes := new nat[|vertexIds|](_ => 0);
    NothingGathered(vertexIds, roots, vertices, minimumIds[..], componentSizes[..]);
    ForestSize(parents[..], roots, ranks);
    hide AllGathered, Forest;
    var vertex: nat := 0;
    while vertex < |vertexIds|
      invariant vertex <= |vertexIds| == minimumIds.Length == componentSizes.Length == |roots|
      invariant Forest(parents[..], roots, ranks)
      invariant AllGathered(vertexIds, roots, vertices, vertex, minimumIds[..], componentSizes[..])
    {
      assert vertexIds[vertex] in vertexIds;
      if pr.Keeps(vertex) {
        assert vertex in vertices;
        GatherOne(vertexIds, parents, vertex, minimumIds, componentSizes, vertices, roots, ranks);
      } else {
        GatherNone(vertexIds, roots, vertices, vertex, minimumIds[..], componentSizes[..]);
      }
      vertex := vertex + 1;
    }
  }

  lemma GatherNone(vertexIds: seq<nat>, roots: seq<nat>, vertices: set<nat>, v: nat, minimumIds: seq<nat>,
                   sizes: seq<nat>)
    requires AllGathered(vertexIds, roots, vertices, v, minimumIds, sizes) && v < |roots| && v !in vertices
    ensures AllGathered(vertexIds, roots, vertices, v + 1, minimumIds, sizes)
  {
    var m := v + 1;
    hide GatheredAt;
    forall r: nat | r < |roots|
      ensures GatheredAt(vertexIds, roots, vertices, m, minimumIds[r], sizes[r], r)
    {
      NoMoreGathered(vertexIds, roots, vertices, v, minimumIds[r], sizes[r], r);
    }
  }

  method GatherOne(vertexIds: seq<nat>, parents: array<nat>, vertex: nat, minimumIds: array<nat>,
                   componentSizes: array<nat>,
                   ghost vertices: set<nat>, ghost roots: seq<nat>, ghost ranks: seq<nat>)
    requires Forest(parents[..], roots, ranks) && vertex in vertices
      && vertex < |roots| == |vertexIds| == parents.Length
    requires parents != minimumIds && parents != componentSizes && minimumIds != componentSizes
    requires vertexIds[vertex] <= MAX_UINT64 && forall u :: u in vertices ==> u < |roots|
    requires minimumIds.Length == componentSizes.Length == |roots|
    requires AllGathered(vertexIds, roots, vertices, vertex, minimumIds[..], componentSizes[..])
    modifies parents, minimumIds, componentSizes
    ensures Forest(parents[..], roots, ranks)
    ensures AllGathered(vertexIds, roots, vertices, vertex + 1, minimumIds[..], componentSizes[..])
  {
    RootsAreRoots(parents[..], roots, ranks, vertex);
    GatherNext(vertexIds, roots, vertices, vertex, minimumIds[..], componentSizes[..]);
    hide AllGathered, Forest;
    ghost var minimums, sizes := minimumIds[..], componentSizes[..];
    var root := FindComponentRoot(parents, vertex, roots, ranks);
    minimumIds[root] := if vertexIds[vertex] < minimumIds[root] then vertexIds[vertex] else minimumIds[root];
    componentSizes[root] := componentSizes[root] + 1;
    assert minimumIds[..]
    == minimums[root := if vertexIds[vertex] < minimums[root] then vertexIds[vertex] else minimums[root]];
    assert componentSizes[..] == sizes[root := sizes[root] + 1];
  }

  lemma ForestSize(parents: seq<nat>, roots: seq<nat>, ranks: seq<nat>)
    requires Forest(parents, roots, ranks)
    ensures |roots| == |parents|
  {
  }

  lemma NothingGathered(vertexIds: seq<nat>, roots: seq<nat>, vertices: set<nat>, minimumIds: seq<nat>, sizes: seq<nat>)
    requires |minimumIds| == |sizes| == |roots| && forall r :: 0 <= r < |roots| ==>
      minimumIds[r] == MAX_UINT64 && sizes[r] == 0
    ensures AllGathered(vertexIds, roots, vertices, 0, minimumIds, sizes)
  {
    forall r: nat | r < |roots|
      ensures GatheredAt(vertexIds, roots, vertices, 0, minimumIds[r], sizes[r], r)
    {
      assert Gathered(roots, vertices, r, 0) == {};
    }
  }

  lemma GatheredIsClass(s: seq<nat>, a: Arcs, roots: seq<nat>, vertices: set<nat>, v: nat, minimumId: nat, size: nat)
    requires Sound(a, roots) && ArcsJoined(a, roots, |roots|) && v in vertices && forall u :: u in vertices ==>
      u < |roots|
    requires forall x: nat, y: nat :: (x, y) in a ==> x < |roots|
    requires GatheredAt(s, roots, vertices, |roots|, minimumId, size, roots[v])
    ensures Labelled(s, Symmetric(a), vertices, v, minimumId, size)
  {
    forall x: nat, y: nat | (x, y) in a
      ensures InOneTree(roots, x, y)
    {
    }
    forall u: nat | u in vertices
      ensures roots[v] == roots[u] <==> Mutual(Symmetric(a), v, u)
    {
      TreesAreComponents(a, roots, v, u);
      SymmetricReach(a, v, u);
    }
    assert Gathered(roots, vertices, roots[v], |roots|) == Class(Symmetric(a), vertices, v);
    assert v in Class(Symmetric(a), vertices, v);
  }

  /** Vertices get one id exactly if they are connected when edges are followed both ways. */
  method ComputeWcc(s: Snapshot, pr: Projection) returns (componentIds: array<nat>, componentSizes: array<nat>)
    requires s.Valid() && pr.Valid(|s.vertexIds|) && forall id :: id in s.vertexIds ==> id <= MAX_UINT64
    ensures componentIds.Length == componentSizes.Length == |s.vertexIds|
    ensures var a, vertices := ProjectedArcs(|s.vertexIds|, s.outgoing, pr), Vertices(|s.vertexIds|, pr);
      && (forall u, v :: u in vertices && v in vertices ==>
            (componentIds[u] == componentIds[v] <==> Reaches(Symmetric(a), u, v)))
      && (forall u :: u in vertices ==>
          Labelled(s.vertexIds, Symmetric(a), vertices, u, componentIds[u], componentSizes[u]))
  {
    var n := |s.vertexIds|;
    ghost var a, vertices := ProjectedArcs(n, s.outgoing, pr), Vertices(n, pr);
    var parents;
    ghost var roots, ranks, sizes;
    parents, roots, ranks, sizes := JoinComponents(n, s.outgoing, pr, a);
    var minimumIds, gatheredSizes := GatherComponents(s.vertexIds, pr, parents, vertices, roots, ranks);
    componentIds, componentSizes :=
      ReportComponents(s.vertexIds, pr, parents, minimumIds, gatheredSizes, a, vertices, roots, ranks);
    forall u, v | u in vertices && v in vertices
      ensures componentIds[u] == componentIds[v] <==> Reaches(Symmetric(a), u, v)
    {
      SameIdIffMutual(s.vertexIds, Symmetric(a), vertices, u, v, componentIds[u], componentIds[v]);
      SymmetricReach(a, u, v);
    }
  }

  method ReportComponents(vertexIds: seq<nat>, pr: Projection, parents: array<nat>, minimumIds: array<nat>,
                          gatheredSizes: array<nat>,
                          ghost a: Arcs, ghost vertices: set<nat>, ghost roots: seq<nat>, ghost ranks: seq<nat>)
    returns (componentIds: array<nat>, componentSizes: array<nat>)
    requires Forest(parents[..], roots, ranks) && parents.Length == |vertexIds| && vertices == Vertices(|vertexIds|, pr)
    requires parents != minimumIds && parents != gatheredSizes
    requires AllGathered(vertexIds, roots, vertices, |vertexIds|, minimumIds[..], gatheredSizes[..])
    requires Sound(a, roots) && ArcsJoined(a, roots, |roots|) && forall x: nat, y: nat :: (x, y) in a ==> x < |roots|
    modifies parents
    ensures fresh(componentIds) && fresh(componentSizes) && componentIds.Length == componentSizes.Length == |vertexIds|
    ensures forall v :: v in vertices ==>
      Labelled(vertexIds, Symmetric(a), vertices, v, componentIds[v], componentSizes[v])
  {
    hide Forest, Sound, Labelled, GatheredAt, ArcsJoined;
    ForestSize(parents[..], roots, ranks);
    componentIds, componentSizes := new nat[|vertexIds|](_ => 0), new nat[|vertexIds|](_ => 0);
    ghost var minimums, sizes := minimumIds[..], gatheredSizes[..];
    var vertex: nat := 0;
    while vertex < |vertexIds|
      invariant vertex <= |vertexIds| == |roots| && Forest(parents[..], roots, ranks)
      invariant minimumIds[..] == minimums && gatheredSizes[..] == sizes
      invariant forall v :: v in vertices && v < vertex ==>
        Labelled(vertexIds, Symmetric(a), vertices, v, componentIds[v], componentSizes[v])
    {
      if pr.Keeps(vertex) {
        RootsAreRoots(parents[..], roots, ranks, vertex);
        var root := FindComponentRoot(parents, vertex, roots, ranks);
        assert GatheredAt(vertexIds, roots, vertices, |roots|, minimums[root], sizes[root], root);
        GatheredIsClass(vertexIds, a, roots, vertices, vertex, minimums[root], sizes[root]);
        componentIds[vertex] := minimumIds[root];
        componentSizes[vertex] := gatheredSizes[root];
      }
      vertex := vertex + 1;
    }
  }
}
