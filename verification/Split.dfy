/** Splitting a path pattern with a quantified edge at the vertices its edges share. */
module Split {
  import opened Labels
  import opened Sequences

  // ----- patterns -----

  datatype Direction = Right | Left

  datatype Element =
    | Vertex(binding: nat, labels: seq<string>)
    | Edge(binding: nat, labels: seq<string>, direction: Direction, quantified: bool, unbounded: bool, shortest: bool,
           minimum: nat, maximum: nat)

  datatype Pattern = Pattern(elements: seq<Element>, optional: bool, stage: nat)
  {
    /** Vertices and edges take turns, and vertices stand at both ends. */
    ghost predicate Alternates()
    {
      && |elements| % 2 == 1
      && forall i: nat :: i < |elements| ==> (elements[i].Edge? <==> i % 2 == 1)
    }

    function EdgeCount(): nat
    {
      |elements| / 2
    }

    function EdgeAt(k: nat): Element
      requires k < EdgeCount()
    {
      elements[2 * k + 1]
    }
  }

  // ----- what a pattern matches -----

  datatype GraphEdge = GraphEdge(source: nat, target: nat, labels: set<string>)

  datatype Graph = Graph(vertices: map<nat, set<string>>, edges: map<nat, GraphEdge>)
  {
    ghost predicate Valid()
    {
      forall id :: id in edges ==> edges[id].source in vertices && edges[id].target in vertices
    }

    /** No edge answers to two labels, compared without regard to case. */
    ghost predicate OneLabelEach()
    {
      forall id, p, q :: id in edges && p in edges[id].labels && q in edges[id].labels ==> SameName(p, q)
    }
  }

  ghost predicate Carries(labels: set<string>, name: string)
  {
    exists l :: l in labels && SameName(l, name)
  }

  /** What an element is bound to: a vertex, or the edges of a walk. */
  datatype Value = NodeValue(id: nat) | PathValue(ids: seq<nat>)

  type Row = map<nat, Value>

  predicate LengthFits(el: Element, length: nat)
    requires el.Edge?
  {
    if el.quantified then el.minimum <= length && (el.unbounded || length <= el.maximum) else length == 1
  }

  ghost predicate StepFits(g: Graph, el: Element, u: nat, id: nat)
    requires el.Edge?
  {
    && id in g.edges && (forall i :: 0 <= i < |el.labels| ==> Carries(g.edges[id].labels, el.labels[i]))
    && u == if el.direction.Right? then g.edges[id].source else g.edges[id].target
  }

  function FarEnd(g: Graph, el: Element, id: nat): nat
    requires el.Edge? && id in g.edges
  {
    if el.direction.Right? then g.edges[id].target else g.edges[id].source
  }

  ghost predicate WalkFits(g: Graph, el: Element, u: nat, ids: seq<nat>, w: nat)
    requires el.Edge?
    decreases |ids|
  {
    if |ids| == 0 then u == w
    else StepFits(g, el, u, ids[0]) && WalkFits(g, el, FarEnd(g, el, ids[0]), ids[1..], w)
  }

  ghost predicate VertexFits(g: Graph, el: Element, row: Row)
  {
    && el.binding in row && row[el.binding].NodeValue? && row[el.binding].id in g.vertices
    && forall i :: 0 <= i < |el.labels| ==> Carries(g.vertices[row[el.binding].id], el.labels[i])
  }

  ghost predicate EdgeFits(g: Graph, left: Element, el: Element, right: Element, row: Row)
    requires el.Edge?
  {
    && VertexFits(g, left, row) && VertexFits(g, right, row)
    && el.binding in row && row[el.binding].PathValue? && LengthFits(el, |row[el.binding].ids|)
    && WalkFits(g, el, row[left.binding].id, row[el.binding].ids, row[right.binding].id)
  }

  function WalkOf(el: Element, row: Row): seq<nat>
  {
    if el.binding in row && row[el.binding].PathValue? then row[el.binding].ids else []
  }

  /** The edges of the first `k` edge elements, one walk after the other. */
  function PathUpTo(p: Pattern, row: Row, k: nat): seq<nat>
    requires k <= p.EdgeCount()
  {
    if k == 0 then [] else PathUpTo(p, row, k - 1) + WalkOf(p.EdgeAt(k - 1), row)
  }

  /** All elements fit, and the path never repeats an edge. */
  ghost predicate Matches(g: Graph, p: Pattern, row: Row)
    requires p.Alternates()
  {
    && VertexFits(g, p.elements[0], row)
    && (forall k: nat :: k < p.EdgeCount() ==> EdgeFits(g, p.elements[2 * k], p.EdgeAt(k), p.elements[2 * k + 2], row))
    && Distinct(PathUpTo(p, row, p.EdgeCount()))
  }

  ghost function Bindings(patterns: seq<Pattern>): set<nat>
  {
    set p, e | p in patterns && e in p.elements :: e.binding
  }

  ghost predicate AllAlternate(patterns: seq<Pattern>)
  {
    forall i :: 0 <= i < |patterns| ==> patterns[i].Alternates()
  }

  /** An answer of a stage binds every element once, so patterns that share a binding agree on it. */
  ghost predicate IsAnswer(g: Graph, patterns: seq<Pattern>, row: Row)
    requires AllAlternate(patterns)
  {
    row.Keys == Bindings(patterns) && AllMatch(g, patterns, row)
  }

  ghost predicate AllMatch(g: Graph, patterns: seq<Pattern>, row: Row)
    requires AllAlternate(patterns)
  {
    forall i :: 0 <= i < |patterns| ==> Matches(g, patterns[i], row)
  }

  // ----- the split -----

  ghost predicate DifferentLabels(p: Pattern, m: nat)
    requires m <= p.EdgeCount() && forall k: nat :: k < m ==> |p.EdgeAt(k).labels| == 1
  {
    forall j: nat, k: nat :: j < k < m ==> !SameName(p.EdgeAt(j).labels[0], p.EdgeAt(k).labels[0])
  }

  ghost predicate PlainSingles(p: Pattern, m: nat)
    requires p.Alternates() && m <= p.EdgeCount()
  {
    forall k: nat :: k < m ==> |p.EdgeAt(k).labels| == 1 && !p.EdgeAt(k).shortest
  }

  ghost predicate HasQuantified(p: Pattern, m: nat)
    requires p.Alternates() && m <= p.EdgeCount()
  {
    exists k: nat :: k < m && p.EdgeAt(k).quantified
  }

  ghost predicate MaySplit(p: Pattern, canSplit: bool)
    requires p.Alternates()
  {
    && canSplit && p.EdgeCount() >= 2 && HasQuantified(p, p.EdgeCount())
    && PlainSingles(p, p.EdgeCount()) && DifferentLabels(p, p.EdgeCount())
  }

  /** The guard in terms of the pattern's elements. */
  ghost predicate MaySplitElements(elements: seq<Element>, canSplit: bool)
  {
    && canSplit && |elements| >= 5
    && (exists i :: 0 <= i < |elements| && elements[i].Edge? && elements[i].quantified)
    && (forall i :: 0 <= i < |elements| && elements[i].Edge? ==> |elements[i].labels| == 1 && !elements[i].shortest)
    && (forall i, j :: 0 <= i < j < |elements| && elements[i].Edge? && elements[j].Edge? ==>
          !SameName(elements[i].labels[0], elements[j].labels[0]))
  }

  /** A pattern may be split exactly if it has two edges or more, one of them quantified, none of them
      searching for shortest paths, and each with one label that no other has, whatever the case. */
  lemma MaySplitIff(p: Pattern, canSplit: bool)
    requires p.Alternates()
    ensures MaySplit(p, canSplit) <==> MaySplitElements(p.elements, canSplit)
  {
    hide SameName;
    forall i: nat | i < |p.elements| && p.elements[i].Edge?
      ensures i / 2 < p.EdgeCount() && p.EdgeAt(i / 2) == p.elements[i]
    {
      assert i == 2 * (i / 2) + 1;
    }
    forall k: nat | k < p.EdgeCount()
      ensures 2 * k + 1 < |p.elements| && p.elements[2 * k + 1] == p.EdgeAt(k) && p.EdgeAt(k).Edge?
    {
      assert (2 * k + 1) % 2 == 1;
    }
    QuantifiedIff(p);
    SinglesIff(p);
    if PlainSingles(p, p.EdgeCount()) {
      DifferentIff(p);
    }
  }

  lemma QuantifiedIff(p: Pattern)
    requires p.Alternates()
    ensures HasQuantified(p, p.EdgeCount()) <==>
      exists i :: 0 <= i < |p.elements| && p.elements[i].Edge? && p.elements[i].quantified
  {
    if i :| 0 <= i < |p.elements| && p.elements[i].Edge? && p.elements[i].quantified {
      assert i == 2 * (i / 2) + 1 && p.EdgeAt(i / 2).quantified;
    }
    if k: nat :| k < p.EdgeCount() && p.EdgeAt(k).quantified {
      assert p.elements[2 * k + 1].Edge?;
    }
  }

  lemma SinglesIff(p: Pattern)
    requires p.Alternates()
    ensures PlainSingles(p, p.EdgeCount()) <==>
      forall i :: 0 <= i < |p.elements| && p.elements[i].Edge? ==>
          |p.elements[i].labels| == 1 && !p.elements[i].shortest
  {
    if PlainSingles(p, p.EdgeCount()) {
      forall i | 0 <= i < |p.elements| && p.elements[i].Edge?
        ensures |p.elements[i].labels| == 1 && !p.elements[i].shortest
      {
        assert i == 2 * (i / 2) + 1 && p.EdgeAt(i / 2) == p.elements[i];
      }
    }
  }

  lemma DifferentIff(p: Pattern)
    requires p.Alternates() && PlainSingles(p, p.EdgeCount())
    requires forall i :: 0 <= i < |p.elements| && p.elements[i].Edge? ==> |p.elements[i].labels| == 1
    ensures DifferentLabels(p, p.EdgeCount()) <==>
      forall i, j :: 0 <= i < j < |p.elements| && p.elements[i].Edge? && p.elements[j].Edge? ==>
          !SameName(p.elements[i].labels[0], p.elements[j].labels[0])
  {
    hide SameName;
    if DifferentLabels(p, p.EdgeCount()) {
      forall i, j | 0 <= i < j < |p.elements| && p.elements[i].Edge? && p.elements[j].Edge?
        ensures !SameName(p.elements[i].labels[0], p.elements[j].labels[0])
      {
        assert i == 2 * (i / 2) + 1 && j == 2 * (j / 2) + 1;
        assert p.EdgeAt(i / 2) == p.elements[i] && p.EdgeAt(j / 2) == p.elements[j];
      }
    }
  }

  /** One edge with its two vertices. */
  function Part(p: Pattern, k: nat): Pattern
    requires k < p.EdgeCount() && |p.elements| % 2 == 1
  {
    Pattern([p.elements[2 * k], p.elements[2 * k + 1], p.elements[2 * k + 2]], p.optional, p.stage)
  }

  ghost function Parts(p: Pattern): (parts: seq<Pattern>)
    requires p.Alternates()
    ensures |parts| == p.EdgeCount() && AllAlternate(parts)
    ensures forall k: nat :: k < |parts| ==> parts[k] == Part(p, k)
  {
    seq(p.EdgeCount(), k requires 0 <= k < p.EdgeCount() => Part(p, k))
  }

  ghost function LabelsUpTo(p: Pattern, m: nat): (s: set<string>)
    requires p.Alternates() && m <= p.EdgeCount() && PlainSingles(p, m)
    ensures forall l :: l in s <==> exists k: nat :: k < m && l == Lower(p.EdgeAt(k).labels[0])
  {
    set k: nat | k < m :: Lower(p.EdgeAt(k).labels[0])
  }

  /** The label set has as many members as edges exactly while no two edges share a label. */
  lemma {:induction false} LabelsTellEdgesApart(p: Pattern, m: nat)
    requires p.Alternates() && m <= p.EdgeCount() && PlainSingles(p, m)
    ensures |LabelsUpTo(p, m)| <= m && (|LabelsUpTo(p, m)| == m <==> DifferentLabels(p, m))
  {
    hide Lower, SameName, LabelsUpTo, DifferentLabels;
    if m == 0 {
      NothingDiffers(p);
    } else {
      LabelsTellEdgesApart(p, m - 1);
      LabelsNext(p, m - 1);
      DifferentNext(p, m - 1);
    }
  }

  lemma NothingDiffers(p: Pattern)
    ensures DifferentLabels(p, 0)
  {
  }

  lemma DifferentNext(p: Pattern, m: nat)
    requires p.Alternates() && m < p.EdgeCount() && PlainSingles(p, m + 1)
    ensures DifferentLabels(p, m + 1) <==> DifferentLabels(p, m) && Lower(p.EdgeAt(m).labels[0]) !in LabelsUpTo(p, m)
  {
    SameNames();
    hide Lower, SameName;
  }

  lemma LabelsNext(p: Pattern, m: nat)
    requires p.Alternates() && m < p.EdgeCount() && PlainSingles(p, m + 1)
    ensures LabelsUpTo(p, m + 1) == LabelsUpTo(p, m) + {Lower(p.EdgeAt(m).labels[0])}
  {
    forall l
      ensures l in LabelsUpTo(p, m + 1) <==> l in LabelsUpTo(p, m) || l == Lower(p.EdgeAt(m).labels[0])
    {
      if l in LabelsUpTo(p, m) {
        var k: nat :| k < m && l == Lower(p.EdgeAt(k).labels[0]);
        assert k < m + 1;
      }
    }
  }

  /** Reads the guard off the edges in one pass. */
  method ReadGuard(pattern: Pattern, canSplit: bool) returns (may: bool)
    requires pattern.Alternates()
    ensures may <==> MaySplit(pattern, canSplit)
    ensures may <==> MaySplitElements(pattern.elements, canSplit)
  {
    MaySplitIff(pattern, canSplit);
    var hasQuantified, edges, splits := false, 0, canSplit;
    var labels: set<string> := {};
    var index := 1;
    hide Lower;
    while index < |pattern.elements|
      invariant 0 <= edges <= pattern.EdgeCount() && index == 2 * edges + 1
      invariant hasQuantified <==> HasQuantified(pattern, edges)
      invariant splits <==> canSplit && PlainSingles(pattern, edges)
      invariant splits ==> labels == LabelsUpTo(pattern, edges)
    {
      var edge := pattern.elements[index];
      assert edge == pattern.EdgeAt(edges) && edge.Edge?;
      hasQuantified := hasQuantified || edge.quantified;
      splits := splits && |edge.labels| == 1 && !edge.shortest;
      if |edge.labels| == 1 {
        labels := labels + {Lower(edge.labels[0])};
      }
      if splits {
        LabelsNext(pattern, edges);
      }
      edges := edges + 1;
      index := index + 2;
    }
    if splits {
      LabelsTellEdgesApart(pattern, edges);
    }
    may := hasQuantified && edges >= 2 && splits && |labels| == edges;
  }

  method AppendParts(pattern: Pattern, result: seq<Pattern>) returns (after: seq<Pattern>)
    requires pattern.Alternates()
    ensures after == result + Parts(pattern)
  {
    after := result;
    var index := 1;
    ghost var done: nat := 0;
    while index < |pattern.elements|
      invariant done <= pattern.EdgeCount() && index == 2 * done + 1
      invariant after == result + Parts(pattern)[..done]
    {
      var part := Pattern([pattern.elements[index - 1], pattern.elements[index], pattern.elements[index + 1]],
                          pattern.optional, pattern.stage);
      assert Parts(pattern)[..done + 1] == Parts(pattern)[..done] + [part];
      after := after + [part];
      index := index + 2;
      done := done + 1;
    }
    assert Parts(pattern)[..done] == Parts(pattern);
  }

  /** Appends the pattern, in parts when the guard allows it; over edges of one label each the stage
      keeps its answers. */
  method SplitQuantifiedPattern(pattern: Pattern, canSplit: bool, result: seq<Pattern>) returns (after: seq<Pattern>)
    requires pattern.Alternates() && AllAlternate(result)
    ensures after == result + (if MaySplit(pattern, canSplit) then Parts(pattern) else [pattern])
    ensures AllAlternate(after) && forall g: Graph, row: Row :: g.OneLabelEach() ==>
      (IsAnswer(g, after, row) <==> IsAnswer(g, result + [pattern], row))
  {
    hide Matches, Bindings, Parts, AllMatch, IsAnswer;
    var may := ReadGuard(pattern, canSplit);
    if !may {
      after := result + [pattern];
      return;
    }
    after := AppendParts(pattern, result);
    forall g: Graph, row: Row | g.OneLabelEach()
      ensures IsAnswer(g, after, row) <==> IsAnswer(g, result + [pattern], row)
    {
      SplitKeepsAnswers(g, result, pattern, row);
    }
  }

  // ----- the answers stay -----

  lemma WholeBindsAsParts(before: seq<Pattern>, p: Pattern)
    requires p.Alternates() && p.EdgeCount() >= 1
    ensures Bindings(before + [p]) == Bindings(before + Parts(p))
  {
    hide Bindings, Parts;
    BindingsOfBoth(before, [p]);
    BindingsOfBoth(before, Parts(p));
    PartsBindSame(p);
  }

  lemma PartsBindSame(p: Pattern)
    requires p.Alternates() && p.EdgeCount() >= 1
    ensures Bindings([p]) == Bindings(Parts(p))
  {
    forall b: nat
      ensures b in Bindings([p]) <==> b in Bindings(Parts(p))
    {
      if b in Bindings([p]) {
        var e :| e in p.elements && e.binding == b;
        var i: nat :| i < |p.elements| && p.elements[i] == e;
        ElementIsInPart(p, i);
      }
      if b in Bindings(Parts(p)) {
        var q, e :| q in Parts(p) && e in q.elements && e.binding == b;
        var k: nat :| k < |Parts(p)| && Parts(p)[k] == q;
        assert e in p.elements && p in [p];
      }
    }
  }

  lemma ElementIsInPart(p: Pattern, i: nat)
    requires p.Alternates() && p.EdgeCount() >= 1 && i < |p.elements|
    ensures exists q :: q in Parts(p) && p.elements[i] in q.elements
  {
    var k := if i == 0 then 0 else (i - 1) / 2;
    var part := Part(p, k);
    assert part.elements[i - 2 * k] == p.elements[i];
    assert Parts(p)[k] == part && part in Parts(p) && p.elements[i] in part.elements;
  }

  lemma BindingsOfBoth(s: seq<Pattern>, t: seq<Pattern>)
    ensures Bindings(s + t) == Bindings(s) + Bindings(t)
  {
    forall b: nat
      ensures b in Bindings(s + t) <==> b in Bindings(s) || b in Bindings(t)
    {
      if b in Bindings(s + t) {
        var p, e :| p in s + t && e in p.elements && e.binding == b;
        assert p in s || p in t;
      }
      if b in Bindings(s) || b in Bindings(t) {
        var p, e :| (p in s || p in t) && e in p.elements && e.binding == b;
        assert p in s + t;
      }
    }
  }

  lemma PartPath(p: Pattern, row: Row, k: nat)
    requires p.Alternates() && k < p.EdgeCount()
    ensures Part(p, k).EdgeCount() == 1 && PathUpTo(Part(p, k), row, 1) == WalkOf(p.EdgeAt(k), row)
  {
    assert Part(p, k).EdgeAt(0) == p.EdgeAt(k);
    assert PathUpTo(Part(p, k), row, 0) == [];
  }

  /** A part matches when its edge fits and its own walk never repeats an edge. */
  lemma PartMatches(g: Graph, p: Pattern, row: Row, k: nat)
    requires p.Alternates() && k < p.EdgeCount()
    ensures Part(p, k).Alternates()
    ensures Matches(g, Part(p, k), row) <==> FitsAt(g, p, row, k)
  {
    PartPath(p, row, k);
    var part := Part(p, k);
    assert part.Alternates();
    assert part.EdgeAt(0) == p.EdgeAt(k) && part.elements[2] == p.elements[2 * k + 2];
  }

  lemma {:induction false} WalkIsInPath(p: Pattern, row: Row, k: nat, m: nat)
    requires k < m <= p.EdgeCount() && Distinct(PathUpTo(p, row, m))
    ensures Distinct(WalkOf(p.EdgeAt(k), row))
    decreases m
  {
    var init, last := PathUpTo(p, row, m - 1), WalkOf(p.EdgeAt(m - 1), row);
    assert forall i :: 0 <= i < |init| ==> PathUpTo(p, row, m)[i] == init[i];
    assert forall i :: 0 <= i < |last| ==> PathUpTo(p, row, m)[|init| + i] == last[i];
    if k < m - 1 {
      WalkIsInPath(p, row, k, m - 1);
    }
  }

  /** Every edge of a fitting walk carries the element's label. */
  lemma {:induction false} WalkCarries(g: Graph, el: Element, u: nat, ids: seq<nat>, w: nat, id: nat)
    requires el.Edge? && |el.labels| == 1 && WalkFits(g, el, u, ids, w) && id in ids
    ensures id in g.edges && Carries(g.edges[id].labels, el.labels[0])
    decreases |ids|
  {
    if id != ids[0] {
      WalkCarries(g, el, FarEnd(g, el, ids[0]), ids[1..], w, id);
    }
  }

  lemma CarriedAlike(g: Graph, id: nat, p: string, q: string)
    requires g.OneLabelEach() && id in g.edges && Carries(g.edges[id].labels, p) && Carries(g.edges[id].labels, q)
    ensures SameName(p, q)
  {
    SameNames();
  }

  ghost predicate FitsThrough(g: Graph, p: Pattern, row: Row)
    requires p.Alternates()
  {
    forall k: nat :: k < p.EdgeCount() ==> FitsAt(g, p, row, k)
  }

  ghost predicate FitsAt(g: Graph, p: Pattern, row: Row, k: nat)
    requires p.Alternates() && k < p.EdgeCount()
  {
    EdgeFits(g, p.elements[2 * k], p.EdgeAt(k), p.elements[2 * k + 2], row) && Distinct(WalkOf(p.EdgeAt(k), row))
  }

  lemma WalkAtCarries(g: Graph, p: Pattern, row: Row, k: nat, id: nat)
    requires p.Alternates() && k < p.EdgeCount() && |p.EdgeAt(k).labels| == 1 && FitsAt(g, p, row, k)
      && id in WalkOf(p.EdgeAt(k), row)
    ensures id in g.edges && Carries(g.edges[id].labels, p.EdgeAt(k).labels[0])
  {
    WalkCarries(g, p.EdgeAt(k), row[p.elements[2 * k].binding].id, WalkOf(p.EdgeAt(k), row),
                row[p.elements[2 * k + 2].binding].id, id);
  }

  /** An edge met by two walks answers to both their labels, so they are one label. */
  lemma SharedEdgeSharesLabel(g: Graph, p: Pattern, row: Row, j: nat, k: nat, id: nat)
    requires g.OneLabelEach() && p.Alternates() && j < p.EdgeCount() && k < p.EdgeCount()
      && PlainSingles(p, p.EdgeCount())
    requires FitsThrough(g, p, row) && id in WalkOf(p.EdgeAt(j), row) && id in WalkOf(p.EdgeAt(k), row)
    ensures SameName(p.EdgeAt(j).labels[0], p.EdgeAt(k).labels[0])
  {
    hide FitsAt, Carries, WalkOf;
    WalkAtCarries(g, p, row, j, id);
    WalkAtCarries(g, p, row, k, id);
    CarriedAlike(g, id, p.EdgeAt(j).labels[0], p.EdgeAt(k).labels[0]);
  }

  ghost predicate InWalks(p: Pattern, row: Row, m: nat, id: nat)
    requires m <= p.EdgeCount()
  {
    exists k: nat :: k < m && id in WalkOf(p.EdgeAt(k), row)
  }

  lemma WalksBeforeDiffer(g: Graph, p: Pattern, row: Row, m: nat, id: nat)
    requires g.OneLabelEach() && p.Alternates() && PlainSingles(p, p.EdgeCount()) && DifferentLabels(p, p.EdgeCount())
    requires FitsThrough(g, p, row) && m < p.EdgeCount() && InWalks(p, row, m, id)
    ensures id !in WalkOf(p.EdgeAt(m), row)
  {
    hide FitsThrough, WalkOf, SameName;
    var k: nat :| k < m && id in WalkOf(p.EdgeAt(k), row);
    if id in WalkOf(p.EdgeAt(m), row) {
      SharedEdgeSharesLabel(g, p, row, k, m, id);
    }
  }

  lemma InWalksNext(p: Pattern, row: Row, m: nat, id: nat)
    requires m < p.EdgeCount()
    ensures InWalks(p, row, m + 1, id) <==> InWalks(p, row, m, id) || id in WalkOf(p.EdgeAt(m), row)
  {
    if InWalks(p, row, m, id) {
      var k: nat :| k < m && id in WalkOf(p.EdgeAt(k), row);
      assert k < m + 1;
    }
  }

  lemma {:induction false} PathIsDistinct(g: Graph, p: Pattern, row: Row, m: nat)
    requires g.OneLabelEach() && p.Alternates() && PlainSingles(p, p.EdgeCount()) && DifferentLabels(p, p.EdgeCount())
    requires FitsThrough(g, p, row) && m <= p.EdgeCount()
    ensures Distinct(PathUpTo(p, row, m))
    ensures forall id :: id in PathUpTo(p, row, m) ==> InWalks(p, row, m, id)
  {
    if m > 0 {
      var init, last := PathUpTo(p, row, m - 1), WalkOf(p.EdgeAt(m - 1), row);
      assert PathUpTo(p, row, m) == init + last;
      assert FitsAt(g, p, row, m - 1) && Distinct(last);
      hide PathUpTo, WalkOf, FitsThrough, FitsAt, Distinct, InWalks, PlainSingles, DifferentLabels;
      PathIsDistinct(g, p, row, m - 1);
      forall id | id in init
        ensures id !in last
      {
        WalksBeforeDiffer(g, p, row, m - 1, id);
      }
      ConcatDistinct(init, last);
      forall id | id in init + last
        ensures InWalks(p, row, m, id)
      {
        InWalksNext(p, row, m - 1, id);
      }
    }
  }

  lemma PartsMatchIff(g: Graph, p: Pattern, row: Row)
    requires p.Alternates()
    ensures AllMatch(g, Parts(p), row) <==> FitsThrough(g, p, row)
  {
    hide Matches, FitsAt, Part;
    forall k: nat | k < p.EdgeCount()
      ensures Matches(g, Parts(p)[k], row) <==> FitsAt(g, p, row, k)
    {
      PartMatches(g, p, row, k);
    }
    if AllMatch(g, Parts(p), row) {
      forall k: nat | k < p.EdgeCount()
        ensures FitsAt(g, p, row, k)
      {
        assert Matches(g, Parts(p)[k], row);
      }
    }
  }

  /** Over edges of one label each, a pattern that may be split matches a row exactly when all its parts do. */
  lemma PartsMatchTogether(g: Graph, p: Pattern, row: Row)
    requires g.OneLabelEach() && p.Alternates() && MaySplit(p, true)
    ensures Matches(g, p, row) <==> AllMatch(g, Parts(p), row)
  {
    PartsMatchIff(g, p, row);
    if Matches(g, p, row) {
      forall k: nat | k < p.EdgeCount()
        ensures FitsAt(g, p, row, k)
      {
        WalkIsInPath(p, row, k, p.EdgeCount());
      }
    }
    if FitsThrough(g, p, row) {
      PathIsDistinct(g, p, row, p.EdgeCount());
      FitsStartToEnd(g, p, row);
    }
  }

  lemma FitsStartToEnd(g: Graph, p: Pattern, row: Row)
    requires p.Alternates() && p.EdgeCount() > 0 && FitsThrough(g, p, row) && Distinct(PathUpTo(p, row, p.EdgeCount()))
    ensures Matches(g, p, row)
  {
    hide WalkFits, PathUpTo, Distinct;
    assert FitsAt(g, p, row, 0);
    forall k: nat | k < p.EdgeCount()
      ensures EdgeFits(g, p.elements[2 * k], p.EdgeAt(k), p.elements[2 * k + 2], row)
    {
      assert FitsAt(g, p, row, k);
    }
  }

  lemma AllMatchBoth(g: Graph, s: seq<Pattern>, t: seq<Pattern>, row: Row)
    requires AllAlternate(s) && AllAlternate(t)
    ensures AllAlternate(s + t) && (AllMatch(g, s + t, row) <==> AllMatch(g, s, row) && AllMatch(g, t, row))
  {
    hide Matches;
    assert forall i :: 0 <= i < |s| ==> (s + t)[i] == s[i];
    assert forall i :: 0 <= i < |t| ==> (s + t)[|s| + i] == t[i];
    if AllMatch(g, s + t, row) {
      forall i | 0 <= i < |t|
        ensures Matches(g, t[i], row)
      {
        assert Matches(g, (s + t)[|s| + i], row);
      }
    }
  }

  lemma MaySplitHasEdges(p: Pattern)
    requires p.Alternates() && MaySplit(p, true)
    ensures p.EdgeCount() >= 2
  {
  }

  lemma OneAlternates(p: Pattern)
    requires p.Alternates()
    ensures AllAlternate([p])
  {
  }

  lemma OneMatches(g: Graph, p: Pattern, row: Row)
    requires p.Alternates()
    ensures AllAlternate([p]) && (AllMatch(g, [p], row) <==> Matches(g, p, row))
  {
    assert [p][0] == p;
  }

  /** The rest of the stage sees no difference either. */
  lemma SplitKeepsAnswers(g: Graph, before: seq<Pattern>, p: Pattern, row: Row)
    requires g.OneLabelEach() && p.Alternates() && MaySplit(p, true) && AllAlternate(before)
    ensures AllAlternate(before + Parts(p)) && AllAlternate(before + [p])
    ensures IsAnswer(g, before + Parts(p), row) <==> IsAnswer(g, before + [p], row)
  {
    hide Matches, Bindings, Parts, MaySplit, AllAlternate;
    MaySplitHasEdges(p);
    OneAlternates(p);
    WholeBindsAsParts(before, p);
    PartsMatchTogether(g, p, row);
    OneMatches(g, p, row);
    hide AllMatch;
    AllMatchBoth(g, before, Parts(p), row);
    AllMatchBoth(g, before, [p], row);
  }

  // ----- and only then -----

  ghost predicate SameAnswers(g: Graph, p: Pattern, row: Row)
    requires p.Alternates()
  {
    IsAnswer(g, Parts(p), row) <==> IsAnswer(g, [p], row)
  }

  /** Every split this graph may meet is harmless. */
  ghost predicate SplitsAreSafe(g: Graph)
  {
    forall p: Pattern, row: Row :: p.Alternates() && MaySplit(p, true) ==> SameAnswers(g, p, row)
  }

  /** One edge out along the first label and back along the second. */
  function ThereAndBack(there: string, back: string): Pattern
  {
    Pattern([Vertex(0, []), Edge(1, [there], Right, true, false, false, 1, 2), Vertex(2, []),
             Edge(3, [back], Left, false, false, false, 1, 1), Vertex(4, [])], false, 0)
  }

  function ThereAndBackRow(u: nat, w: nat, id: nat): Row
  {
    map[0 := NodeValue(u), 1 := PathValue([id]), 2 := NodeValue(w), 3 := PathValue([id]), 4 := NodeValue(u)]
  }

  lemma TwoLabelsBreakSplit(g: Graph, id: nat, there: string, back: string)
    requires g.Valid() && id in g.edges && there in g.edges[id].labels && back in g.edges[id].labels
      && !SameName(there, back)
    ensures var p := ThereAndBack(there, back);
      p.Alternates() && MaySplit(p, true)
      && !SameAnswers(g, p, ThereAndBackRow(g.edges[id].source, g.edges[id].target, id))
  {
    var p, u, w := ThereAndBack(there, back), g.edges[id].source, g.edges[id].target;
    var row := ThereAndBackRow(u, w, id);
    ThereAndBackMaySplit(there, back);
    StepBackAndForth(g, id, u, w, there, back);
    ThereAndBackFits(g, id, there, back);
    PartsMatchIff(g, p, row);
    ThereAndBackBinds(there, back, row);
    WholeBindsAsParts([], p);
    assert [] + [p] == [p] && [] + Parts(p) == Parts(p);
    ThereAndBackRepeats(there, back, u, w, id);
    assert !Matches(g, [p][0], row);
  }

  lemma ThereAndBackMaySplit(there: string, back: string)
    requires !SameName(there, back)
    ensures ThereAndBack(there, back).Alternates() && MaySplit(ThereAndBack(there, back), true)
  {
    hide SameName;
    var p := ThereAndBack(there, back);
    assert p.EdgeCount() == 2 && p.EdgeAt(0).quantified && p.EdgeAt(0).labels == [there]
    && p.EdgeAt(1).labels == [back];
  }

  lemma ThereAndBackBinds(there: string, back: string, row: Row)
    requires row.Keys == {0, 1, 2, 3, 4}
    ensures row.Keys == Bindings([ThereAndBack(there, back)])
  {
    var p := ThereAndBack(there, back);
    forall b: nat
      ensures b in row.Keys <==> b in Bindings([p])
    {
      assert p in [p];
      if b < 5 {
        assert p.elements[b] in p.elements && p.elements[b].binding == b;
      }
    }
  }

  lemma ThereAndBackRepeats(there: string, back: string, u: nat, w: nat, id: nat)
    ensures var p := ThereAndBack(there, back);
      p.EdgeCount() == 2 && !Distinct(PathUpTo(p, ThereAndBackRow(u, w, id), 2))
  {
    var p, row := ThereAndBack(there, back), ThereAndBackRow(u, w, id);
    assert PathUpTo(p, row, 0) == [] && PathUpTo(p, row, 1) == [id] && PathUpTo(p, row, 2) == [id, id];
    assert [id, id][0] == [id, id][1];
  }

  lemma ThereAndBackFits(g: Graph, id: nat, there: string, back: string)
    requires g.Valid() && id in g.edges && there in g.edges[id].labels && back in g.edges[id].labels
    ensures var p := ThereAndBack(there, back);
      p.Alternates() && FitsThrough(g, p, ThereAndBackRow(g.edges[id].source, g.edges[id].target, id))
  {
    var p, u, w := ThereAndBack(there, back), g.edges[id].source, g.edges[id].target;
    var row := ThereAndBackRow(u, w, id);
    StepBackAndForth(g, id, u, w, there, back);
    hide WalkFits;
    assert p.EdgeAt(0) == p.elements[1] && p.EdgeAt(1) == p.elements[3];
    assert FitsAt(g, p, row, 0);
    assert FitsAt(g, p, row, 1);
  }

  lemma StepBackAndForth(g: Graph, id: nat, u: nat, w: nat, there: string, back: string)
    requires id in g.edges && g.edges[id].source == u && g.edges[id].target == w
    requires there in g.edges[id].labels && back in g.edges[id].labels
    ensures WalkFits(g, ThereAndBack(there, back).elements[1], u, [id], w)
    ensures WalkFits(g, ThereAndBack(there, back).elements[3], w, [id], u)
  {
    assert [id][1..] == [];
    assert Carries(g.edges[id].labels, there) && Carries(g.edges[id].labels, back);
  }

  /** Splits keep all answers exactly when no edge of the graph carries two labels. */
  lemma SplitsAreSafeIff(g: Graph)
    requires g.Valid()
    ensures SplitsAreSafe(g) <==> g.OneLabelEach()
  {
    if g.OneLabelEach() {
      forall p: Pattern, row: Row | p.Alternates() && MaySplit(p, true)
        ensures SameAnswers(g, p, row)
      {
        SplitKeepsAnswers(g, [], p, row);
        assert [] + [p] == [p] && [] + Parts(p) == Parts(p);
      }
    } else {
      var id, there, back :| id in g.edges && there in g.edges[id].labels && back in g.edges[id].labels
          && !SameName(there, back);
      TwoLabelsBreakSplit(g, id, there, back);
    }
  }
}
