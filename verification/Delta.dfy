/** Following inserts: the delta that a scan of new rows lays over a built snapshot. */
module Delta {
  import opened Csr
  import opened Labels
  import opened Ordinals
  import opened Sequences
  import opened Traversal
  import opened Watermarks

  // ----- rows -----

  datatype Field<T> = Null | Value(value: T)

  datatype VertexContents = VertexContents(id: Field<nat>, labels: seq<string>)

  datatype EdgeContents = EdgeContents(id: Field<nat>, source: Field<nat>, target: Field<nat>, name: Field<string>)
  {
    /** The name under which snapshots number the label. */
    function Label(): string
    {
      if name.Value? then Lower(name.value) else ""
    }
  }

  type VertexRow = Row<VertexContents>
  type EdgeRow = Row<EdgeContents>

  // ----- what a snapshot and its delta hold -----

  /** New vertices take ordinals past the base's own. */
  datatype DeltaRows = DeltaRows(vertexIds: seq<nat>, ordinalById: map<nat, nat>,
                                 outgoing: map<nat, seq<Edge>>, incoming: map<nat, seq<Edge>>,
                                 edgeCount: nat, vertexWatermark: nat, edgeWatermark: nat)

  /** `edgeLabels` are the labels that some base edge has, `vertexLabels` those that some base vertex has. */
  datatype Base = Base(index: Index, outgoing: Adjacency, incoming: Adjacency, edgeCount: nat,
                       edgeLabels: map<string, nat>, vertexLabels: set<string>, edgeIdsMatchRowIds: bool)
  {
    ghost predicate Valid()
    {
      Injective(edgeLabels) && index.Valid() && outgoing.Valid(|index.ids|) && incoming.Valid(|index.ids|)
    }
  }

  function Ids(base: Base, delta: DeltaRows): seq<nat>
  {
    base.index.ids + delta.vertexIds
  }

  function Side(base: Base, delta: DeltaRows, outgoing: bool): View
  {
    if outgoing then View(base.outgoing, |base.index.ids|, delta.outgoing)
    else View(base.incoming, |base.index.ids|, delta.incoming)
  }

  /** One end of an edge as the other end sees it, by external ids and label name. */
  datatype Incidence = Incidence(neighbor: nat, edgeId: nat, name: Field<string>)

  ghost predicate IsNamed(labels: map<string, nat>, e: EdgeContents)
  {
    e.id.Value? && e.source.Value? && e.target.Value? && e.name.Value? && e.Label() in labels
  }

  ghost predicate IsUsable(labels: map<string, nat>, ids: seq<nat>, e: EdgeContents)
  {
    IsNamed(labels, e) && e.source.value in ids && e.target.value in ids
  }

  ghost function Near(e: EdgeContents, outgoing: bool): Field<nat>
  {
    if outgoing then e.source else e.target
  }

  ghost function IncidenceOf(labels: map<string, nat>, e: EdgeContents, outgoing: bool): Incidence
    requires IsNamed(labels, e)
  {
    Incidence(if outgoing then e.target.value else e.source.value, e.id.value, Value(e.Label()))
  }

  /** No two labels share a number. */
  ghost predicate Injective(labels: map<string, nat>)
  {
    forall a, b :: a in labels && b in labels && labels[a] == labels[b] ==> a == b
  }

  ghost predicate IsNameOf(labels: map<string, nat>, name: string, id: nat)
  {
    name in labels && labels[name] == id
  }

  ghost function NameOf(labels: map<string, nat>, id: nat): (f: Field<string>)
    ensures f.Value? ==> IsNameOf(labels, f.value, id)
  {
    if exists name :: IsNameOf(labels, name, id) then var name :| IsNameOf(labels, name, id); Value(name) else Null
  }

  lemma NameIsUnique(labels: map<string, nat>, name: string)
    requires Injective(labels) && name in labels
    ensures NameOf(labels, labels[name]) == Value(name)
  {
    assert IsNameOf(labels, name, labels[name]);
  }

  /** The edges that leave or enter a vertex, according to the rows of the edge table. */
  ghost function Incident(labels: map<string, nat>, ids: seq<nat>, rows: seq<EdgeRow>, id: nat,
                          outgoing: bool): multiset<Incidence>
  {
    if |rows| == 0 then multiset{}
    else
      var e := rows[|rows| - 1].contents;
      var before := Incident(labels, ids, rows[..|rows| - 1], id, outgoing);
      if IsUsable(labels, ids, e) && Near(e, outgoing) == Value(id)
          then before + multiset{IncidenceOf(labels, e, outgoing)} else before
  }

  /** The edges that a traversal meets at a vertex, by external ids. */
  ghost function Met(labels: map<string, nat>, ids: seq<nat>, row: seq<Edge>): multiset<Incidence>
  {
    if |row| == 0 then multiset{}
    else
      var e := row[|row| - 1];
      var before := Met(labels, ids, row[..|row| - 1]);
      if e.neighbor < |ids| then before + multiset{Incidence(ids[e.neighbor], e.edgeId, NameOf(labels, e.edgeLabel))}
          else before
  }

  ghost predicate RowInside(ids: seq<nat>, o: nat, row: seq<Edge>)
  {
    (o >= |ids| ==> row == []) && forall i :: 0 <= i < |row| ==> row[i].neighbor < |ids|
  }

  ghost predicate StaysInside(ids: seq<nat>, met: Rows)
  {
    forall o: nat :: RowInside(ids, o, met(o))
  }

  ghost predicate ShowsRows(labels: map<string, nat>, ids: seq<nat>, met: Rows, rows: seq<EdgeRow>, outgoing: bool)
  {
    && StaysInside(ids, met)
    && forall o: nat :: o < |ids| ==> Met(labels, ids, met(o)) == Incident(labels, ids, rows, ids[o], outgoing)
  }

  ghost predicate ShowsEdges(labels: map<string, nat>, ids: seq<nat>, view: View, rows: seq<EdgeRow>, outgoing: bool)
  {
    view.Valid() && ShowsRows(labels, ids, AllRows(view), rows, outgoing)
  }

  ghost predicate IndexesDelta(base: Base, delta: DeltaRows)
  {
    forall id: nat :: (id in delta.ordinalById <==> id in delta.vertexIds)
                      && (id in delta.ordinalById ==>
                            |base.index.ids| <= delta.ordinalById[id] < |Ids(base, delta)|
                            && Ids(base, delta)[delta.ordinalById[id]] == id)
  }

  ghost predicate HoldsVertices(ids: seq<nat>, rows: seq<VertexRow>)
  {
    && |ids| == |rows| && Distinct(ids)
    && (forall i :: 0 <= i < |rows| ==> rows[i].contents.id.Value? && rows[i].contents.id.value in ids)
    && (forall id :: id in ids ==> exists i :: 0 <= i < |rows| && rows[i].contents.id == Value(id))
  }

  ghost predicate HoldsEdges(base: Base, delta: DeltaRows, rows: seq<EdgeRow>)
  {
    && base.edgeCount + delta.edgeCount == |rows|
    && AllUsable(base.edgeLabels, Ids(base, delta), rows)
    && ShowsEdges(base.edgeLabels, Ids(base, delta), Side(base, delta, true), rows, true)
    && ShowsEdges(base.edgeLabels, Ids(base, delta), Side(base, delta, false), rows, false)
  }

  /** The key of every edge row is one more than its row id. */
  ghost predicate IdsMatchRowIds(rows: seq<EdgeRow>)
  {
    forall i :: 0 <= i < |rows| ==> rows[i].contents.id == Value(rows[i].rowId + 1)
  }

  /** Every label of these vertices is one that the base counts as populated. */
  ghost predicate LabelsPopulated(vertexLabels: set<string>, rows: seq<VertexRow>)
  {
    forall i :: 0 <= i < |rows| ==> RowIsPopulated(vertexLabels, rows[i])
  }

  ghost predicate RowIsPopulated(vertexLabels: set<string>, r: VertexRow)
  {
    forall l :: l in r.contents.labels ==> LabelFits(vertexLabels, l)
  }

  /** An empty label counts for nothing; another one is populated under its small form. */
  ghost predicate LabelFits(vertexLabels: set<string>, l: string)
  {
    l == "" || exists p :: p in vertexLabels && HasNoCapital(p) && SameName(l, p)
  }

  /** Base and delta together are these rows of the two tables, and what the base says of labels and row
      ids holds of all of them. */
  ghost predicate Represents(base: Base, delta: DeltaRows, vertices: seq<VertexRow>, edges: seq<EdgeRow>)
  {
    && base.Valid() && IndexesDelta(base, delta)
    && HoldsVertices(Ids(base, delta), vertices) && HoldsEdges(base, delta, edges)
    && LabelsPopulated(base.vertexLabels, vertices) && (base.edgeIdsMatchRowIds ==> IdsMatchRowIds(edges))
  }

  method TryGetOrdinal(base: Base, delta: DeltaRows, id: nat) returns (found: bool, ordinal: nat)
    requires base.Valid() && IndexesDelta(base, delta)
    ensures found <==> id in Ids(base, delta)
    ensures found ==> ordinal < |Ids(base, delta)| && Ids(base, delta)[ordinal] == id
  {
    found, ordinal := TryGetCsrOrdinal(base.index, id);
    if found {
      return;
    }
    if id !in delta.ordinalById {
      return false, 0;
    }
    return true, delta.ordinalById[id];
  }

  // ----- one more vertex -----

  lemma {:induction false} MetWithMoreIds(labels: map<string, nat>, ids: seq<nat>, id: nat, row: seq<Edge>)
    requires forall i :: 0 <= i < |row| ==> row[i].neighbor < |ids|
    ensures Met(labels, ids + [id], row) == Met(labels, ids, row)
    decreases |row|
  {
    if |row| > 0 {
      MetWithMoreIds(labels, ids, id, row[..|row| - 1]);
    }
  }

  ghost predicate AllUsable(labels: map<string, nat>, ids: seq<nat>, rows: seq<EdgeRow>)
  {
    forall i :: 0 <= i < |rows| ==> IsUsable(labels, ids, rows[i].contents)
  }

  lemma {:induction false} IncidentWithMoreIds(labels: map<string, nat>, ids: seq<nat>, id: nat, rows: seq<EdgeRow>,
                                               x: nat, outgoing: bool)
    requires AllUsable(labels, ids, rows)
    ensures Incident(labels, ids + [id], rows, x, outgoing) == Incident(labels, ids, rows, x, outgoing)
    ensures x !in ids ==> Incident(labels, ids, rows, x, outgoing) == multiset{}
    decreases |rows|
  {
    if |rows| > 0 {
      IncidentWithMoreIds(labels, ids, id, rows[..|rows| - 1], x, outgoing);
      assert IsUsable(labels, ids, rows[|rows| - 1].contents);
    }
  }

  lemma VertexShows(labels: map<string, nat>, ids: seq<nat>, id: nat, met: Rows, rows: seq<EdgeRow>, outgoing: bool)
    requires ShowsRows(labels, ids, met, rows, outgoing) && AllUsable(labels, ids, rows) && id !in ids
    ensures ShowsRows(labels, ids + [id], met, rows, outgoing)
  {
    var longer := ids + [id];
    forall o: nat
      ensures RowInside(longer, o, met(o))
    {
      assert RowInside(ids, o, met(o));
    }
    forall o: nat | o < |longer|
      ensures Met(labels, longer, met(o)) == Incident(labels, longer, rows, longer[o], outgoing)
    {
      IncidentWithMoreIds(labels, ids, id, rows, longer[o], outgoing);
      assert RowInside(ids, o, met(o));
      MetWithMoreIds(labels, ids, id, met(o));
    }
  }

  // ----- one more edge -----

  /** Only one row has grown, by one edge. */
  ghost predicate GrowsAt(before: Rows, after: Rows, o: nat, e: Edge)
  {
    after(o) == before(o) + [e] && forall v: nat :: v != o ==> after(v) == before(v)
  }

  lemma GrownMeets(labels: map<string, nat>, ids: seq<nat>, before: Rows, after: Rows, near: nat, far: nat,
                   rows: seq<EdgeRow>, r: EdgeRow,
                   outgoing: bool, o: nat)
    requires Injective(labels) && Distinct(ids) && o < |ids| && near < |ids| && far < |ids|
      && IsUsable(labels, ids, r.contents)
    requires Met(labels, ids, before(o)) == Incident(labels, ids, rows, ids[o], outgoing)
    requires Near(r.contents, outgoing) == Value(ids[near]) && Near(r.contents, !outgoing) == Value(ids[far])
    requires GrowsAt(before, after, near, Edge(far, r.contents.id.value, labels[r.contents.Label()]))
    ensures Met(labels, ids, after(o)) == Incident(labels, ids, rows + [r], ids[o], outgoing)
  {
    var e := Edge(far, r.contents.id.value, labels[r.contents.Label()]);
    assert (rows + [r])[..|rows|] == rows;
    if o == near {
      assert (before(o) + [e])[..|before(o)|] == before(o);
      NameIsUnique(labels, r.contents.Label());
    } else {
      assert ids[o] != ids[near];
    }
  }

  lemma EdgeShows(labels: map<string, nat>, ids: seq<nat>, before: Rows, after: Rows, near: nat, far: nat,
                  rows: seq<EdgeRow>, r: EdgeRow,
                  outgoing: bool)
    requires Injective(labels) && Distinct(ids) && ShowsRows(labels, ids, before, rows, outgoing) && near < |ids|
      && far < |ids|
    requires IsUsable(labels, ids, r.contents)
    requires Near(r.contents, outgoing) == Value(ids[near]) && Near(r.contents, !outgoing) == Value(ids[far])
    requires GrowsAt(before, after, near, Edge(far, r.contents.id.value, labels[r.contents.Label()]))
    ensures ShowsRows(labels, ids, after, rows + [r], outgoing)
  {
    var e := Edge(far, r.contents.id.value, labels[r.contents.Label()]);
    assert (rows + [r])[..|rows|] == rows;
    forall o: nat | o < |ids|
      ensures Met(labels, ids, after(o)) == Incident(labels, ids, rows + [r], ids[o], outgoing)
    {
      GrownMeets(labels, ids, before, after, near, far, rows, r, outgoing, o);
    }
    GrownStaysInside(ids, before, after, near, e);
  }

  lemma GrownStaysInside(ids: seq<nat>, before: Rows, after: Rows, near: nat, e: Edge)
    requires StaysInside(ids, before) && GrowsAt(before, after, near, e) && near < |ids| && e.neighbor < |ids|
    ensures StaysInside(ids, after)
  {
    forall o: nat
      ensures RowInside(ids, o, after(o))
    {
      assert RowInside(ids, o, before(o));
    }
  }

  function WithEdge(edges: map<nat, seq<Edge>>, o: nat, e: Edge): map<nat, seq<Edge>>
  {
    edges[o := (if o in edges then edges[o] else []) + [e]]
  }

  lemma DeltaRowGrows(base: Adjacency, count: nat, edges: map<nat, seq<Edge>>, more: map<nat, seq<Edge>>, v: nat,
                      extra: seq<Edge>)
    requires base.Valid(count) && View(base, count, more).DeltaRow(v) == View(base, count, edges).DeltaRow(v) + extra
    ensures View(base, count, more).Row(v) == View(base, count, edges).Row(v) + extra
  {
    var r, s := View(base, count, more).Row(v), View(base, count, edges).Row(v);
    var width := View(base, count, edges).BaseEnd(v) - View(base, count, edges).BaseStart(v);
    forall i | 0 <= i < |r|
      ensures r[i] == (s + extra)[i]
    {
      if i < width {
        assert r[i] == View(base, count, edges).BaseEdge(View(base, count, edges).BaseStart(v) + i) == s[i];
      }
    }
  }

  lemma WithEdgeGrows(base: Adjacency, count: nat, edges: map<nat, seq<Edge>>, o: nat, e: Edge)
    requires base.Valid(count)
    ensures GrowsAt(AllRows(View(base, count, edges)), AllRows(View(base, count, WithEdge(edges, o, e))), o, e)
  {
    forall v: nat
      ensures View(base, count, WithEdge(edges, o, e)).Row(v) == View(base, count, edges).Row(v)
        + (if v == o then [e] else [])
    {
      DeltaRowGrows(base, count, edges, WithEdge(edges, o, e), v, if v == o then [e] else []);
    }
  }

  // ----- rows that extend a delta -----

  function WithVertex(base: Base, delta: DeltaRows, id: nat, rowId: nat): DeltaRows
  {
    delta.(vertexIds := delta.vertexIds + [id], ordinalById := delta.ordinalById[id := |Ids(base, delta)|],
           vertexWatermark := rowId + 1)
  }

  function WithEdgeBetween(base: Base, delta: DeltaRows, source: nat, target: nat, id: nat, edgeLabel: nat,
                           rowId: nat): DeltaRows
  {
    delta.(outgoing := WithEdge(delta.outgoing, source, Edge(target, id, edgeLabel)),
           incoming := WithEdge(delta.incoming, target, Edge(source, id, edgeLabel)),
           edgeCount := delta.edgeCount + 1, edgeWatermark := rowId + 1)
  }

  lemma VertexIsHeld(ids: seq<nat>, rows: seq<VertexRow>, r: VertexRow)
    requires HoldsVertices(ids, rows) && r.contents.id.Value? && r.contents.id.value !in ids
    ensures HoldsVertices(ids + [r.contents.id.value], rows + [r])
  {
    var id := r.contents.id.value;
    forall x | x in ids + [id]
      ensures exists i :: 0 <= i < |rows + [r]| && (rows + [r])[i].contents.id == Value(x)
    {
      if x == id {
        assert (rows + [r])[|rows|].contents.id == Value(x);
      } else {
        var i :| 0 <= i < |rows| && rows[i].contents.id == Value(x);
        assert (rows + [r])[i].contents.id == Value(x);
      }
    }
  }

  lemma VertexIsIndexed(base: Base, delta: DeltaRows, id: nat, rowId: nat)
    requires IndexesDelta(base, delta) && id !in Ids(base, delta)
    ensures IndexesDelta(base, WithVertex(base, delta, id, rowId))
  {
  }

  lemma StillUsable(labels: map<string, nat>, ids: seq<nat>, id: nat, rows: seq<EdgeRow>)
    requires AllUsable(labels, ids, rows)
    ensures AllUsable(labels, ids + [id], rows)
  {
    forall i | 0 <= i < |rows|
      ensures IsUsable(labels, ids + [id], rows[i].contents)
    {
      assert IsUsable(labels, ids, rows[i].contents);
    }
  }

  lemma VertexKeepsEdges(base: Base, delta: DeltaRows, edges: seq<EdgeRow>, id: nat, rowId: nat)
    requires HoldsEdges(base, delta, edges) && id !in Ids(base, delta)
    ensures HoldsEdges(base, WithVertex(base, delta, id, rowId), edges)
  {
    hide ShowsRows, AllRows, AllUsable;
    var ids, after := Ids(base, delta), WithVertex(base, delta, id, rowId);
    assert Ids(base, after) == ids + [id];
    StillUsable(base.edgeLabels, ids, id, edges);
    VertexShows(base.edgeLabels, ids, id, AllRows(Side(base, delta, true)), edges, true);
    VertexShows(base.edgeLabels, ids, id, AllRows(Side(base, delta, false)), edges, false);
  }

  lemma VertexExtends(base: Base, delta: DeltaRows, vertices: seq<VertexRow>, edges: seq<EdgeRow>, r: VertexRow)
    requires Represents(base, delta, vertices, edges) && r.contents.id.Value?
      && r.contents.id.value !in Ids(base, delta) && RowIsPopulated(base.vertexLabels, r)
    ensures Represents(base, WithVertex(base, delta, r.contents.id.value, r.rowId), vertices + [r], edges)
  {
    hide HoldsVertices, HoldsEdges, IndexesDelta;
    var id := r.contents.id.value;
    assert Ids(base, WithVertex(base, delta, id, r.rowId)) == Ids(base, delta) + [id];
    VertexIsHeld(Ids(base, delta), vertices, r);
    VertexIsIndexed(base, delta, id, r.rowId);
    VertexKeepsEdges(base, delta, edges, id, r.rowId);
  }

  lemma EdgeKeepsSide(base: Base, delta: DeltaRows, edges: seq<EdgeRow>, r: EdgeRow, source: nat, target: nat,
                      outgoing: bool)
    requires base.Valid() && Distinct(Ids(base, delta)) && IsUsable(base.edgeLabels, Ids(base, delta), r.contents)
    requires ShowsEdges(base.edgeLabels, Ids(base, delta), Side(base, delta, outgoing), edges, outgoing)
    requires source < |Ids(base, delta)| && target < |Ids(base, delta)|
    requires Ids(base, delta)[source] == r.contents.source.value && Ids(base, delta)[target] == r.contents.target.value
    ensures var after :=
      WithEdgeBetween(base, delta, source, target, r.contents.id.value, base.edgeLabels[r.contents.Label()],
                      r.rowId);
      ShowsEdges(base.edgeLabels, Ids(base, delta), Side(base, after, outgoing), edges + [r], outgoing)
  {
    hide ShowsRows, AllRows, WithEdge, GrowsAt;
    var ids, edgeLabel := Ids(base, delta), base.edgeLabels[r.contents.Label()];
    var after := WithEdgeBetween(base, delta, source, target, r.contents.id.value, edgeLabel, r.rowId);
    var near, far := if outgoing then source else target, if outgoing then target else source;
    WithEdgeGrows(if outgoing then base.outgoing else base.incoming, |base.index.ids|, if outgoing then delta.outgoing
                  else delta.incoming,
                  near, Edge(far, r.contents.id.value, edgeLabel));
    EdgeShows(base.edgeLabels, ids, AllRows(Side(base, delta, outgoing)), AllRows(Side(base, after, outgoing)), near,
              far, edges, r, outgoing);
  }

  lemma EdgeKeepsEdges(base: Base, delta: DeltaRows, edges: seq<EdgeRow>, r: EdgeRow, source: nat, target: nat)
    requires base.Valid() && HoldsEdges(base, delta, edges) && Distinct(Ids(base, delta))
    requires IsUsable(base.edgeLabels, Ids(base, delta), r.contents)
    requires source < |Ids(base, delta)| && target < |Ids(base, delta)|
    requires Ids(base, delta)[source] == r.contents.source.value && Ids(base, delta)[target] == r.contents.target.value
    ensures var after :=
      WithEdgeBetween(base, delta, source, target, r.contents.id.value, base.edgeLabels[r.contents.Label()],
                      r.rowId);
      HoldsEdges(base, after, edges + [r])
  {
    hide ShowsEdges, WithEdge;
    EdgeKeepsSide(base, delta, edges, r, source, target, true);
    EdgeKeepsSide(base, delta, edges, r, source, target, false);
  }

  lemma EdgeKeepsIndex(base: Base, delta: DeltaRows, source: nat, target: nat, id: nat, edgeLabel: nat, rowId: nat)
    requires IndexesDelta(base, delta)
    ensures IndexesDelta(base, WithEdgeBetween(base, delta, source, target, id, edgeLabel, rowId))
  {
  }

  /** What a represented pair of tables says of ids, and what it still says with one more row. */
  lemma RepresentedIds(base: Base, delta: DeltaRows, vertices: seq<VertexRow>, edges: seq<EdgeRow>, r: EdgeRow)
    requires Represents(base, delta, vertices, edges)
    ensures Distinct(Ids(base, delta))
    ensures base.edgeIdsMatchRowIds && r.contents.id == Value(r.rowId + 1) ==> IdsMatchRowIds(edges + [r])
  {
    hide HoldsEdges, IndexesDelta;
  }

  lemma EdgeExtends(base: Base, delta: DeltaRows, vertices: seq<VertexRow>, edges: seq<EdgeRow>, r: EdgeRow,
                    source: nat, target: nat)
    requires Represents(base, delta, vertices, edges) && IsUsable(base.edgeLabels, Ids(base, delta), r.contents)
    requires source < |Ids(base, delta)| && target < |Ids(base, delta)|
    requires Ids(base, delta)[source] == r.contents.source.value && Ids(base, delta)[target] == r.contents.target.value
    requires base.edgeIdsMatchRowIds ==> r.contents.id.value == r.rowId + 1
    ensures var after :=
      WithEdgeBetween(base, delta, source, target, r.contents.id.value, base.edgeLabels[r.contents.Label()],
                      r.rowId);
      Represents(base, after, vertices, edges + [r])
  {
    hide HoldsVertices, HoldsEdges, IndexesDelta, Distinct, IdsMatchRowIds, WithEdge;
    RepresentedIds(base, delta, vertices, edges, r);
    EdgeKeepsEdges(base, delta, edges, r, source, target);
    EdgeKeepsIndex(base, delta, source, target, r.contents.id.value, base.edgeLabels[r.contents.Label()], r.rowId);
  }

  /** A new vertex row that a delta can hold: a new key, and labels that are populated. */
  ghost predicate VertexFits(base: Base, ids: seq<nat>, r: VertexRow)
  {
    r.contents.id.Value? && r.contents.id.value !in ids && RowIsPopulated(base.vertexLabels, r)
  }

  predicate VertexLabelsFit(base: Base, r: VertexRow)
  {
    forall i :: 0 <= i < |r.contents.labels| ==>
      r.contents.labels[i] == "" || Lower(r.contents.labels[i]) in base.vertexLabels
  }

  lemma LabelsFitIffPopulated(base: Base, r: VertexRow)
    ensures VertexLabelsFit(base, r) <==> RowIsPopulated(base.vertexLabels, r)
  {
    forall i: nat | i < |r.contents.labels|
      ensures LabelFits(base.vertexLabels, r.contents.labels[i]) <==>
        r.contents.labels[i] == "" || Lower(r.contents.labels[i]) in base.vertexLabels
    {
      LabelFitsIff(base.vertexLabels, r.contents.labels[i]);
    }
    if VertexLabelsFit(base, r) {
      forall l | l in r.contents.labels
        ensures LabelFits(base.vertexLabels, l)
      {
        var i: nat :| i < |r.contents.labels| && r.contents.labels[i] == l;
      }
    }
    if RowIsPopulated(base.vertexLabels, r) {
      forall i: nat | i < |r.contents.labels|
        ensures r.contents.labels[i] == "" || Lower(r.contents.labels[i]) in base.vertexLabels
      {
        assert r.contents.labels[i] in r.contents.labels;
      }
    }
  }

  lemma LabelFitsIff(vertexLabels: set<string>, l: string)
    ensures LabelFits(vertexLabels, l) <==> l == "" || Lower(l) in vertexLabels
  {
    LowerIsTheSmallName(l, Lower(l));
    if p :| p in vertexLabels && HasNoCapital(p) && SameName(l, p) {
      LowerIsTheSmallName(l, p);
    }
  }

  function IdsWith(ids: seq<nat>, rows: seq<VertexRow>): seq<nat>
  {
    if |rows| == 0 then ids
    else
      var before := IdsWith(ids, rows[..|rows| - 1]);
      if rows[|rows| - 1].contents.id.Value? then before + [rows[|rows| - 1].contents.id.value] else before
  }

  ghost predicate VerticesFit(base: Base, ids: seq<nat>, rows: seq<VertexRow>)
  {
    forall i :: 0 <= i < |rows| ==> VertexFits(base, IdsWith(ids, rows[..i]), rows[i])
  }

  ghost predicate EdgeFits(base: Base, ids: seq<nat>, r: EdgeRow)
  {
    && IsUsable(base.edgeLabels, ids, r.contents)
    && (base.edgeIdsMatchRowIds ==> r.contents.id.value == r.rowId + 1)
  }

  ghost predicate EdgesFit(base: Base, ids: seq<nat>, rows: seq<EdgeRow>)
  {
    forall i :: 0 <= i < |rows| ==> EdgeFits(base, ids, rows[i])
  }

  /** The place after the last row read. */
  function Mark<T>(watermark: nat, rows: seq<Row<T>>): nat
  {
    if |rows| == 0 then watermark else rows[|rows| - 1].rowId + 1
  }

  method AddVertices(base: Base, delta: DeltaRows, rows: seq<VertexRow>, ghost vertices: seq<VertexRow>,
                     ghost edges: seq<EdgeRow>)
    returns (fits: bool, after: DeltaRows)
    requires Represents(base, delta, vertices, edges)
    ensures fits <==> VerticesFit(base, Ids(base, delta), rows)
    ensures fits ==>
      Represents(base, after, vertices + rows, edges) && Ids(base, after) == IdsWith(Ids(base, delta), rows)
    ensures fits ==>
      after.vertexWatermark == Mark(delta.vertexWatermark, rows) && after.edgeWatermark == delta.edgeWatermark
  {
    hide Represents, RowIsPopulated, VertexLabelsFit;
    after := delta;
    var row: nat := 0;
    assert vertices + rows[..0] == vertices;
    while row < |rows|
      invariant row <= |rows| && VerticesFit(base, Ids(base, delta), rows[..row])
      invariant Represents(base, after, vertices + rows[..row], edges)
        && Ids(base, after) == IdsWith(Ids(base, delta), rows[..row])
      invariant after.vertexWatermark == Mark(delta.vertexWatermark, rows[..row])
        && after.edgeWatermark == delta.edgeWatermark
    {
      var r := rows[row];
      VerticesFitNext(base, Ids(base, delta), rows, row);
      LabelsFitIffPopulated(base, r);
      var known := KnowsVertex(base, after, r, vertices + rows[..row], edges);
      if known || !VertexLabelsFit(base, r) {
        assert !VertexFits(base, IdsWith(Ids(base, delta), rows[..row]), rows[row]);
        return false, delta;
      }
      VertexExtends(base, after, vertices + rows[..row], edges, r);
      assert vertices + rows[..row + 1] == (vertices + rows[..row]) + [r];
      after := WithVertex(base, after, r.contents.id.value, r.rowId);
      row := row + 1;
    }
    assert rows[..row] == rows;
    fits := true;
  }

  method KnowsVertex(base: Base, delta: DeltaRows, r: VertexRow, ghost vertices: seq<VertexRow>,
                     ghost edges: seq<EdgeRow>)
    returns (known: bool)
    requires Represents(base, delta, vertices, edges)
    ensures known <==> r.contents.id.Null? || r.contents.id.value in Ids(base, delta)
  {
    if r.contents.id.Null? {
      return true;
    }
    var ordinal;
    known, ordinal := TryGetOrdinal(base, delta, r.contents.id.value);
  }

  lemma VerticesFitNext(base: Base, ids: seq<nat>, rows: seq<VertexRow>, row: nat)
    requires row < |rows| && VerticesFit(base, ids, rows[..row])
    ensures VerticesFit(base, ids, rows[..row + 1]) <==> VertexFits(base, IdsWith(ids, rows[..row]), rows[row])
    ensures rows[row].contents.id.Value? ==>
      IdsWith(ids, rows[..row + 1]) == IdsWith(ids, rows[..row]) + [rows[row].contents.id.value]
  {
    var longer := rows[..row + 1];
    assert longer[..row] == rows[..row];
    forall i | 0 <= i < row
      ensures VertexFits(base, IdsWith(ids, longer[..i]), longer[i])
    {
      assert longer[..i] == rows[..row][..i];
    }
  }

  method AddEdges(base: Base, delta: DeltaRows, rows: seq<EdgeRow>, ghost vertices: seq<VertexRow>,
                  ghost edges: seq<EdgeRow>)
    returns (fits: bool, after: DeltaRows)
    requires Represents(base, delta, vertices, edges)
    ensures fits <==> EdgesFit(base, Ids(base, delta), rows)
    ensures fits ==> Represents(base, after, vertices, edges + rows) && Ids(base, after) == Ids(base, delta)
    ensures fits ==>
      after.edgeWatermark == Mark(delta.edgeWatermark, rows) && after.vertexWatermark == delta.vertexWatermark
  {
    hide Represents, EdgeFits;
    after := delta;
    var row: nat := 0;
    assert edges + rows[..0] == edges;
    while row < |rows|
      invariant row <= |rows| && EdgesFit(base, Ids(base, delta), rows[..row])
      invariant Represents(base, after, vertices, edges + rows[..row]) && Ids(base, after) == Ids(base, delta)
      invariant after.edgeWatermark == Mark(delta.edgeWatermark, rows[..row])
        && after.vertexWatermark == delta.vertexWatermark
    {
      var r := rows[row];
      assert edges + rows[..row + 1] == (edges + rows[..row]) + [r];
      EdgesFitNext(base, Ids(base, delta), rows, row);
      fits, after := AddEdge(base, after, r, vertices, edges + rows[..row]);
      if !fits {
        return;
      }
      row := row + 1;
    }
    assert rows[..row] == rows;
    fits := true;
  }

  lemma EdgesFitNext(base: Base, ids: seq<nat>, rows: seq<EdgeRow>, row: nat)
    requires row < |rows| && EdgesFit(base, ids, rows[..row])
    ensures EdgesFit(base, ids, rows[..row + 1]) <==> EdgeFits(base, ids, rows[row])
    ensures EdgesFit(base, ids, rows) ==> EdgeFits(base, ids, rows[row])
  {
    var longer := rows[..row + 1];
    forall i | 0 <= i < row
      ensures EdgeFits(base, ids, longer[i])
    {
      assert longer[i] == rows[..row][i];
    }
    assert longer[row] == rows[row];
  }

  method AddEdge(base: Base, delta: DeltaRows, r: EdgeRow, ghost vertices: seq<VertexRow>, ghost edges: seq<EdgeRow>)
    returns (fits: bool, after: DeltaRows)
    requires Represents(base, delta, vertices, edges)
    ensures fits <==> EdgeFits(base, Ids(base, delta), r)
    ensures fits ==> Represents(base, after, vertices, edges + [r]) && Ids(base, after) == Ids(base, delta)
    ensures fits ==> after.edgeWatermark == r.rowId + 1 && after.vertexWatermark == delta.vertexWatermark
  {
    hide HoldsVertices, HoldsEdges;
    var e := r.contents;
    if e.id.Null? || e.source.Null? || e.target.Null? || e.name.Null? {
      return false, delta;
    }
    if base.edgeIdsMatchRowIds && e.id.value != r.rowId + 1 {
      return false, delta;
    }
    if e.Label() !in base.edgeLabels {
      return false, delta;
    }
    var hasSource, source := TryGetOrdinal(base, delta, e.source.value);
    var hasTarget, target := TryGetOrdinal(base, delta, e.target.value);
    if !hasSource || !hasTarget {
      return false, delta;
    }
    EdgeExtends(base, delta, vertices, edges, r, source, target);
    after := WithEdgeBetween(base, delta, source, target, e.id.value, base.edgeLabels[e.Label()], r.rowId);
    fits := true;
  }

  // ----- the scan -----

  ghost predicate Lists<T(!new)>(rows: seq<Row<T>>, all: set<Row<T>>)
  {
    Distinct(rows) && Elements(rows) == all
  }

  /** What the queries of one table return: the row count, and the rows from a row id on in order. */
  ghost predicate ReadsTable<T(!new)>(total: nat, rows: seq<Row<T>>, watermark: nat, committed: set<Row<T>>)
  {
    && total == |committed| && Distinct(rows)
    && (forall r :: r in rows <==> r in committed && r.rowId >= watermark)
    && (forall i, j :: 0 <= i < j < |rows| ==> rows[i].rowId <= rows[j].rowId)
  }

  /** The rows that a scan takes over: none are read when the counts agree. */
  function NewRows<T>(total: nat, known: nat, rows: seq<Row<T>>): seq<Row<T>>
  {
    if total > known then rows else []
  }

  /** A thousandth of the edges, in units of 1024, and 4096 rows at least. */
  function DeltaRowLimit(edgeCount: nat): (limit: nat)
    ensures limit >= 4096 && 1024 * (limit + 1) > edgeCount
    ensures limit > 4096 ==> 1024 * limit <= edgeCount
  {
    if edgeCount / 1024 > 4096 then edgeCount / 1024 else 4096
  }

  lemma ScanCounts<T(!new)>(known: seq<Row<T>>, total: nat, rows: seq<Row<T>>, watermark: nat, committed: set<Row<T>>)
    requires Distinct(known) && ReadsTable(total, rows, watermark, committed) && total >= |known|
    ensures ScanTable(Elements(known), watermark, committed).Inserted? <==>
      |known| + |NewRows(total, |known|, rows)| == total
    ensures ScanTable(Elements(known), watermark, committed).Inserted? ==>
              ScanTable(Elements(known), watermark, committed).rows == Elements(NewRows(total, |known|, rows))
  {
    DistinctCardinality(known);
    DistinctCardinality(NewRows(total, |known|, rows));
    var added: set<Row<T>> := if |committed| > |Elements(known)| then set r | r in committed && r.rowId >= watermark
        else {};
    assert added == Elements(NewRows(total, |known|, rows));
  }

  lemma ScanMarks<T(!new)>(known: nat, total: nat, rows: seq<Row<T>>, watermark: nat, committed: set<Row<T>>)
    requires ReadsTable(total, rows, watermark, committed)
    ensures NextWatermark(watermark, Elements(NewRows(total, known, rows)),
                          Mark(watermark, NewRows(total, known, rows)))
  {
    var added := NewRows(total, known, rows);
    if |added| > 0 {
      assert added[|added| - 1] in Elements(added);
      forall r | r in Elements(added)
        ensures r.rowId < Mark(watermark, added)
      {
        var i :| 0 <= i < |added| && added[i] == r;
      }
    }
  }

  lemma ListsMore<T(!new)>(known: seq<Row<T>>, added: seq<Row<T>>, watermark: nat)
    requires Distinct(known) && Distinct(added) && Below(Elements(known), watermark)
    requires forall r :: r in added ==> r.rowId >= watermark
    ensures Lists(known + added, Elements(known) + Elements(added))
  {
    forall i, j | 0 <= i < j < |known + added|
      ensures (known + added)[i] != (known + added)[j]
    {
      if i < |known| <= j {
        assert known[i] in Elements(known) && added[j - |known|] in added;
      }
    }
  }

  /** When a scan is accepted. */
  ghost predicate Accepts(base: Base, previous: DeltaRows, sameTables: bool, vertexTotal: nat, edgeTotal: nat,
                          newVertices: seq<VertexRow>, newEdges: seq<EdgeRow>)
  {
    var ids := Ids(base, previous);
    var vertices := NewRows(vertexTotal, |ids|, newVertices);
    var edges := NewRows(edgeTotal, base.edgeCount + previous.edgeCount, newEdges);
    && sameTables && |ids| + |vertices| == vertexTotal && base.edgeCount + previous.edgeCount + |edges| == edgeTotal
    && vertexTotal - |base.index.ids| + edgeTotal - base.edgeCount <= DeltaRowLimit(base.edgeCount)
    && VerticesFit(base, ids, vertices) && EdgesFit(base, IdsWith(ids, vertices), edges)
  }

  /** Reads the rows past the watermarks into a new delta, or asks for a rebuild. */
  method ScanCsrDelta(base: Base, previous: DeltaRows, sameTables: bool, vertexTotal: nat, edgeTotal: nat,
                      newVertices: seq<VertexRow>, newEdges: seq<EdgeRow>, ghost vertices: seq<VertexRow>,
                          ghost edges: seq<EdgeRow>)
    returns (accepted: bool, delta: DeltaRows)
    requires Represents(base, previous, vertices, edges)
    ensures accepted <==> Accepts(base, previous, sameTables, vertexTotal, edgeTotal, newVertices, newEdges)
    ensures accepted ==>
              var addedVertices := NewRows(vertexTotal, |vertices|, newVertices);
              var addedEdges := NewRows(edgeTotal, |edges|, newEdges);
              && Represents(base, delta, vertices + addedVertices, edges + addedEdges)
              && delta.vertexWatermark == Mark(previous.vertexWatermark, addedVertices)
              && delta.edgeWatermark == Mark(previous.edgeWatermark, addedEdges)
  {
    hide VerticesFit, EdgesFit;
    RepresentedCounts(base, previous, vertices, edges);
    hide Represents;
    var knownVertices := |base.index.ids| + |previous.vertexIds|;
    var knownEdges := base.edgeCount + previous.edgeCount;
    if !sameTables || vertexTotal < knownVertices || edgeTotal < knownEdges
       || vertexTotal - |base.index.ids| + edgeTotal - base.edgeCount > DeltaRowLimit(base.edgeCount)
    {
      return false, previous;
    }
    var addedVertices := NewRows(vertexTotal, knownVertices, newVertices);
    var addedEdges := NewRows(edgeTotal, knownEdges, newEdges);
    if knownVertices + |addedVertices| != vertexTotal || knownEdges + |addedEdges| != edgeTotal {
      return false, previous;
    }
    accepted, delta := AddVertices(base, previous, addedVertices, vertices, edges);
    if !accepted {
      return;
    }
    accepted, delta := AddEdges(base, delta, addedEdges, vertices + addedVertices, edges);
  }

  lemma RepresentedCounts(base: Base, delta: DeltaRows, vertices: seq<VertexRow>, edges: seq<EdgeRow>)
    requires Represents(base, delta, vertices, edges)
    ensures |vertices| == |Ids(base, delta)| && |edges| == base.edgeCount + delta.edgeCount
  {
  }

  // ----- what an accepted scan gives -----

  /** An accepted scan passes the count check of both tables, the delta then holds the known rows and
      those past the watermarks, and its new watermarks are where the next scans start. */
  lemma AcceptedScanHolds(base: Base, previous: DeltaRows, sameTables: bool, vertexTotal: nat, edgeTotal: nat,
                          newVertices: seq<VertexRow>, newEdges: seq<EdgeRow>, vertices: seq<VertexRow>,
                              edges: seq<EdgeRow>,
                          committedVertices: set<VertexRow>, committedEdges: set<EdgeRow>)
    requires Represents(base, previous, vertices, edges) && Distinct(vertices) && Distinct(edges)
    requires Below(Elements(vertices), previous.vertexWatermark) && Below(Elements(edges), previous.edgeWatermark)
    requires ReadsTable(vertexTotal, newVertices, previous.vertexWatermark, committedVertices)
    requires ReadsTable(edgeTotal, newEdges, previous.edgeWatermark, committedEdges)
    requires Accepts(base, previous, sameTables, vertexTotal, edgeTotal, newVertices, newEdges)
    ensures var added := NewRows(vertexTotal, |vertices|, newVertices);
      && TableAccepted(Elements(vertices), previous.vertexWatermark, committedVertices,
                       Mark(previous.vertexWatermark, added))
      && Lists(vertices + added,
               Elements(vertices) + ScanTable(Elements(vertices), previous.vertexWatermark, committedVertices).rows)
    ensures var added := NewRows(edgeTotal, |edges|, newEdges);
      && TableAccepted(Elements(edges), previous.edgeWatermark, committedEdges, Mark(previous.edgeWatermark, added))
      && Lists(edges + added, Elements(edges) + ScanTable(Elements(edges), previous.edgeWatermark, committedEdges).rows)
  {
    RepresentedCounts(base, previous, vertices, edges);
    ScanMarks(|vertices|, vertexTotal, newVertices, previous.vertexWatermark, committedVertices);
    ScanMarks(|edges|, edgeTotal, newEdges, previous.edgeWatermark, committedEdges);
    hide Represents, VerticesFit, EdgesFit;
    ScanCounts(vertices, vertexTotal, newVertices, previous.vertexWatermark, committedVertices);
    ScanCounts(edges, edgeTotal, newEdges, previous.edgeWatermark, committedEdges);
    ListsMore(vertices, NewRows(vertexTotal, |vertices|, newVertices), previous.vertexWatermark);
    ListsMore(edges, NewRows(edgeTotal, |edges|, newEdges), previous.edgeWatermark);
  }

  /** If only inserts happened since, in whatever order they committed, an accepted scan holds exactly
      the committed rows of both tables. */
  lemma InsertsAreFollowed(base: Base, previous: DeltaRows, sameTables: bool, vertexTotal: nat, edgeTotal: nat,
                           newVertices: seq<VertexRow>, newEdges: seq<EdgeRow>, vertices: seq<VertexRow>,
                               edges: seq<EdgeRow>,
                           committedVertices: set<VertexRow>, committedEdges: set<EdgeRow>)
    requires Represents(base, previous, vertices, edges) && Distinct(vertices) && Distinct(edges)
    requires Below(Elements(vertices), previous.vertexWatermark) && Below(Elements(edges), previous.edgeWatermark)
    requires ReadsTable(vertexTotal, newVertices, previous.vertexWatermark, committedVertices)
    requires ReadsTable(edgeTotal, newEdges, previous.edgeWatermark, committedEdges)
    requires Accepts(base, previous, sameTables, vertexTotal, edgeTotal, newVertices, newEdges)
    requires Elements(vertices) <= committedVertices && Elements(edges) <= committedEdges
    ensures Lists(vertices + NewRows(vertexTotal, |vertices|, newVertices), committedVertices)
    ensures Lists(edges + NewRows(edgeTotal, |edges|, newEdges), committedEdges)
  {
    hide Represents, Accepts, ReadsTable, Lists, NextWatermark;
    AcceptedScanHolds(base, previous, sameTables, vertexTotal, edgeTotal, newVertices, newEdges, vertices, edges,
                      committedVertices, committedEdges);
    AcceptedScanIsExactIff(Elements(vertices), previous.vertexWatermark, committedVertices);
    AcceptedScanIsExactIff(Elements(edges), previous.edgeWatermark, committedEdges);
  }

  /** A row committed late, below a watermark that a scan has passed, forces a rebuild. */
  lemma LateRowIsRefused(base: Base, previous: DeltaRows, sameTables: bool, vertexTotal: nat, edgeTotal: nat,
                         newVertices: seq<VertexRow>, newEdges: seq<EdgeRow>, vertices: seq<VertexRow>,
                             edges: seq<EdgeRow>,
                         committedVertices: set<VertexRow>, committedEdges: set<EdgeRow>)
    requires Represents(base, previous, vertices, edges) && Distinct(vertices) && Distinct(edges)
    requires Below(Elements(vertices), previous.vertexWatermark) && Below(Elements(edges), previous.edgeWatermark)
    requires ReadsTable(vertexTotal, newVertices, previous.vertexWatermark, committedVertices)
    requires ReadsTable(edgeTotal, newEdges, previous.edgeWatermark, committedEdges)
    requires Elements(vertices) <= committedVertices && Elements(edges) <= committedEdges
    requires (exists r :: r in committedVertices && r !in Elements(vertices) && r.rowId < previous.vertexWatermark)
             || (exists r :: r in committedEdges && r !in Elements(edges) && r.rowId < previous.edgeWatermark)
    ensures !Accepts(base, previous, sameTables, vertexTotal, edgeTotal, newVertices, newEdges)
  {
    if Accepts(base, previous, sameTables, vertexTotal, edgeTotal, newVertices, newEdges) {
      AcceptedScanHolds(base, previous, sameTables, vertexTotal, edgeTotal, newVertices, newEdges, vertices, edges,
                        committedVertices, committedEdges);
      RefusedIffLateRow(Elements(vertices), previous.vertexWatermark, committedVertices);
      RefusedIffLateRow(Elements(edges), previous.edgeWatermark, committedEdges);
      assert false;
    }
  }

  // ----- a delta against a rebuild -----

  ghost predicate IsFull(e: EdgeContents)
  {
    e.id.Value? && e.source.Value? && e.target.Value? && e.name.Value?
  }

  /** What one row of the edge table adds at a vertex. */
  ghost function Contribution(e: EdgeContents, id: nat, outgoing: bool): multiset<Incidence>
  {
    if IsFull(e) && Near(e, outgoing) == Value(id) then
      multiset{Incidence(if outgoing then e.target.value else e.source.value, e.id.value, Value(e.Label()))}
    else multiset{}
  }

  ghost function Contributions(rows: seq<EdgeRow>, id: nat, outgoing: bool): multiset<Incidence>
  {
    if |rows| == 0 then multiset{}
    else Contributions(rows[..|rows| - 1], id, outgoing) + Contribution(rows[|rows| - 1].contents, id, outgoing)
  }

  lemma {:induction false} IncidentIsContributed(labels: map<string, nat>, ids: seq<nat>, rows: seq<EdgeRow>, id: nat,
                                                 outgoing: bool)
    requires AllUsable(labels, ids, rows)
    ensures Incident(labels, ids, rows, id, outgoing) == Contributions(rows, id, outgoing)
    decreases |rows|
  {
    if |rows| > 0 {
      IncidentIsContributed(labels, ids, rows[..|rows| - 1], id, outgoing);
      assert IsUsable(labels, ids, rows[|rows| - 1].contents);
    }
  }

  lemma {:induction false} ContributionsWithout(rows: seq<EdgeRow>, i: nat, id: nat, outgoing: bool)
    requires i < |rows|
    ensures Contributions(rows, id, outgoing) ==
            Contributions(rows[..i] + rows[i + 1..], id, outgoing) + Contribution(rows[i].contents, id, outgoing)
    decreases |rows|
  {
    hide Contribution;
    var rest := rows[..i] + rows[i + 1..];
    var init, last := rows[..|rows| - 1], rows[|rows| - 1].contents;
    if i == |rows| - 1 {
      assert rest == init;
    } else {
      var shorter := init[..i] + init[i + 1..];
      ContributionsWithout(init, i, id, outgoing);
      assert rest == shorter + [rows[|rows| - 1]];
      ContributionsNext(shorter, rows[|rows| - 1], id, outgoing);
    }
  }

  lemma ContributionsNext(rows: seq<EdgeRow>, r: EdgeRow, id: nat, outgoing: bool)
    ensures Contributions(rows + [r], id, outgoing) == Contributions(rows, id, outgoing)
      + Contribution(r.contents, id, outgoing)
  {
    assert (rows + [r])[..|rows|] == rows;
  }

  /** The order of the rows does not matter. */
  lemma {:induction false} ContributionsPermute(a: seq<EdgeRow>, b: seq<EdgeRow>, id: nat, outgoing: bool)
    requires Distinct(a) && Distinct(b) && Elements(a) == Elements(b)
    ensures Contributions(a, id, outgoing) == Contributions(b, id, outgoing)
    decreases |a|
  {
    if |a| == 0 {
      if |b| > 0 {
        SomeElement(b);
      }
    } else {
      var init, last := a[..|a| - 1], a[|a| - 1];
      assert last in Elements(b);
      var i :| 0 <= i < |b| && b[i] == last;
      var rest := b[..i] + b[i + 1..];
      WithoutOne(a, |a| - 1);
      WithoutOne(b, i);
      assert a[..|a| - 1] + a[|a|..] == init;
      ContributionsPermute(init, rest, id, outgoing);
      ContributionsWithout(b, i, id, outgoing);
    }
  }

  lemma SomeElement<T(!new)>(s: seq<T>)
    requires |s| > 0
    ensures Elements(s) != {}
  {
    assert s[0] in Elements(s);
  }

  lemma WithoutOne<T(!new)>(s: seq<T>, i: nat)
    requires Distinct(s) && i < |s|
    ensures Distinct(s[..i] + s[i + 1..]) && Elements(s[..i] + s[i + 1..]) == Elements(s) - {s[i]}
  {
    var rest := s[..i] + s[i + 1..];
    forall x
      ensures x in rest <==> x in s && x != s[i]
    {
      if x in s && x != s[i] {
        var k :| 0 <= k < |s| && s[k] == x;
        assert rest[if k < i then k else k - 1] == x;
      }
      if x in rest {
        var k :| 0 <= k < |rest| && rest[k] == x;
        assert s[if k < i then k else k + 1] == x;
      }
    }
  }

  /** What a search for one label meets, by the label's name: nothing where the name has no number. */
  ghost function MetNamed(labels: map<string, nat>, ids: seq<nat>, row: seq<Edge>, name: string): multiset<Incidence>
  {
    if name in labels then Met(labels, ids, Matching(row, labels[name])) else multiset{}
  }

  lemma MetLast(labels: map<string, nat>, ids: seq<nat>, row: seq<Edge>, e: Edge)
    ensures Met(labels, ids, row + [e]) == Met(labels, ids, row)
      + (if e.neighbor < |ids| then multiset{Incidence(ids[e.neighbor], e.edgeId, NameOf(labels, e.edgeLabel))}
         else multiset{})
  {
    assert (row + [e])[..|row|] == row;
  }

  /** Going by number is going by name. */
  lemma {:induction false} MatchingIsNamed(labels: map<string, nat>, ids: seq<nat>, row: seq<Edge>, name: string,
                                           x: Incidence)
    requires Injective(labels) && name in labels
    ensures Met(labels, ids, Matching(row, labels[name]))[x] == if x.name == Value(name) then Met(labels, ids, row)[x]
      else 0
  {
    if |row| > 0 {
      var init, e := row[..|row| - 1], row[|row| - 1];
      MatchingIsNamed(labels, ids, init, name, x);
      NameIsUnique(labels, name);
      assert row == init + [e];
      MetLast(labels, ids, init, e);
      MetLast(labels, ids, Matching(init, labels[name]), e);
    }
  }

  lemma {:induction false} ContributionsAreNamed(labels: map<string, nat>, ids: seq<nat>, rows: seq<EdgeRow>, id: nat,
                                                 outgoing: bool, x: Incidence)
    requires AllUsable(labels, ids, rows) && x in Contributions(rows, id, outgoing)
    ensures x.name.Value? && x.name.value in labels
    decreases |rows|
  {
    var init, last := rows[..|rows| - 1], rows[|rows| - 1];
    if x in Contributions(init, id, outgoing) {
      ContributionsAreNamed(labels, ids, init, id, outgoing, x);
    }
  }

  lemma MetNamedIsContributed(base: Base, delta: DeltaRows, vertices: seq<VertexRow>, edges: seq<EdgeRow>, o: nat,
                              outgoing: bool,
                              name: string, x: Incidence)
    requires Represents(base, delta, vertices, edges) && o < |Ids(base, delta)|
    ensures Side(base, delta, outgoing).Valid()
    ensures MetNamed(base.edgeLabels, Ids(base, delta), AllRows(Side(base, delta, outgoing))(o), name)[x]
         == if x.name == Value(name) then Contributions(edges, Ids(base, delta)[o], outgoing)[x] else 0
  {
    MetIsContributed(base, delta, vertices, edges, o, outgoing);
    var labels, ids := base.edgeLabels, Ids(base, delta);
    if name in labels {
      MatchingIsNamed(labels, ids, AllRows(Side(base, delta, outgoing))(o), name, x);
    } else if x.name == Value(name) && x in Contributions(edges, ids[o], outgoing) {
      ContributionsAreNamed(labels, ids, edges, ids[o], outgoing, x);
    }
  }

  /** Two snapshots with deltas that represent the same edge rows show a traversal the same edges at
      every vertex, whatever ordinals and label numbers they use, and so does a search for any one label;
      one may be a rebuild with no delta. */
  lemma SameRowsMeetSameEdges(base: Base, delta: DeltaRows, vertices: seq<VertexRow>, edges: seq<EdgeRow>, o: nat,
                              rebuilt: Base, rebuiltDelta: DeltaRows, rebuiltVertices: seq<VertexRow>,
                                  rebuiltEdges: seq<EdgeRow>, p: nat,
                              committed: set<EdgeRow>, outgoing: bool)
    requires Represents(base, delta, vertices, edges)
      && Represents(rebuilt, rebuiltDelta, rebuiltVertices, rebuiltEdges)
    requires Lists(edges, committed) && Lists(rebuiltEdges, committed)
    requires o < |Ids(base, delta)| && p < |Ids(rebuilt, rebuiltDelta)|
      && Ids(base, delta)[o] == Ids(rebuilt, rebuiltDelta)[p]
    ensures Met(base.edgeLabels, Ids(base, delta), AllRows(Side(base, delta, outgoing))(o))
         == Met(rebuilt.edgeLabels, Ids(rebuilt, rebuiltDelta), AllRows(Side(rebuilt, rebuiltDelta, outgoing))(p))
    ensures forall name ::
      MetNamed(base.edgeLabels, Ids(base, delta), AllRows(Side(base, delta, outgoing))(o), name)
        == MetNamed(rebuilt.edgeLabels, Ids(rebuilt, rebuiltDelta), AllRows(Side(rebuilt, rebuiltDelta, outgoing))(p),
                    name)
  {
    var id := Ids(base, delta)[o];
    MetIsContributed(base, delta, vertices, edges, o, outgoing);
    MetIsContributed(rebuilt, rebuiltDelta, rebuiltVertices, rebuiltEdges, p, outgoing);
    ContributionsPermute(edges, rebuiltEdges, id, outgoing);
    forall name
      ensures MetNamed(base.edgeLabels, Ids(base, delta), AllRows(Side(base, delta, outgoing))(o), name)
           == MetNamed(rebuilt.edgeLabels, Ids(rebuilt, rebuiltDelta),
                       AllRows(Side(rebuilt, rebuiltDelta, outgoing))(p), name)
    {
      hide Represents, MetNamed, Met, Contributions;
      forall x
        ensures MetNamed(base.edgeLabels, Ids(base, delta), AllRows(Side(base, delta, outgoing))(o), name)[x]
             == MetNamed(rebuilt.edgeLabels, Ids(rebuilt, rebuiltDelta),
                         AllRows(Side(rebuilt, rebuiltDelta, outgoing))(p), name)[x]
      {
        MetNamedIsContributed(base, delta, vertices, edges, o, outgoing, name, x);
        MetNamedIsContributed(rebuilt, rebuiltDelta, rebuiltVertices, rebuiltEdges, p, outgoing, name, x);
      }
    }
  }

  lemma MetIsContributed(base: Base, delta: DeltaRows, vertices: seq<VertexRow>, edges: seq<EdgeRow>, o: nat,
                         outgoing: bool)
    requires Represents(base, delta, vertices, edges) && o < |Ids(base, delta)|
    ensures Side(base, delta, outgoing).Valid()
    ensures Met(base.edgeLabels, Ids(base, delta), AllRows(Side(base, delta, outgoing))(o))
         == Contributions(edges, Ids(base, delta)[o], outgoing)
  {
    IncidentIsContributed(base.edgeLabels, Ids(base, delta), edges, Ids(base, delta)[o], outgoing);
  }
}
