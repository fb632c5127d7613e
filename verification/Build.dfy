/** Building a snapshot: vertex keys in order, two scans of the edges, and a scatter into two transposed
    adjacency structures. */
module Build {
  import opened CountingSort
  import opened Csr
  import opened Delta
  import opened Labels
  import opened Ordinals
  import opened Sequences
  import opened Traversal

  datatype BuildError = NullVertexKey | DuplicateVertexKey | NullEdgeField | InvalidEndpoint | DuplicateEdgeKey
                      | NotOneType | UnexpectedRowCount | EndpointsChanged

  datatype Outcome<T> = Ok(value: T) | Failed(error: BuildError)

  // ----- vertices -----

  ghost predicate InKeyOrder(rows: seq<Field<nat>>)
  {
    forall i, j :: 0 <= i < j < |rows| && rows[i].Value? && rows[j].Value? ==> rows[i].value <= rows[j].value
  }

  /** Reads the vertex keys, which the query returns in order. */
  method ReadVertexIds(rows: seq<Field<nat>>) returns (result: Outcome<seq<nat>>)
    requires InKeyOrder(rows)
    ensures result.Ok? <==> (forall i :: 0 <= i < |rows| ==> rows[i].Value?) && Distinct(rows)
    ensures result.Ok? ==> Increasing(result.value) && |result.value| == |rows|
                           && forall i :: 0 <= i < |rows| ==> rows[i] == Value(result.value[i])
  {
    var ids: seq<nat> := [];
    var row: nat := 0;
    while row < |rows|
      invariant row <= |rows| && |ids| == row && Increasing(ids)
      invariant forall i :: 0 <= i < row ==> rows[i] == Value(ids[i])
    {
      if rows[row].Null? {
        return Failed(NullVertexKey);
      }
      if |ids| > 0 && ids[|ids| - 1] == rows[row].value {
        assert rows[row - 1] == rows[row];
        return Failed(DuplicateVertexKey);
      }
      ids := ids + [rows[row].value];
      row := row + 1;
    }
    return Ok(ids);
  }

  /** Dense ids need no index; others are hashed. */
  method BuildIndex(ids: seq<nat>) returns (index: Index)
    requires Increasing(ids)
    ensures index.Valid() && index.ids == ids
  {
    var dense := true;
    var ordinal: nat := 0;
    while ordinal < |ids|
      invariant ordinal <= |ids|
      invariant dense && forall i :: 0 <= i < ordinal ==> ids[i] == i + 1
    {
      if ids[ordinal] != ordinal + 1 {
        dense := false;
        break;
      }
      ordinal := ordinal + 1;
    }
    var byId: map<nat, nat> := map[];
    if !dense {
      ordinal := 0;
      while ordinal < |ids|
        invariant ordinal <= |ids|
        invariant forall id :: id in byId <==> id in ids[..ordinal]
        invariant forall id :: id in byId ==> byId[id] < |ids| && ids[byId[id]] == id
      {
        assert ids[..ordinal + 1] == ids[..ordinal] + [ids[ordinal]];
        byId := byId[ids[ordinal] := ordinal];
        ordinal := ordinal + 1;
      }
      assert ids[..ordinal] == ids;
    }
    index := Index(ids, dense, byId);
  }

  // ----- labels -----

  /** The label of every slot, kept as one number while all edges share a label. */
  class EdgeLabels {
    var logicalSize: nat
    var uniform: bool
    var uniformLabel: nat
    var values: seq<nat>

    ghost predicate Valid()
      reads this
    {
      uniform || |values| == logicalSize
    }

    /** The label of each slot. */
    ghost function All(): seq<nat>
      requires Valid()
      reads this
    {
      if uniform then Repeated(logicalSize, uniformLabel) else values
    }

    constructor ()
      ensures Valid() && All() == []
    {
      logicalSize, uniform, uniformLabel, values := 0, false, 0, [];
    }

    method Reset(count: nat, useUniform: bool, initial: nat)
      modifies this
      ensures Valid() && uniform == useUniform && uniformLabel == initial && |All()| == count
      ensures useUniform ==> All() == Repeated(count, initial)
    {
      logicalSize, uniform, uniformLabel := count, useUniform, initial;
      values := if uniform then [] else Repeated(count, 0);
    }

    method Set(index: nat, edgeLabel: nat)
      requires Valid() && !uniform && index < |All()|
      modifies `values
      ensures Valid() && All() == old(All())[index := edgeLabel]
    {
      values := values[index := edgeLabel];
    }

    /** Gives every slot the shared label of its own. */
    method MaterializeUniform()
      requires Valid()
      modifies this
      ensures Valid() && !uniform && All() == old(All())
    {
      if !uniform {
        return;
      }
      values := Repeated(logicalSize, uniformLabel);
      uniform := false;
    }
  }

  function Repeated(count: nat, x: nat): (s: seq<nat>)
    ensures |s| == count && forall i :: 0 <= i < count ==> s[i] == x
  {
    seq(count, _ => x)
  }

  /** Labels are numbered from one in the order in which they are first met. */
  ghost predicate Numbered(labels: map<string, nat>)
  {
    Injective(labels) && forall name :: name in labels ==> 1 <= labels[name] <= |labels| && HasNoCapital(name)
  }

  /** The number stands beside the name, in whatever case the name is written. */
  ghost predicate IsNumberOf(labels: map<string, nat>, name: string, id: nat)
  {
    exists key :: key in labels && SameName(key, name) && labels[key] == id
  }

  ghost predicate IsKnown(labels: map<string, nat>, name: string)
  {
    exists key :: key in labels && SameName(key, name)
  }

  /** Two names have one number exactly when they differ at most in case. */
  lemma OneNumberIffSameName(labels: map<string, nat>, a: string, b: string, i: nat, j: nat)
    requires Numbered(labels) && IsNumberOf(labels, a, i) && IsNumberOf(labels, b, j)
    ensures i == j <==> SameName(a, b)
  {
    SameNames();
    var p :| p in labels && SameName(p, a) && labels[p] == i;
    var q :| q in labels && SameName(q, b) && labels[q] == j;
    LowerIsTheSmallName(p, p);
    LowerIsTheSmallName(q, q);
    if SameName(a, b) {
      assert SameName(p, q);
    }
  }

  lemma KnownIffLowerIs(labels: map<string, nat>, name: string)
    requires Numbered(labels)
    ensures IsKnown(labels, name) <==> Lower(name) in labels
  {
    LowerIsTheSmallName(name, Lower(name));
    if key :| key in labels && SameName(key, name) {
      assert SameName(name, key);
      LowerIsTheSmallName(name, key);
    }
    assert Lower(name) in labels ==> SameName(Lower(name), name);
  }

  /** The number of a label, a new one if need be; without a label it is zero. */
  method NumberLabel(labels: map<string, nat>, name: string) returns (next: map<string, nat>, id: nat)
    requires Numbered(labels)
    ensures Numbered(next) && (name == "" ==> next == labels && id == 0)
    ensures name != "" ==>
      next == if Lower(name) in labels then labels else labels[Lower(name) := |labels| + 1]
    ensures name != "" ==> next[Lower(name)] == id
    ensures name != "" ==> IsNumberOf(next, name, id)
    ensures name != "" ==> if IsKnown(labels, name) then next == labels else id == |labels| + 1
    ensures forall other, number :: IsNumberOf(labels, other, number) ==> IsNumberOf(next, other, number)
  {
    if name == "" {
      return labels, 0;
    }
    var normalized := Lower(name);
    KnownIffLowerIs(labels, name);
    LowerIsTheSmallName(name, normalized);
    assert SameName(normalized, name);
    hide SameName, HasNoCapital, Lower;
    if normalized in labels {
      return labels, labels[normalized];
    }
    id := |labels| + 1;
    next := labels[normalized := id];
    assert next.Keys == labels.Keys + {normalized};
    assert |next| == |labels| + 1;
  }

  // ----- one side -----

  /** What the edges of a scan are, seen from one side: the vertex whose row they are in, and the rest. */
  datatype Columns = Columns(near: seq<nat>, far: seq<nat>, edgeIds: seq<nat>, labels: seq<nat>, weights: seq<real>)
  {
    ghost predicate Valid(n: nat)
    {
      |near| == |far| == |edgeIds| == |labels| == |weights| && AllBelow(near, n) && AllBelow(far, n)
    }
  }

  /** Each row holds exactly its edges, in the order of the scan. */
  ghost predicate IsScatterOf(adj: Adjacency, n: nat, c: Columns)
  {
    && c.Valid(n) && OffsetsOk(c.near, n, adj.offsets)
    && Scattered(c.near, c.far, adj.neighbors, |c.near|) && Scattered(c.near, c.edgeIds, adj.edgeIds, |c.near|)
    && Scattered(c.near, c.labels, adj.labels, |c.near|) && Scattered(c.near, c.weights, adj.weights, |c.near|)
  }

  lemma ScatterIsValid(adj: Adjacency, n: nat, c: Columns)
    requires IsScatterOf(adj, n, c)
    ensures adj.Valid(n)
  {
    BelowAll(c.near, n, |c.near|);
    forall i: nat, j: nat | i <= j <= n
      ensures adj.offsets[i] <= adj.offsets[j]
    {
      StartMonotone(c.near, i, j);
    }
    forall slot: nat | slot < |adj.neighbors|
      ensures adj.neighbors[slot] < n
    {
      var k, i := EverySlotIsFilled(c.near, n, slot);
    }
  }

  /** A slot of a row holds an edge with this neighbour and label exactly if the scan has such an edge. */
  lemma HoldsIff(adj: Adjacency, n: nat, c: Columns, u: nat, v: nat, edgeLabel: nat)
    requires IsScatterOf(adj, n, c)
    ensures adj.Holds(u, v, edgeLabel) <==> HasEdge(c, u, v, edgeLabel)
  {
    if adj.Holds(u, v, edgeLabel) {
      var slot: nat :| adj.Slot(u, v, edgeLabel, slot);
      SlotEdge(adj, n, c, u, v, edgeLabel, slot);
    }
    if HasEdge(c, u, v, edgeLabel) {
      var i: nat :| IsEdge(c, i, u, v, edgeLabel);
      SlotInRow(c.near, i);
      assert adj.Slot(u, v, edgeLabel, Slot(c.near, i));
    }
  }

  ghost predicate IsEdge(c: Columns, i: nat, u: nat, v: nat, edgeLabel: nat)
  {
    && i < |c.near| && i < |c.far| && i < |c.labels|
    && c.near[i] == u && c.far[i] == v && c.labels[i] == edgeLabel
  }

  ghost predicate HasEdge(c: Columns, u: nat, v: nat, edgeLabel: nat)
  {
    exists i: nat :: IsEdge(c, i, u, v, edgeLabel)
  }

  lemma SlotEdge(adj: Adjacency, n: nat, c: Columns, u: nat, v: nat, edgeLabel: nat, slot: nat)
    requires IsScatterOf(adj, n, c) && adj.Slot(u, v, edgeLabel, slot)
    ensures HasEdge(c, u, v, edgeLabel)
  {
    var k, i := EverySlotIsFilled(c.near, n, slot);
    if k < u {
      StartMonotone(c.near, k + 1, u);
    } else if k > u {
      StartMonotone(c.near, u + 1, k);
    }
    assert IsEdge(c, i, u, v, edgeLabel);
  }

  /** The same edges from the other side. */
  function Flipped(c: Columns): Columns
  {
    c.(near := c.far, far := c.near)
  }

  /** Both sides of one scan are transposes of each other. */
  lemma ScattersAreTransposed(outgoing: Adjacency, incoming: Adjacency, n: nat, c: Columns)
    requires IsScatterOf(outgoing, n, c) && IsScatterOf(incoming, n, Flipped(c))
    ensures Transposed(outgoing, incoming)
  {
    forall u: nat, v: nat, edgeLabel: nat
      ensures outgoing.Holds(u, v, edgeLabel) <==> incoming.Holds(v, u, edgeLabel)
    {
      HoldsIff(outgoing, n, c, u, v, edgeLabel);
      HoldsIff(incoming, n, Flipped(c), v, u, edgeLabel);
      if HasEdge(c, u, v, edgeLabel) {
        var i: nat :| IsEdge(c, i, u, v, edgeLabel);
        assert IsEdge(Flipped(c), i, v, u, edgeLabel);
      }
      if HasEdge(Flipped(c), v, u, edgeLabel) {
        var i: nat :| IsEdge(Flipped(c), i, v, u, edgeLabel);
        assert IsEdge(c, i, u, v, edgeLabel);
      }
    }
  }

  /** The row of a vertex lists its edges' columns in the order of the scan. */
  lemma RowListsEdges(adj: Adjacency, n: nat, c: Columns, v: nat, j: nat)
    requires IsScatterOf(adj, n, c) && v < n && j < Count(c.near, v, |c.near|)
    ensures adj.offsets[v + 1] == adj.offsets[v] + Count(c.near, v, |c.near|)
    ensures adj.offsets[v] + j < |c.near| == |adj.neighbors|
    ensures var i, slot := Picked(c.near, v, |c.near|)[j], adj.offsets[v] + j;
      && c.near[i] == v && adj.neighbors[slot] == c.far[i] && adj.edgeIds[slot] == c.edgeIds[i]
      && adj.labels[slot] == c.labels[i] && adj.weights[slot] == c.weights[i]
  {
    BelowStep(c.near, v, |c.near|);
    PickedIsAt(c.near, v, j);
    SlotInside(c.near, n, Picked(c.near, v, |c.near|)[j]);
  }

  class Side {
    var offsets: seq<nat>
    var cursor: seq<nat>
    var neighbors: seq<nat>
    var edgeIds: seq<nat>
    var weights: seq<real>
    const labels: EdgeLabels

    constructor (n: nat)
      ensures fresh(this) && fresh(labels) && labels.Valid() && offsets == Repeated(n + 1, 0)
    {
      offsets, cursor, neighbors, edgeIds, weights := Repeated(n + 1, 0), [], [], [], [];
      labels := new EdgeLabels();
    }

    method CountEdge(vertex: nat)
      requires vertex + 1 < |offsets|
      modifies `offsets
      ensures offsets == old(offsets)[vertex + 1 := old(offsets)[vertex + 1] + 1]
    {
      offsets := offsets[vertex + 1 := offsets[vertex + 1] + 1];
    }

    method FinalizeOffsets(ghost near: seq<nat>, ghost n: nat)
      requires Counted(offsets, near, n, |near|) && AllBelow(near, n)
      modifies `offsets
      ensures OffsetsOk(near, n, offsets)
    {
      BelowAll(near, n, |near|);
      ghost var counts := offsets;
      var k: nat := 1;
      while k < |offsets|
        invariant 1 <= k <= n + 1 && |offsets| == n + 1
        invariant forall j: nat :: j < k ==> offsets[j] == Start(near, j)
        invariant forall j: nat :: k <= j <= n ==> offsets[j] == counts[j]
      {
        BelowStep(near, k - 1, |near|);
        assert CountedAt(counts, near, k - 1, |near|);
        offsets := offsets[k := offsets[k] + offsets[k - 1]];
        k := k + 1;
      }
    }

    method Allocate(count: nat)
      requires |offsets| > 0
      modifies `cursor, `neighbors, `edgeIds, `weights, labels
      ensures |neighbors| == |edgeIds| == |weights| == count && cursor == offsets[..|offsets| - 1]
      ensures labels.Valid() && |labels.All()| == count && labels.uniform
    {
      neighbors, edgeIds, weights := Repeated(count, 0), Repeated(count, 0), seq(count, _ => 0.0);
      labels.Reset(count, true, 0);
      cursor := offsets[..|offsets| - 1];
    }

    /** After `m` edges of the scan have been placed. */
    ghost predicate Placed(c: Columns, n: nat, m: nat)
      reads this, labels
    {
      && c.Valid(n) && m <= |c.near| && OffsetsOk(c.near, n, offsets) && CursorsAt(c.near, n, cursor, m)
      && Scattered(c.near, c.far, neighbors, m) && Scattered(c.near, c.edgeIds, edgeIds, m)
      && Scattered(c.near, c.weights, weights, m)
      && labels.Valid() && Scattered(c.near, c.labels, labels.All(), m)
    }

    method Place(near: nat, far: nat, edgeId: nat, edgeLabel: nat, weight: real, ghost c: Columns, ghost n: nat,
                 ghost m: nat)
      requires Placed(c, n, m) && m < |c.near|
      requires c.near[m] == near && c.far[m] == far && c.edgeIds[m] == edgeId && c.labels[m] == edgeLabel
        && c.weights[m] == weight
      requires labels.uniform ==> labels.uniformLabel == edgeLabel
      modifies `cursor, `neighbors, `edgeIds, `weights, labels
      ensures Placed(c, n, m + 1) && labels.uniform == old(labels.uniform)
        && labels.uniformLabel == old(labels.uniformLabel)
    {
      ScatterNext(c.near, n, c.far, neighbors, m);
      ScatterNext(c.near, n, c.edgeIds, edgeIds, m);
      ScatterNext(c.near, n, c.weights, weights, m);
      ScatterNext(c.near, n, c.labels, labels.All(), m);
      hide OffsetsOk, Scattered;
      var slot := cursor[near];
      cursor := cursor[near := slot + 1];
      neighbors := neighbors[slot := far];
      weights := weights[slot := weight];
      edgeIds := edgeIds[slot := edgeId];
      if !labels.uniform {
        labels.Set(slot, edgeLabel);
      } else {
        assert labels.All()[slot := edgeLabel] == labels.All();
      }
    }

    method Freeze(ghost c: Columns, ghost n: nat) returns (adj: Adjacency)
      requires Placed(c, n, |c.near|)
      ensures IsScatterOf(adj, n, c)
    {
      var all := if labels.uniform then Repeated(labels.logicalSize, labels.uniformLabel) else labels.values;
      adj := Adjacency(offsets, neighbors, edgeIds, all, weights);
    }
  }

  ghost predicate Counted(offsets: seq<nat>, near: seq<nat>, n: nat, m: nat)
    requires m <= |near|
  {
    |offsets| == n + 1 && offsets[0] == 0 && forall k: nat :: k < n ==> CountedAt(offsets, near, k, m)
  }

  /** Each count stands one place up. */
  ghost predicate CountedAt(offsets: seq<nat>, near: seq<nat>, k: nat, m: nat)
    requires m <= |near| && k + 1 < |offsets|
  {
    offsets[k + 1] == Count(near, k, m)
  }

  // ----- the two scans -----

  ghost function OrdinalIn(ids: seq<nat>, x: Field<nat>): (o: nat)
    ensures x.Value? && x.value in ids ==> o < |ids| && ids[o] == x.value
  {
    if x.Value? && x.value in ids then var o: nat :| o < |ids| && ids[o] == x.value; o else 0
  }

  lemma OrdinalIsUnique(ids: seq<nat>, o: nat)
    requires Increasing(ids) && o < |ids|
    ensures OrdinalIn(ids, Value(ids[o])) == o
  {
    var p := OrdinalIn(ids, Value(ids[o]));
    assert ids[p] == ids[o] && !(p < o) && !(o < p);
  }

  /** The row that an edge goes to on one side. */
  ghost function KeyOf(ids: seq<nat>, r: EdgeRow, outgoing: bool): nat
  {
    OrdinalIn(ids, if outgoing then r.contents.source else r.contents.target)
  }

  ghost function Keys(ids: seq<nat>, rows: seq<EdgeRow>, outgoing: bool): (keys: seq<nat>)
    ensures |keys| == |rows| && forall i :: 0 <= i < |rows| ==> keys[i] == KeyOf(ids, rows[i], outgoing)
  {
    seq(|rows|, i requires 0 <= i < |rows| => KeyOf(ids, rows[i], outgoing))
  }

  ghost predicate HasEndpoints(ids: seq<nat>, r: EdgeRow)
  {
    && r.contents.id.Value? && r.contents.source.Value? && r.contents.target.Value?
    && r.contents.source.value in ids && r.contents.target.value in ids
  }

  ghost predicate AllHaveEndpoints(ids: seq<nat>, rows: seq<EdgeRow>)
  {
    forall i :: 0 <= i < |rows| ==> HasEndpoints(ids, rows[i])
  }

  lemma KeysAreBelow(ids: seq<nat>, rows: seq<EdgeRow>, outgoing: bool)
    requires AllHaveEndpoints(ids, rows)
    ensures AllBelow(Keys(ids, rows, outgoing), |ids|)
  {
    forall i | 0 <= i < |rows|
      ensures KeyOf(ids, rows[i], outgoing) < |ids|
    {
      assert HasEndpoints(ids, rows[i]);
    }
  }

  lemma {:induction false} CountIsLocal(a: seq<nat>, b: seq<nat>, k: nat, m: nat)
    requires m <= |a| && m <= |b| && forall i :: 0 <= i < m ==> a[i] == b[i]
    ensures Count(a, k, m) == Count(b, k, m)
    decreases m
  {
    if m > 0 {
      CountIsLocal(a, b, k, m - 1);
    }
  }

  lemma {:induction false} CountIsMultiplicity(keys: seq<nat>, k: nat)
    ensures Count(keys, k, |keys|) == multiset(keys)[k]
    decreases |keys|
  {
    if |keys| > 0 {
      var init, last := keys[..|keys| - 1], keys[|keys| - 1];
      assert keys == init + [last];
      CountIsMultiplicity(init, k);
      CountIsLocal(init, keys, k, |init|);
    }
  }

  function Without<T>(s: seq<T>, i: nat): seq<T>
    requires i < |s|
  {
    s[..i] + s[i + 1..]
  }

  lemma MultisetWithout<T>(s: seq<T>, i: nat)
    requires i < |s|
    ensures multiset(s) == multiset(Without(s, i)) + multiset{s[i]}
  {
    assert s == s[..i] + [s[i]] + s[i + 1..];
  }

  lemma KeysWithout(ids: seq<nat>, rows: seq<EdgeRow>, i: nat, outgoing: bool)
    requires i < |rows|
    ensures multiset(Keys(ids, rows, outgoing)) == multiset(Keys(ids, Without(rows, i), outgoing))
      + multiset{KeyOf(ids, rows[i], outgoing)}
  {
    var keys := Keys(ids, rows, outgoing);
    MultisetWithout(keys, i);
    assert Without(keys, i) == Keys(ids, Without(rows, i), outgoing);
  }

  lemma SamePlusOne<T>(a: multiset<T>, b: multiset<T>, x: T)
    requires a + multiset{x} == b + multiset{x}
    ensures a == b
  {
    assert a == (a + multiset{x}) - multiset{x};
    assert b == (b + multiset{x}) - multiset{x};
  }

  lemma {:induction false} KeysPermute(ids: seq<nat>, a: seq<EdgeRow>, b: seq<EdgeRow>, outgoing: bool)
    requires multiset(a) == multiset(b)
    ensures multiset(Keys(ids, a, outgoing)) == multiset(Keys(ids, b, outgoing))
    decreases |a|
  {
    assert |multiset(a)| == |a| && |multiset(b)| == |b|;
    if |a| > 0 {
      assert a[0] in multiset(a) && a[0] in multiset(b);
      var i :| 0 <= i < |b| && b[i] == a[0];
      MultisetWithout(a, 0);
      MultisetWithout(b, i);
      SamePlusOne(multiset(Without(a, 0)), multiset(Without(b, i)), a[0]);
      KeysPermute(ids, Without(a, 0), Without(b, i), outgoing);
      KeysWithout(ids, a, 0, outgoing);
      KeysWithout(ids, b, i, outgoing);
    }
  }

  lemma {:induction false} StartsAgree(a: seq<nat>, b: seq<nat>, k: nat)
    requires multiset(a) == multiset(b)
    ensures Start(a, k) == Start(b, k)
    decreases k
  {
    if k == 0 {
      NothingBelowZero(a, |a|);
      NothingBelowZero(b, |b|);
    } else {
      StartsAgree(a, b, k - 1);
      BelowStep(a, k - 1, |a|);
      BelowStep(b, k - 1, |b|);
      CountIsMultiplicity(a, k - 1);
      CountIsMultiplicity(b, k - 1);
    }
  }

  lemma {:induction false} NothingBelowZero(keys: seq<nat>, m: nat)
    requires m <= |keys|
    ensures Below(keys, 0, m) == 0
  {
    if m > 0 {
      NothingBelowZero(keys, m - 1);
    }
  }

  /** Offsets counted in one scan are right for any other scan of the same rows. */
  lemma OffsetsForOtherScan(ids: seq<nat>, first: seq<EdgeRow>, second: seq<EdgeRow>, outgoing: bool, offsets: seq<nat>)
    requires multiset(first) == multiset(second) && OffsetsOk(Keys(ids, first, outgoing), |ids|, offsets)
    ensures OffsetsOk(Keys(ids, second, outgoing), |ids|, offsets)
  {
    KeysPermute(ids, first, second, outgoing);
    forall k: nat | k <= |ids|
      ensures offsets[k] == Start(Keys(ids, second, outgoing), k)
    {
      StartsAgree(Keys(ids, first, outgoing), Keys(ids, second, outgoing), k);
    }
  }

  method Endpoints(index: Index, r: EdgeRow) returns (found: bool, source: nat, target: nat)
    requires index.Valid() && r.contents.source.Value? && r.contents.target.Value?
    ensures found <==> r.contents.source.value in index.ids && r.contents.target.value in index.ids
    ensures found ==>
      source == KeyOf(index.ids, r, true) < |index.ids| && target == KeyOf(index.ids, r, false) < |index.ids|
  {
    found, source := TryGetCsrOrdinal(index, r.contents.source.value);
    if !found {
      return false, 0, 0;
    }
    OrdinalIsUnique(index.ids, source);
    found, target := TryGetCsrOrdinal(index, r.contents.target.value);
    if found {
      OrdinalIsUnique(index.ids, target);
    }
  }

  lemma IdsMatchInOtherScan(first: seq<EdgeRow>, second: seq<EdgeRow>)
    requires multiset(first) == multiset(second) && IdsMatchRowIds(first)
    ensures IdsMatchRowIds(second)
  {
    forall i | 0 <= i < |second|
      ensures second[i].contents.id == Value(second[i].rowId + 1)
    {
      assert second[i] in multiset(second);
      assert second[i] in first;
    }
  }

  lemma CountedNext(offsets: seq<nat>, near: seq<nat>, n: nat, m: nat)
    requires m < |near| && near[m] < n && Counted(offsets, near, n, m)
    ensures near[m] + 1 < |offsets| && Counted(offsets[near[m] + 1 := offsets[near[m] + 1] + 1], near, n, m + 1)
  {
    var next, after := offsets[near[m] + 1 := offsets[near[m] + 1] + 1], m + 1;
    forall k: nat | k < n
      ensures CountedAt(next, near, k, after)
    {
      assert CountedAt(offsets, near, k, m);
    }
  }

  /** Both sides after the first rows of the first scan. */
  ghost predicate BothCounted(ids: seq<nat>, rows: seq<EdgeRow>, m: nat, outOffsets: seq<nat>, inOffsets: seq<nat>)
    requires m <= |rows|
  {
    && Counted(outOffsets, Keys(ids, rows, true), |ids|, m)
    && Counted(inOffsets, Keys(ids, rows, false), |ids|, m)
  }

  method CountRow(index: Index, r: EdgeRow, outgoing: Side, incoming: Side, ghost rows: seq<EdgeRow>, ghost m: nat)
    returns (result: Outcome<nat>)
    requires index.Valid() && outgoing != incoming && m < |rows| && rows[m] == r
    requires BothCounted(index.ids, rows, m, outgoing.offsets, incoming.offsets)
    modifies outgoing`offsets, incoming`offsets
    ensures result.Ok? <==> HasEndpoints(index.ids, r)
    ensures result.Ok? ==> r.contents.id == Value(result.value)
    ensures result.Ok? ==> BothCounted(index.ids, rows, m + 1, outgoing.offsets, incoming.offsets)
  {
    if r.contents.id.Null? || r.contents.source.Null? || r.contents.target.Null? {
      return Failed(NullEdgeField);
    }
    var found, source, target := Endpoints(index, r);
    if !found {
      return Failed(InvalidEndpoint);
    }
    CountedNext(outgoing.offsets, Keys(index.ids, rows, true), |index.ids|, m);
    CountedNext(incoming.offsets, Keys(index.ids, rows, false), |index.ids|, m);
    hide Counted;
    outgoing.CountEdge(source);
    incoming.CountEdge(target);
    return Ok(r.contents.id.value);
  }

  /** The first scan counts every vertex's edges, one place up. */
  method CountEdges(index: Index, rows: seq<EdgeRow>, expected: nat, managed: bool, outgoing: Side, incoming: Side)
    returns (result: Outcome<bool>)
    requires index.Valid() && outgoing != incoming
    requires BothCounted(index.ids, rows, 0, outgoing.offsets, incoming.offsets)
    modifies outgoing`offsets, incoming`offsets
    ensures result.Ok? <==> AllHaveEndpoints(index.ids, rows) && |rows| == expected
    ensures result.Ok? ==> (result.value <==> managed && IdsMatchRowIds(rows))
    ensures result.Ok? ==> BothCounted(index.ids, rows, |rows|, outgoing.offsets, incoming.offsets)
  {
    hide BothCounted, HasEndpoints, Index.Valid;
    var idsMatch := managed;
    var row: nat := 0;
    while row < |rows|
      invariant row <= |rows| && AllHaveEndpoints(index.ids, rows[..row])
      invariant idsMatch <==> managed && IdsMatchRowIds(rows[..row])
      invariant BothCounted(index.ids, rows, row, outgoing.offsets, incoming.offsets)
    {
      var r := rows[row];
      assert rows[..row + 1] == rows[..row] + [r];
      var counted := CountRow(index, r, outgoing, incoming, rows, row);
      if counted.Failed? {
        assert !HasEndpoints(index.ids, rows[row]);
        return Failed(counted.error);
      }
      idsMatch := idsMatch && counted.value > 0 && r.rowId == counted.value - 1;
      row := row + 1;
    }
    assert rows[..row] == rows;
    if row != expected {
      return Failed(UnexpectedRowCount);
    }
    return Ok(idsMatch);
  }

  // ----- the second scan -----

  /** The label numbers after the first `m` rows of a scan. */
  ghost function NumberAll(labels: map<string, nat>, rows: seq<EdgeRow>, m: nat): map<string, nat>
    requires m <= |rows|
  {
    if m == 0 then labels
    else
      var before := NumberAll(labels, rows, m - 1);
      var row := rows[m - 1].contents;
      if row.name.Null? || row.Label() in before then before else before[row.Label() := |before| + 1]
  }

  lemma {:induction false} NumbersStay(labels: map<string, nat>, rows: seq<EdgeRow>, m: nat, k: nat, name: string)
    requires m <= k <= |rows| && name in NumberAll(labels, rows, m)
    ensures name in NumberAll(labels, rows, k) && NumberAll(labels, rows, k)[name] == NumberAll(labels, rows, m)[name]
    decreases k
  {
    if m < k {
      NumbersStay(labels, rows, m, k - 1, name);
    }
  }

  ghost function LabelOf(labels: map<string, nat>, r: EdgeRow): nat
  {
    if r.contents.name.Value? && r.contents.Label() in labels then labels[r.contents.Label()] else 0
  }

  /** A scan's edges by ordinals and label numbers. */
  ghost function ColumnsOf(ids: seq<nat>, labels: map<string, nat>, rows: seq<EdgeRow>, weights: seq<real>): Columns
  {
    Columns(Keys(ids, rows, true), Keys(ids, rows, false),
            seq(|rows|, i requires 0 <= i < |rows| => if rows[i].contents.id.Value? then rows[i].contents.id.value
                else 0),
            seq(|rows|, i requires 0 <= i < |rows| => LabelOf(labels, rows[i])), weights)
  }

  lemma ColumnsAreValid(ids: seq<nat>, labels: map<string, nat>, rows: seq<EdgeRow>, weights: seq<real>)
    requires AllHaveEndpoints(ids, rows) && |weights| == |rows|
    ensures ColumnsOf(ids, labels, rows, weights).Valid(|ids|)
  {
    KeysAreBelow(ids, rows, true);
    KeysAreBelow(ids, rows, false);
  }

  /** The label is there, has a character, and none of its characters separates labels. */
  ghost predicate HasOneType(r: EdgeRow)
  {
    && r.contents.name.Value? && |r.contents.name.value| > 0
    && forall k :: 0 <= k < |r.contents.name.value| ==> r.contents.name.value[k] != ';'
  }

  // ----- the scatter -----

  /** What is known while edges are placed: both sides, the labels met, and how slots hold labels. */
  datatype Progress = Progress(labels: map<string, nat>, seen: set<nat>, sawLabel: bool, labelsUniform: bool,
                               uniformLabel: nat)

  ghost predicate SidesApart(outgoing: Side, incoming: Side)
  {
    outgoing != incoming && outgoing.labels != incoming.labels
  }

  ghost predicate LabelsShared(p: Progress, outgoing: EdgeLabels, incoming: EdgeLabels)
    reads outgoing, incoming
  {
    && outgoing.uniform == incoming.uniform == p.labelsUniform
    && (p.sawLabel && p.labelsUniform ==> outgoing.uniformLabel == incoming.uniformLabel == p.uniformLabel)
  }

  ghost predicate SeenIds(p: Progress, rows: seq<EdgeRow>, m: nat)
    requires m <= |rows|
  {
    forall id :: id in p.seen <==> exists i :: 0 <= i < m && rows[i].contents.id == Value(id)
  }

  ghost predicate BothPlaced(c: Columns, n: nat, m: nat, outgoing: Side, incoming: Side)
    reads outgoing, outgoing.labels, incoming, incoming.labels
  {
    outgoing.Placed(c, n, m) && incoming.Placed(Flipped(c), n, m)
  }

  /** Makes every slot's label its own unless all labels so far, with this one, are the same. */
  method ShareLabel(p: Progress, id: nat, expected: nat, outgoing: Side, incoming: Side, ghost c: Columns, ghost n: nat,
                    ghost m: nat)
    returns (next: Progress)
    requires SidesApart(outgoing, incoming) && BothPlaced(c, n, m, outgoing, incoming) && |c.near| == expected
    requires LabelsShared(p, outgoing.labels, incoming.labels) && p.sawLabel == (m > 0) && (m == 0 ==> p.labelsUniform)
    modifies outgoing.labels, incoming.labels
    ensures BothPlaced(c, n, m, outgoing, incoming) && LabelsShared(next, outgoing.labels, incoming.labels)
    ensures next.sawLabel && next.labels == p.labels && next.seen == p.seen
    ensures next.labelsUniform ==> next.uniformLabel == id
  {
    next := p;
    if !p.sawLabel {
      next := p.(uniformLabel := id, sawLabel := true);
      outgoing.labels.Reset(expected, true, id);
      incoming.labels.Reset(expected, true, id);
    } else if p.labelsUniform && id != p.uniformLabel {
      next := p.(labelsUniform := false);
      outgoing.labels.MaterializeUniform();
      incoming.labels.MaterializeUniform();
    }
  }

  lemma SharedStill(p: Progress, next: Progress, outgoing: EdgeLabels, incoming: EdgeLabels)
    requires LabelsShared(p, outgoing, incoming)
    requires next.sawLabel == p.sawLabel && next.labelsUniform == p.labelsUniform && next.uniformLabel == p.uniformLabel
    ensures LabelsShared(next, outgoing, incoming)
  {
  }

  method PlaceBoth(source: nat, target: nat, edgeId: nat, edgeLabel: nat, weight: real, outgoing: Side, incoming: Side,
                   ghost p: Progress,
                   ghost c: Columns, ghost n: nat, ghost m: nat)
    requires SidesApart(outgoing, incoming) && BothPlaced(c, n, m, outgoing, incoming) && m < |c.near|
    requires c.near[m] == source && c.far[m] == target && c.edgeIds[m] == edgeId && c.labels[m] == edgeLabel
      && c.weights[m] == weight
    requires LabelsShared(p, outgoing.labels, incoming.labels) && p.sawLabel
      && (p.labelsUniform ==> p.uniformLabel == edgeLabel)
    modifies outgoing`cursor, outgoing`neighbors, outgoing`edgeIds, outgoing`weights, outgoing.labels
    modifies incoming`cursor, incoming`neighbors, incoming`edgeIds, incoming`weights, incoming.labels
    ensures BothPlaced(c, n, m + 1, outgoing, incoming) && LabelsShared(p, outgoing.labels, incoming.labels)
  {
    outgoing.Place(source, target, edgeId, edgeLabel, weight, c, n, m);
    incoming.Place(target, source, edgeId, edgeLabel, weight, Flipped(c), n, m);
  }

  /** The label numbers that the whole scan ends with. */
  ghost function FinalLabels(labels: map<string, nat>, rows: seq<EdgeRow>): map<string, nat>
  {
    NumberAll(labels, rows, |rows|)
  }

  ghost predicate Scanning(ids: seq<nat>, labels: map<string, nat>, rows: seq<EdgeRow>, weights: seq<real>, c: Columns,
                           p: Progress, m: nat)
  {
    && m <= |rows| == |weights| && AllHaveEndpoints(ids, rows)
         && c == ColumnsOf(ids, FinalLabels(labels, rows), rows, weights)
    && Numbered(p.labels) && p.labels == NumberAll(labels, rows, m) && SeenIds(p, rows, m)
    && p.sawLabel == (m > 0) && (m == 0 ==> p.labelsUniform)
  }

  lemma ColumnsAt(ids: seq<nat>, labels: map<string, nat>, rows: seq<EdgeRow>, weights: seq<real>, c: Columns,
                  p: Progress, m: nat)
    requires Scanning(ids, labels, rows, weights, c, p, m) && m < |rows|
    ensures |c.near| == |c.far| == |c.edgeIds| == |c.labels| == |c.weights| == |rows|
    ensures HasEndpoints(ids, rows[m])
    ensures c.near[m] == KeyOf(ids, rows[m], true) && c.far[m] == KeyOf(ids, rows[m], false)
    ensures rows[m].contents.id == Value(c.edgeIds[m]) && c.weights[m] == weights[m]
    ensures c.labels[m] == LabelOf(FinalLabels(labels, rows), rows[m])
  {
  }

  /** Numbering the label of the next row. */
  lemma ScanningNext(ids: seq<nat>, labels: map<string, nat>, rows: seq<EdgeRow>, weights: seq<real>, c: Columns,
                     p: Progress, m: nat,
                     next: Progress)
    requires Scanning(ids, labels, rows, weights, c, p, m) && m < |rows| && rows[m].contents.name.Value?
      && rows[m].contents.id.Value?
    requires var name := rows[m].contents.Label();
      next.labels == (if name in p.labels then p.labels else p.labels[name := |p.labels| + 1])
    requires Numbered(next.labels) && next.sawLabel && next.seen == p.seen + {rows[m].contents.id.value}
    ensures Scanning(ids, labels, rows, weights, c, next, m + 1)
  {
    hide AllHaveEndpoints, ColumnsOf, Numbered, SeenIds, FinalLabels;
    SeenNext(p, rows, m, next);
  }

  lemma SeenNext(p: Progress, rows: seq<EdgeRow>, m: nat, next: Progress)
    requires m < |rows| && SeenIds(p, rows, m) && rows[m].contents.id.Value?
      && next.seen == p.seen + {rows[m].contents.id.value}
    ensures SeenIds(next, rows, m + 1)
  {
  }

  /** What the second scan checks of a row, and the row's ordinals. */
  method CheckRow(index: Index, r: EdgeRow, validateEdgeIds: bool, seen: set<nat>) returns (result: Outcome<(nat, nat)>)
    requires index.Valid() && HasEndpoints(index.ids, r)
    ensures result.Ok? <==> (validateEdgeIds ==> r.contents.id.value !in seen) && HasOneType(r)
    ensures result.Ok? ==>
      result.value == (KeyOf(index.ids, r, true), KeyOf(index.ids, r, false)) && r.contents.name.Value?
      && r.contents.name.value != "" && r.contents.Label() == Lower(r.contents.name.value)
  {
    if validateEdgeIds && r.contents.id.value in seen {
      return Failed(DuplicateEdgeKey);
    }
    var found, source, target := Endpoints(index, r);
    if r.contents.name.Null? || r.contents.name.value == "" || ';' in r.contents.name.value {
      return Failed(NotOneType);
    }
    return Ok((source, target));
  }

  method ShareAndPlace(p: Progress, numbered: map<string, nat>, source: nat, target: nat, edgeId: nat, id: nat,
                       weight: real, expected: nat,
                       outgoing: Side, incoming: Side, ghost c: Columns, ghost n: nat, ghost m: nat)
    returns (next: Progress)
    requires SidesApart(outgoing, incoming) && BothPlaced(c, n, m, outgoing, incoming) && m < |c.near| == expected
    requires LabelsShared(p, outgoing.labels, incoming.labels) && p.sawLabel == (m > 0) && (m == 0 ==> p.labelsUniform)
    requires c.near[m] == source && c.far[m] == target && c.edgeIds[m] == edgeId && c.labels[m] == id
      && c.weights[m] == weight
    modifies outgoing`cursor, outgoing`neighbors, outgoing`edgeIds, outgoing`weights, outgoing.labels
    modifies incoming`cursor, incoming`neighbors, incoming`edgeIds, incoming`weights, incoming.labels
    ensures BothPlaced(c, n, m + 1, outgoing, incoming) && LabelsShared(next, outgoing.labels, incoming.labels)
    ensures next.sawLabel && next.labels == numbered && next.seen == p.seen + {edgeId}
  {
    next := ShareLabel(p, id, expected, outgoing, incoming, c, n, m);
    ghost var shared := next;
    next := next.(labels := numbered, seen := next.seen + {edgeId});
    SharedStill(shared, next, outgoing.labels, incoming.labels);
    PlaceBoth(source, target, edgeId, id, weight, outgoing, incoming, next, c, n, m);
  }

  lemma NumberedColumn(ids: seq<nat>, labels: map<string, nat>, rows: seq<EdgeRow>, weights: seq<real>, c: Columns,
                       p: Progress, m: nat,
                       numbered: map<string, nat>)
    requires Scanning(ids, labels, rows, weights, c, p, m) && m < |rows| && rows[m].contents.name.Value?
    requires var name := rows[m].contents.Label();
      numbered == (if name in p.labels then p.labels else p.labels[name := |p.labels| + 1])
    ensures rows[m].contents.Label() in numbered && c.labels[m] == numbered[rows[m].contents.Label()]
  {
    hide AllHaveEndpoints;
    NumbersStay(labels, rows, m + 1, |rows|, rows[m].contents.Label());
  }

  lemma ScanningLabels(ids: seq<nat>, labels: map<string, nat>, rows: seq<EdgeRow>, weights: seq<real>, c: Columns,
                       p: Progress, m: nat)
    requires Scanning(ids, labels, rows, weights, c, p, m)
    ensures p.sawLabel == (m > 0) && (m == 0 ==> p.labelsUniform) && Numbered(p.labels)
  {
  }

  method PlaceRow(index: Index, r: EdgeRow, weight: real, validateEdgeIds: bool, p: Progress, expected: nat,
                  outgoing: Side, incoming: Side,
                  ghost labels: map<string, nat>, ghost rows: seq<EdgeRow>, ghost weights: seq<real>, ghost c: Columns,
                      ghost m: nat)
    returns (result: Outcome<Progress>)
    requires index.Valid() && SidesApart(outgoing, incoming) && m < |rows| == |weights| && rows[m] == r
      && weights[m] == weight
    requires Scanning(index.ids, labels, rows, weights, c, p, m) && expected == |rows|
    requires BothPlaced(c, |index.ids|, m, outgoing, incoming) && LabelsShared(p, outgoing.labels, incoming.labels)
    modifies outgoing`cursor, outgoing`neighbors, outgoing`edgeIds, outgoing`weights, outgoing.labels
    modifies incoming`cursor, incoming`neighbors, incoming`edgeIds, incoming`weights, incoming.labels
    ensures result.Ok? <==>
      (validateEdgeIds ==> r.contents.id.Value? && r.contents.id.value !in p.seen) && HasOneType(r)
    ensures result.Ok? ==> Scanning(index.ids, labels, rows, weights, c, result.value, m + 1)
    ensures result.Ok? ==>
      BothPlaced(c, |index.ids|, m + 1, outgoing, incoming)
      && LabelsShared(result.value, outgoing.labels, incoming.labels)
  {
    hide *;
    ColumnsAt(index.ids, labels, rows, weights, c, p, m);
    var checked := CheckRow(index, r, validateEdgeIds, p.seen);
    if checked.Failed? {
      return Failed(checked.error);
    }
    ScanningLabels(index.ids, labels, rows, weights, c, p, m);
    var numbered, id := NumberLabel(p.labels, r.contents.name.value);
    NumberedColumn(index.ids, labels, rows, weights, c, p, m, numbered);
    var next := ShareAndPlace(p, numbered, checked.value.0, checked.value.1, r.contents.id.value, id, weight, expected,
                              outgoing, incoming, c, |index.ids|, m);
    ScanningNext(index.ids, labels, rows, weights, c, p, m, next);
    return Ok(next);
  }

  ghost predicate ScansOk(rows: seq<EdgeRow>, validateEdgeIds: bool)
  {
    && (forall i :: 0 <= i < |rows| ==> HasOneType(rows[i]))
    && (validateEdgeIds ==> forall i, j :: 0 <= i < j < |rows| ==> rows[i].contents.id != rows[j].contents.id)
  }

  lemma NothingScanned(rows: seq<EdgeRow>, validateEdgeIds: bool)
    ensures ScansOk(rows[..0], validateEdgeIds)
  {
  }

  lemma ScansOkNext(rows: seq<EdgeRow>, validateEdgeIds: bool, p: Progress, m: nat)
    requires m < |rows| && rows[m].contents.id.Value? && SeenIds(p, rows, m) && ScansOk(rows[..m], validateEdgeIds)
    ensures ScansOk(rows[..m + 1], validateEdgeIds) <==>
      (validateEdgeIds ==> rows[m].contents.id.value !in p.seen) && HasOneType(rows[m])
    ensures ScansOk(rows, validateEdgeIds) ==> ScansOk(rows[..m + 1], validateEdgeIds)
  {
    var longer := rows[..m + 1];
    assert longer[m] == rows[m] && forall i :: 0 <= i < m ==> longer[i] == rows[..m][i] == rows[i];
  }

  /** The second scan puts every edge into its two slots. */
  method ScatterEdges(index: Index, labels: map<string, nat>, rows: seq<EdgeRow>, weights: seq<real>, expected: nat,
                      validateEdgeIds: bool,
                      outgoing: Side, incoming: Side)
    returns (result: Outcome<map<string, nat>>, ghost c: Columns)
    requires index.Valid() && SidesApart(outgoing, incoming) && |rows| == |weights| == expected
      && AllHaveEndpoints(index.ids, rows)
    requires Numbered(labels) && outgoing.labels.uniform && incoming.labels.uniform
    requires BothPlaced(ColumnsOf(index.ids, FinalLabels(labels, rows), rows, weights), |index.ids|, 0, outgoing,
                        incoming)
    modifies outgoing`cursor, outgoing`neighbors, outgoing`edgeIds, outgoing`weights, outgoing.labels
    modifies incoming`cursor, incoming`neighbors, incoming`edgeIds, incoming`weights, incoming.labels
    ensures c == ColumnsOf(index.ids, FinalLabels(labels, rows), rows, weights)
    ensures result.Ok? <==> ScansOk(rows, validateEdgeIds)
    ensures result.Ok? ==> BothPlaced(c, |index.ids|, |rows|, outgoing, incoming)
    ensures result.Ok? ==> result.value == FinalLabels(labels, rows) && Numbered(result.value)
  {
    hide *;
    c := ColumnsOf(index.ids, FinalLabels(labels, rows), rows, weights);
    var p := Progress(labels, {}, false, true, 0);
    var row: nat := 0;
    ScanningStarts(index.ids, labels, rows, weights, c, p, outgoing.labels, incoming.labels);
    NothingScanned(rows, validateEdgeIds);
    while row < |rows|
      invariant row <= |rows| && Scanning(index.ids, labels, rows, weights, c, p, row)
      invariant ScansOk(rows[..row], validateEdgeIds)
      invariant BothPlaced(c, |index.ids|, row, outgoing, incoming) && LabelsShared(p, outgoing.labels, incoming.labels)
    {
      ColumnsAt(index.ids, labels, rows, weights, c, p, row);
      ScanningIds(index.ids, labels, rows, weights, c, p, row);
      ScansOkNext(rows, validateEdgeIds, p, row);
      var placed := PlaceRow(index, rows[row], weights[row], validateEdgeIds, p, expected, outgoing, incoming, labels,
                             rows, weights, c, row);
      if placed.Failed? {
        return Failed(placed.error), c;
      }
      p := placed.value;
      row := row + 1;
    }
    assert rows[..row] == rows;
    ScanningIds(index.ids, labels, rows, weights, c, p, row);
    result := Ok(p.labels);
  }

  lemma ScanningStarts(ids: seq<nat>, labels: map<string, nat>, rows: seq<EdgeRow>, weights: seq<real>, c: Columns,
                       p: Progress,
                       outgoing: EdgeLabels, incoming: EdgeLabels)
    requires AllHaveEndpoints(ids, rows) && |rows| == |weights| && Numbered(labels)
    requires c == ColumnsOf(ids, FinalLabels(labels, rows), rows, weights)
    requires p == Progress(labels, {}, false, true, 0) && outgoing.uniform && incoming.uniform
    ensures Scanning(ids, labels, rows, weights, c, p, 0) && LabelsShared(p, outgoing, incoming)
  {
  }

  lemma ScanningIds(ids: seq<nat>, labels: map<string, nat>, rows: seq<EdgeRow>, weights: seq<real>, c: Columns,
                    p: Progress, m: nat)
    requires Scanning(ids, labels, rows, weights, c, p, m)
    ensures SeenIds(p, rows, m) && (m < |rows| ==> rows[m].contents.id.Value?)
    ensures m == |rows| ==> p.labels == FinalLabels(labels, rows) && Numbered(p.labels)
  {
    assert m < |rows| ==> HasEndpoints(ids, rows[m]);
  }

  // ----- the build -----

  /** Both adjacency structures, the label numbers, and whether edge keys follow row ids. */
  datatype BuiltEdges = BuiltEdges(outgoing: Adjacency, incoming: Adjacency, labels: map<string, nat>,
                                   idsMatchRowIds: bool)

  ghost predicate IsBuiltFrom(b: BuiltEdges, ids: seq<nat>, labels: map<string, nat>, rows: seq<EdgeRow>,
                              weights: seq<real>)
  {
    && b.labels == FinalLabels(labels, rows) && Numbered(b.labels) && (b.idsMatchRowIds ==> IdsMatchRowIds(rows))
    && IsScatterOf(b.outgoing, |ids|, ColumnsOf(ids, b.labels, rows, weights))
    && IsScatterOf(b.incoming, |ids|, Flipped(ColumnsOf(ids, b.labels, rows, weights)))
  }

  /** Counts over one scan, scatters over another of the same rows. */
  method BuildEdges(index: Index, labels: map<string, nat>, first: seq<EdgeRow>, second: seq<EdgeRow>,
                    weights: seq<real>, expected: nat,
                    managed: bool, validateEdgeIds: bool)
    returns (result: Outcome<BuiltEdges>)
    requires index.Valid() && Numbered(labels) && multiset(first) == multiset(second) && |weights| == |second|
    ensures result.Ok? <==>
      AllHaveEndpoints(index.ids, first) && |first| == expected && ScansOk(second, validateEdgeIds)
    ensures result.Ok? ==> IsBuiltFrom(result.value, index.ids, labels, second, weights)
    ensures result.Ok? ==> (result.value.idsMatchRowIds <==> managed && IdsMatchRowIds(first))
  {
    var n := |index.ids|;
    var outgoing := new Side(n);
    var incoming := new Side(n);
    NothingCounted(index.ids, first);
    var counted := CountEdges(index, first, expected, managed, outgoing, incoming);
    if counted.Failed? {
      return Failed(counted.error);
    }
    SameRows(index.ids, first, second);
    KeysAreBelow(index.ids, first, true);
    KeysAreBelow(index.ids, first, false);
    outgoing.FinalizeOffsets(Keys(index.ids, first, true), n);
    incoming.FinalizeOffsets(Keys(index.ids, first, false), n);
    OffsetsForOtherScan(index.ids, first, second, true, outgoing.offsets);
    OffsetsForOtherScan(index.ids, first, second, false, incoming.offsets);
    outgoing.Allocate(expected);
    incoming.Allocate(expected);
    ghost var c := ColumnsOf(index.ids, FinalLabels(labels, second), second, weights);
    ColumnsAreValid(index.ids, FinalLabels(labels, second), second, weights);
    NothingPlaced(outgoing, c, n);
    NothingPlaced(incoming, Flipped(c), n);
    hide *;
    BothStart(outgoing, incoming, c, n);
    var scattered;
    scattered, c := ScatterEdges(index, labels, second, weights, expected, validateEdgeIds, outgoing, incoming);
    if scattered.Failed? {
      return Failed(scattered.error);
    }
    if counted.value {
      IdsMatchInOtherScan(first, second);
    }
    result := Finish(index, labels, second, weights, outgoing, incoming, scattered.value, counted.value, c);
  }

  method Finish(index: Index, ghost labels: map<string, nat>, ghost rows: seq<EdgeRow>, ghost weights: seq<real>,
                outgoing: Side, incoming: Side,
                numbered: map<string, nat>, idsMatch: bool, ghost c: Columns)
    returns (result: Outcome<BuiltEdges>)
    requires |rows| == |weights| && numbered == FinalLabels(labels, rows) && Numbered(numbered)
    requires idsMatch ==> IdsMatchRowIds(rows)
    requires c == ColumnsOf(index.ids, numbered, rows, weights)
      && BothPlaced(c, |index.ids|, |rows|, outgoing, incoming)
    ensures result.Ok? && IsBuiltFrom(result.value, index.ids, labels, rows, weights)
      && result.value.idsMatchRowIds == idsMatch
  {
    hide FinalLabels, Numbered, IsScatterOf, Side.Placed;
    var out := outgoing.Freeze(c, |index.ids|);
    var inc := incoming.Freeze(Flipped(c), |index.ids|);
    result := Ok(BuiltEdges(out, inc, numbered, idsMatch));
  }

  lemma BothStart(outgoing: Side, incoming: Side, c: Columns, n: nat)
    requires outgoing.Placed(c, n, 0) && incoming.Placed(Flipped(c), n, 0)
    ensures BothPlaced(c, n, 0, outgoing, incoming)
  {
  }

  lemma NothingCounted(ids: seq<nat>, rows: seq<EdgeRow>)
    ensures BothCounted(ids, rows, 0, Repeated(|ids| + 1, 0), Repeated(|ids| + 1, 0))
  {
  }

  lemma SameRows(ids: seq<nat>, first: seq<EdgeRow>, second: seq<EdgeRow>)
    requires multiset(first) == multiset(second) && AllHaveEndpoints(ids, first)
    ensures |first| == |second| && AllHaveEndpoints(ids, second)
  {
    assert |multiset(first)| == |first| && |multiset(second)| == |second|;
    forall i | 0 <= i < |second|
      ensures HasEndpoints(ids, second[i])
    {
      assert second[i] in multiset(second) && second[i] in multiset(first);
      var j :| 0 <= j < |first| && first[j] == second[i];
      assert HasEndpoints(ids, first[j]);
    }
  }

  lemma NothingPlaced(side: Side, c: Columns, n: nat)
    requires c.Valid(n) && OffsetsOk(c.near, n, side.offsets) && side.cursor == side.offsets[..|side.offsets| - 1]
    requires |side.neighbors| == |side.edgeIds| == |side.weights| == |c.near| && side.labels.Valid()
      && |side.labels.All()| == |c.near|
    ensures side.Placed(c, n, 0)
  {
  }

  // ----- what a build is -----

  /** The two structures of a build are valid and transposed. */
  lemma BuildIsTransposed(b: BuiltEdges, ids: seq<nat>, labels: map<string, nat>, rows: seq<EdgeRow>,
                          weights: seq<real>)
    requires IsBuiltFrom(b, ids, labels, rows, weights) && Increasing(ids)
    ensures Snapshot(ids, b.outgoing, b.incoming).Valid()
  {
    var c := ColumnsOf(ids, b.labels, rows, weights);
    ScatterIsValid(b.outgoing, |ids|, c);
    ScatterIsValid(b.incoming, |ids|, Flipped(c));
    ScattersAreTransposed(b.outgoing, b.incoming, |ids|, c);
  }

  /** The edges of one vertex among the first `m` of a scan, as its row lists them. */
  ghost function RowEdges(c: Columns, o: nat, m: nat): seq<Edge>
    requires m <= |c.near| == |c.far| == |c.edgeIds| == |c.labels|
  {
    if m == 0 then []
    else
      RowEdges(c, o, m - 1)
      + (if c.near[m - 1] == o then [Edge(c.far[m - 1], c.edgeIds[m - 1], c.labels[m - 1])] else [])
  }

  lemma {:induction false} RowEdgesArePicked(c: Columns, o: nat, m: nat)
    requires m <= |c.near| == |c.far| == |c.edgeIds| == |c.labels|
    ensures |RowEdges(c, o, m)| == Count(c.near, o, m)
    ensures forall j :: 0 <= j < |RowEdges(c, o, m)| ==>
              var i := Picked(c.near, o, m)[j]; RowEdges(c, o, m)[j] == Edge(c.far[i], c.edgeIds[i], c.labels[i])
  {
    if m > 0 {
      RowEdgesArePicked(c, o, m - 1);
    }
  }

  /** Without a delta a traversal reads exactly a vertex's edges of the scan, in its order. */
  lemma BuiltRow(adj: Adjacency, n: nat, c: Columns, o: nat)
    requires IsScatterOf(adj, n, c) && adj.Valid(n)
    ensures View(adj, n, map[]).Row(o) == if o < n then RowEdges(c, o, |c.near|) else []
  {
    var view := View(adj, n, map[]);
    if o < n {
      RowEdgesArePicked(c, o, |c.near|);
      BelowStep(c.near, o, |c.near|);
      forall j: nat | j < |RowEdges(c, o, |c.near|)|
        ensures view.Row(o)[j] == RowEdges(c, o, |c.near|)[j]
      {
        RowListsEdges(adj, n, c, o, j);
        assert view.Row(o)[j] == view.BaseEdge(view.BaseStart(o) + j);
      }
    }
  }

  /** The labels that some edge of the scan has. */
  ghost function UsedLabels(labels: map<string, nat>, rows: seq<EdgeRow>): map<string, nat>
  {
    map name | name in labels && IsUsed(rows, name) :: labels[name]
  }

  ghost predicate IsUsed(rows: seq<EdgeRow>, name: string)
  {
    exists i :: 0 <= i < |rows| && rows[i].contents.name.Value? && rows[i].contents.Label() == name
  }

  lemma RowIsUsable(ids: seq<nat>, labels: map<string, nat>, rows: seq<EdgeRow>, i: nat)
    requires i < |rows| && HasEndpoints(ids, rows[i]) && HasOneType(rows[i])
    ensures IsUsable(UsedLabels(FinalLabels(labels, rows), rows), ids, rows[i].contents)
  {
    var name := rows[i].contents.Label();
    assert IsUsed(rows, name);
    NumbersStay(labels, rows, i + 1, |rows|, name);
  }

  lemma RowsAreUsable(ids: seq<nat>, labels: map<string, nat>, rows: seq<EdgeRow>)
    requires AllHaveEndpoints(ids, rows) && ScansOk(rows, false)
    ensures AllUsable(UsedLabels(FinalLabels(labels, rows), rows), ids, rows)
  {
    hide IsUsable, HasEndpoints, HasOneType, UsedLabels, FinalLabels;
    forall i: nat | i < |rows|
      ensures IsUsable(UsedLabels(FinalLabels(labels, rows), rows), ids, rows[i].contents)
    {
      RowIsUsable(ids, labels, rows, i);
    }
  }

  lemma IncidentNext(labels: map<string, nat>, ids: seq<nat>, rows: seq<EdgeRow>, m: nat, id: nat, outgoing: bool)
    requires m < |rows| && IsUsable(labels, ids, rows[m].contents)
    ensures Incident(labels, ids, rows[..m + 1], id, outgoing) == Incident(labels, ids, rows[..m], id, outgoing)
      + (if Near(rows[m].contents, outgoing) == Value(id) then multiset{IncidenceOf(labels, rows[m].contents, outgoing)}
         else multiset{})
  {
    assert rows[..m + 1][..m] == rows[..m];
  }

  /** The column entry of a row describes the row's edge. */
  lemma ColumnMeets(ids: seq<nat>, labels: map<string, nat>, c: Columns, m: nat, r: EdgeRow, o: nat, outgoing: bool)
    requires m < |c.near| == |c.far| == |c.edgeIds| == |c.labels| && IsColumnOf(ids, labels, c, m, r, outgoing)
    requires Increasing(ids) && o < |ids| && Injective(labels)
    ensures c.far[m] < |ids| && (c.near[m] == o <==> Near(r.contents, outgoing) == Value(ids[o]))
    ensures Incidence(ids[c.far[m]], c.edgeIds[m], NameOf(labels, c.labels[m]))
      == IncidenceOf(labels, r.contents, outgoing)
  {
    NameIsUnique(labels, r.contents.Label());
    assert Near(r.contents, outgoing) == Value(ids[c.near[m]]);
    if ids[c.near[m]] == ids[o] {
      assert !(c.near[m] < o) && !(o < c.near[m]);
    }
  }

  /** At every vertex the scan's edges are the edge table's. */
  lemma {:induction false} RowEdgesMeet(ids: seq<nat>, labels: map<string, nat>, rows: seq<EdgeRow>, c: Columns, o: nat,
                                        outgoing: bool, m: nat)
    requires Increasing(ids) && o < |ids| && AllUsable(labels, ids, rows) && Injective(labels)
    requires m <= |rows| == |c.near| == |c.far| == |c.edgeIds| == |c.labels|
    requires forall i :: 0 <= i < |rows| ==> IsColumnOf(ids, labels, c, i, rows[i], outgoing)
    ensures Met(labels, ids, RowEdges(c, o, m)) == Incident(labels, ids, rows[..m], ids[o], outgoing)
  {
    if m > 0 {
      RowEdgesMeet(ids, labels, rows, c, o, outgoing, m - 1);
      assert IsColumnOf(ids, labels, c, m - 1, rows[m - 1], outgoing) && IsUsable(labels, ids, rows[m - 1].contents);
      ColumnMeets(ids, labels, c, m - 1, rows[m - 1], o, outgoing);
      hide IsColumnOf, AllUsable, Near, IncidenceOf, NameOf, Met, Incident;
      IncidentNext(labels, ids, rows, m - 1, ids[o], outgoing);
      assert RowEdges(c, o, m - 1) + [] == RowEdges(c, o, m - 1);
      if c.near[m - 1] == o {
        MetLast(labels, ids, RowEdges(c, o, m - 1), Edge(c.far[m - 1], c.edgeIds[m - 1], c.labels[m - 1]));
      }
    }
  }

  ghost predicate IsColumnOf(ids: seq<nat>, labels: map<string, nat>, c: Columns, i: nat, r: EdgeRow, outgoing: bool)
    requires i < |c.near| == |c.far| == |c.edgeIds| == |c.labels|
  {
    && IsUsable(labels, ids, r.contents) && c.near[i] == KeyOf(ids, r, outgoing) && c.far[i] == KeyOf(ids, r, !outgoing)
    && r.contents.id == Value(c.edgeIds[i]) && c.labels[i] == labels[r.contents.Label()]
  }

  lemma ColumnsMatchRows(ids: seq<nat>, numbered: map<string, nat>, rows: seq<EdgeRow>, weights: seq<real>, i: nat,
                         outgoing: bool)
    requires i < |rows| == |weights| && AllUsable(UsedLabels(numbered, rows), ids, rows)
    ensures var c := ColumnsOf(ids, numbered, rows, weights);
      IsColumnOf(ids, UsedLabels(numbered, rows), if outgoing then c else Flipped(c), i, rows[i], outgoing)
  {
    assert IsUsable(UsedLabels(numbered, rows), ids, rows[i].contents);
  }

  lemma RowShows(adj: Adjacency, ids: seq<nat>, used: map<string, nat>, rows: seq<EdgeRow>, c: Columns, met: Rows,
                 outgoing: bool, o: nat)
    requires IsScatterOf(adj, |ids|, c) && adj.Valid(|ids|) && Increasing(ids) && AllUsable(used, ids, rows)
      && Injective(used)
    requires |rows| == |c.near| && forall i :: 0 <= i < |rows| ==> IsColumnOf(ids, used, c, i, rows[i], outgoing)
    requires met == AllRows(View(adj, |ids|, map[]))
    ensures RowInside(ids, o, met(o))
    ensures o < |ids| ==> Met(used, ids, met(o)) == Incident(used, ids, rows, ids[o], outgoing)
  {
    BuiltRow(adj, |ids|, c, o);
    assert met(o) == View(adj, |ids|, map[]).Row(o);
    hide View.Row, IsColumnOf, AllUsable, Injective, AllRows;
    if o < |ids| {
      RowEdgesArePicked(c, o, |c.near|);
      RowEdgesMeet(ids, used, rows, c, o, outgoing, |rows|);
      assert rows[..|rows|] == rows;
    }
  }

  lemma ScatterShowsRows(adj: Adjacency, ids: seq<nat>, used: map<string, nat>, rows: seq<EdgeRow>, c: Columns,
                         met: Rows, outgoing: bool)
    requires IsScatterOf(adj, |ids|, c) && adj.Valid(|ids|) && Increasing(ids) && AllUsable(used, ids, rows)
      && Injective(used)
    requires |rows| == |c.near| && forall i :: 0 <= i < |rows| ==> IsColumnOf(ids, used, c, i, rows[i], outgoing)
    requires met == AllRows(View(adj, |ids|, map[]))
    ensures ShowsRows(used, ids, met, rows, outgoing)
  {
    hide IsScatterOf, Increasing, AllUsable, Injective, AllRows, IsColumnOf, RowInside, Adjacency.Valid;
    forall o: nat
      ensures RowInside(ids, o, met(o))
      ensures o < |ids| ==> Met(used, ids, met(o)) == Incident(used, ids, rows, ids[o], outgoing)
    {
      RowShows(adj, ids, used, rows, c, met, outgoing, o);
    }
  }

  lemma UsedIsInjective(labels: map<string, nat>, rows: seq<EdgeRow>)
    requires Numbered(labels)
    ensures Injective(UsedLabels(labels, rows))
  {
  }

  lemma BuiltShowsRows(adj: Adjacency, ids: seq<nat>, labels: map<string, nat>, rows: seq<EdgeRow>, weights: seq<real>,
                       c: Columns, outgoing: bool)
    requires AllHaveEndpoints(ids, rows) && ScansOk(rows, false) && Increasing(ids) && |weights| == |rows|
      && Numbered(FinalLabels(labels, rows))
    requires var all := ColumnsOf(ids, FinalLabels(labels, rows), rows, weights); c == if outgoing then all
      else Flipped(all)
    requires IsScatterOf(adj, |ids|, c)
    ensures ShowsEdges(UsedLabels(FinalLabels(labels, rows), rows), ids, View(adj, |ids|, map[]), rows, outgoing)
  {
    var numbered := FinalLabels(labels, rows);
    var used, view := UsedLabels(numbered, rows), View(adj, |ids|, map[]);
    RowsAreUsable(ids, labels, rows);
    UsedIsInjective(numbered, rows);
    ScatterIsValid(adj, |ids|, c);
    forall i: nat | i < |rows|
      ensures IsColumnOf(ids, used, c, i, rows[i], outgoing)
    {
      ColumnsMatchRows(ids, numbered, rows, weights, i, outgoing);
    }
    assert |rows| == |c.near|;
    hide *;
    ScatterShowsRows(adj, ids, used, rows, c, AllRows(view), outgoing);
    ShowsRowsShowsEdges(used, ids, view, rows, outgoing);
  }

  lemma ShowsRowsShowsEdges(labels: map<string, nat>, ids: seq<nat>, view: View, rows: seq<EdgeRow>, outgoing: bool)
    requires view.Valid() && ShowsRows(labels, ids, AllRows(view), rows, outgoing)
    ensures ShowsEdges(labels, ids, view, rows, outgoing)
  {
  }

  lemma VerticesAreHeld(ids: seq<nat>, vertices: seq<VertexRow>)
    requires Increasing(ids) && |vertices| == |ids| && forall i :: 0 <= i < |vertices| ==>
      vertices[i].contents.id == Value(ids[i])
    ensures HoldsVertices(ids, vertices)
  {
    forall id | id in ids
      ensures exists i :: 0 <= i < |vertices| && vertices[i].contents.id == Value(id)
    {
      var i :| 0 <= i < |ids| && ids[i] == id;
      assert vertices[i].contents.id == Value(id);
    }
  }

  function NoDelta(vertexMark: nat, edgeMark: nat): DeltaRows
  {
    DeltaRows([], map[], map[], map[], 0, vertexMark, edgeMark)
  }

  lemma EdgesAreHeld(base: Base, delta: DeltaRows, rows: seq<EdgeRow>)
    requires delta.vertexIds == [] && delta.outgoing == map[] && delta.incoming == map[] && delta.edgeCount == 0
      && base.edgeCount == |rows|
    requires AllUsable(base.edgeLabels, base.index.ids, rows)
    requires ShowsEdges(base.edgeLabels, base.index.ids, View(base.outgoing, |base.index.ids|, map[]), rows, true)
    requires ShowsEdges(base.edgeLabels, base.index.ids, View(base.incoming, |base.index.ids|, map[]), rows, false)
    ensures HoldsEdges(base, delta, rows)
  {
    hide ShowsEdges, AllUsable;
    assert Ids(base, delta) == base.index.ids;
  }

  /** A build with an empty delta is exactly the rows of the two tables. */
  lemma BuildRepresentsRows(index: Index, b: BuiltEdges, labels: map<string, nat>, vertexLabels: set<string>,
                            vertices: seq<VertexRow>,
                            edges: seq<EdgeRow>, weights: seq<real>, vertexMark: nat, edgeMark: nat)
    requires index.Valid() && IsBuiltFrom(b, index.ids, labels, edges, weights) && |weights| == |edges|
    requires AllHaveEndpoints(index.ids, edges) && ScansOk(edges, false)
    requires |vertices| == |index.ids| && forall i :: 0 <= i < |vertices| ==>
      vertices[i].contents.id == Value(index.ids[i])
    requires LabelsPopulated(vertexLabels, vertices)
    ensures Represents(Base(index, b.outgoing, b.incoming, |edges|, UsedLabels(b.labels, edges), vertexLabels,
                            b.idsMatchRowIds),
                       NoDelta(vertexMark, edgeMark), vertices, edges)
  {
    var base := Base(index, b.outgoing, b.incoming, |edges|, UsedLabels(b.labels, edges), vertexLabels,
                     b.idsMatchRowIds);
    var delta := NoDelta(vertexMark, edgeMark);
    IndexIsIncreasing(index);
    NoDeltaIsEmpty(base, vertexMark, edgeMark);
    assert base.edgeIdsMatchRowIds ==> IdsMatchRowIds(edges);
    hide *;
    VerticesAreHeld(index.ids, vertices);
    BuiltBaseIsValid(index, b, labels, edges, weights, base);
    BuiltEdgesAreHeld(index, b, labels, edges, weights, base, delta);
    AllIsHeld(base, delta, vertices, edges);
  }

  lemma IndexIsIncreasing(index: Index)
    requires index.Valid()
    ensures Increasing(index.ids)
  {
  }

  lemma NoDeltaIsEmpty(base: Base, vertexMark: nat, edgeMark: nat)
    ensures var delta := NoDelta(vertexMark, edgeMark);
      && delta.vertexIds == [] && delta.outgoing == map[] && delta.incoming == map[] && delta.edgeCount == 0
      && Ids(base, delta) == base.index.ids && IndexesDelta(base, delta)
  {
  }

  lemma AllIsHeld(base: Base, delta: DeltaRows, vertices: seq<VertexRow>, edges: seq<EdgeRow>)
    requires base.Valid() && IndexesDelta(base, delta)
    requires HoldsVertices(Ids(base, delta), vertices) && HoldsEdges(base, delta, edges)
    requires LabelsPopulated(base.vertexLabels, vertices) && (base.edgeIdsMatchRowIds ==> IdsMatchRowIds(edges))
    ensures Represents(base, delta, vertices, edges)
  {
  }

  lemma BuiltBaseIsValid(index: Index, b: BuiltEdges, labels: map<string, nat>, edges: seq<EdgeRow>, weights: seq<real>,
                         base: Base)
    requires index.Valid() && IsBuiltFrom(b, index.ids, labels, edges, weights)
    requires base.index == index && base.outgoing == b.outgoing && base.incoming == b.incoming
      && base.edgeLabels == UsedLabels(b.labels, edges)
    ensures base.Valid()
  {
    var all := ColumnsOf(index.ids, b.labels, edges, weights);
    UsedIsInjective(b.labels, edges);
    ScatterIsValid(b.outgoing, |index.ids|, all);
    ScatterIsValid(b.incoming, |index.ids|, Flipped(all));
  }

  lemma BuiltEdgesAreHeld(index: Index, b: BuiltEdges, labels: map<string, nat>, edges: seq<EdgeRow>,
                          weights: seq<real>, base: Base,
                          delta: DeltaRows)
    requires index.Valid() && IsBuiltFrom(b, index.ids, labels, edges, weights) && |weights| == |edges|
    requires AllHaveEndpoints(index.ids, edges) && ScansOk(edges, false)
    requires base.index == index && base.outgoing == b.outgoing && base.incoming == b.incoming
      && base.edgeLabels == UsedLabels(b.labels, edges)
    requires base.edgeCount == |edges| && delta.vertexIds == [] && delta.outgoing == map[] && delta.incoming == map[]
      && delta.edgeCount == 0
    ensures HoldsEdges(base, delta, edges)
  {
    var all := ColumnsOf(index.ids, b.labels, edges, weights);
    hide Increasing, AllHaveEndpoints, ScansOk, Numbered, IsScatterOf, AllUsable, ShowsEdges, UsedLabels, FinalLabels,
        ColumnsOf;
    RowsAreUsable(index.ids, labels, edges);
    BuiltShowsRows(b.outgoing, index.ids, labels, edges, weights, all, true);
    BuiltShowsRows(b.incoming, index.ids, labels, edges, weights, Flipped(all), false);
    EdgesAreHeld(base, delta, edges);
  }
}
