/** A binary heap of vertices with the place of every vertex, over any strict total order. */
module IndexedHeap {

  type Order = (nat, nat) -> bool

  datatype Position = Absent | At(index: nat)

  ghost predicate IsOrder(less: Order)
  {
    && (forall x: nat :: !less(x, x))
    && (forall x: nat, y: nat, z: nat :: less(x, y) && less(y, z) ==> less(x, z))
    && (forall x: nat, y: nat :: less(x, y) || less(y, x) || x == y)
  }

  function ParentOf(i: nat): (p: nat)
    requires i > 0
    ensures p < i && (i == 2 * p + 1 || i == 2 * p + 2)
  {
    (i - 1) / 2
  }

  /** Every vertex stands where its position says, and only there. */
  ghost predicate Indexed(heap: seq<nat>, positions: seq<Position>)
  {
    && (forall i :: 0 <= i < |heap| ==> heap[i] < |positions| && positions[heap[i]] == At(i))
    && (forall v :: 0 <= v < |positions| && positions[v].At? ==>
        positions[v].index < |heap| && heap[positions[v].index] == v)
  }

  predicate Contains(positions: seq<Position>, v: nat)
  {
    v < |positions| && positions[v].At?
  }

  /** No vertex comes before the one above it. */
  ghost predicate InOrderAt(heap: seq<nat>, less: Order, i: nat)
    requires i < |heap|
  {
    i > 0 ==> !less(heap[i], heap[ParentOf(i)])
  }

  ghost predicate InOrder(heap: seq<nat>, less: Order)
  {
    forall i: nat :: i < |heap| ==> InOrderAt(heap, less, i)
  }

  /** The children of `p` do not come before what is above `p`. */
  ghost predicate SkipsInOrder(heap: seq<nat>, less: Order, p: nat)
    requires p < |heap|
  {
    p > 0 ==> forall i: nat :: 0 < i < |heap| && ParentOf(i) == p ==> !less(heap[i], heap[ParentOf(p)])
  }

  /** Only the vertex at `p` may come before the one above it. */
  ghost predicate RisesAt(heap: seq<nat>, less: Order, p: nat)
  {
    && p < |heap| && SkipsInOrder(heap, less, p)
    && forall i: nat :: i < |heap| && i != p ==> InOrderAt(heap, less, i)
  }

  /** Only the children of `p` may come before it. */
  ghost predicate SinksAt(heap: seq<nat>, less: Order, p: nat)
  {
    && p < |heap| && SkipsInOrder(heap, less, p)
    && forall i: nat :: i < |heap| && !(i > 0 && ParentOf(i) == p) ==> InOrderAt(heap, less, i)
  }

  function Swapped(heap: seq<nat>, i: nat, j: nat): seq<nat>
    requires i < |heap| && j < |heap|
  {
    heap[i := heap[j]][j := heap[i]]
  }

  /** Positions after the two vertices at these places have changed places. */
  function Exchanged(heap: seq<nat>, positions: seq<Position>, i: nat, j: nat): seq<Position>
    requires i < |heap| && j < |heap| && heap[i] < |positions| && heap[j] < |positions|
  {
    positions[heap[j] := At(i)][heap[i] := At(j)]
  }

  lemma SwapKeepsPositions(heap: seq<nat>, positions: seq<Position>, i: nat, j: nat)
    requires Indexed(heap, positions) && i < |heap| && j < |heap|
    ensures Indexed(Swapped(heap, i, j), Exchanged(heap, positions, i, j))
    ensures forall v: nat :: Contains(Exchanged(heap, positions, i, j), v) <==> Contains(positions, v)
  {
    assert heap[i] == heap[j] ==> i == j;
  }

  lemma RiseStep(heap: seq<nat>, less: Order, p: nat)
    requires IsOrder(less) && RisesAt(heap, less, p) && p > 0 && less(heap[p], heap[ParentOf(p)])
    ensures RisesAt(Swapped(heap, p, ParentOf(p)), less, ParentOf(p))
  {
    var q := ParentOf(p);
    var h := Swapped(heap, p, q);
    forall i: nat | i < |h| && i != q
      ensures InOrderAt(h, less, i)
    {
      if i > 0 {
        assert i != p ==> InOrderAt(heap, less, i);
      }
    }
    if q > 0 {
      assert InOrderAt(heap, less, q);
      forall i: nat | 0 < i < |h| && ParentOf(i) == q
        ensures !less(h[i], h[ParentOf(q)])
      {
        assert i != p ==> InOrderAt(heap, less, i);
      }
    }
  }

  lemma RiseEnds(heap: seq<nat>, less: Order, p: nat)
    requires RisesAt(heap, less, p) && InOrderAt(heap, less, p)
    ensures InOrder(heap, less)
  {
  }

  /** The child that comes first. */
  ghost predicate IsFirstChild(heap: seq<nat>, less: Order, p: nat, c: nat)
  {
    && 0 < c < |heap| && p < |heap| && ParentOf(c) == p
    && forall i: nat :: 0 < i < |heap| && ParentOf(i) == p ==> !less(heap[i], heap[c])
  }

  lemma SinkStep(heap: seq<nat>, less: Order, p: nat, c: nat)
    requires IsOrder(less) && SinksAt(heap, less, p) && IsFirstChild(heap, less, p, c) && less(heap[c], heap[p])
    ensures SinksAt(Swapped(heap, p, c), less, c)
  {
    var h := Swapped(heap, p, c);
    forall i: nat | i < |h| && !(i > 0 && ParentOf(i) == c)
      ensures InOrderAt(h, less, i)
    {
      if i > 0 && ParentOf(i) != p {
        assert InOrderAt(heap, less, i);
      }
    }
    forall i: nat | 0 < i < |h| && ParentOf(i) == c
      ensures !less(h[i], h[ParentOf(c)])
    {
      assert InOrderAt(heap, less, i);
    }
  }

  lemma SinkPlace(heap: seq<nat>, less: Order, p: nat)
    requires SinksAt(heap, less, p)
    ensures p < |heap|
  {
  }

  lemma SinkEnds(heap: seq<nat>, less: Order, p: nat)
    requires IsOrder(less) && SinksAt(heap, less, p)
    requires 2 * p + 1 < |heap| ==> exists c: nat :: IsFirstChild(heap, less, p, c) && !less(heap[c], heap[p])
    ensures InOrder(heap, less)
  {
    forall i: nat | i < |heap|
      ensures InOrderAt(heap, less, i)
    {
      if i > 0 && ParentOf(i) == p {
        var c: nat :| IsFirstChild(heap, less, p, c) && !less(heap[c], heap[p]);
        assert !less(heap[i], heap[c]);
      }
    }
  }

  lemma {:induction false} RootIsFirst(heap: seq<nat>, less: Order, i: nat)
    requires IsOrder(less) && InOrder(heap, less) && i < |heap|
    ensures !less(heap[i], heap[0])
    decreases i
  {
    if i > 0 {
      RootIsFirst(heap, less, ParentOf(i));
      assert InOrderAt(heap, less, i);
    }
  }

  /** `after` differs from `before` only in that `v` may come earlier. */
  ghost predicate Hastens(before: Order, after: Order, v: nat)
  {
    && (forall x: nat, y: nat :: x != v && y != v ==> after(x, y) == before(x, y))
    && (forall x: nat :: x != v && after(x, v) ==> before(x, v))
  }

  /** A vertex whose key falls may have to rise. */
  lemma HastenedRises(heap: seq<nat>, positions: seq<Position>, before: Order, after: Order, v: nat)
    requires IsOrder(before) && IsOrder(after) && Hastens(before, after, v)
    requires Indexed(heap, positions) && InOrder(heap, before) && Contains(positions, v)
    ensures RisesAt(heap, after, positions[v].index)
  {
    var p := positions[v].index;
    forall i: nat | i < |heap| && i != p
      ensures InOrderAt(heap, after, i)
    {
      assert heap[i] != v;
      assert InOrderAt(heap, before, i);
    }
    if p > 0 {
      forall i: nat | 0 < i < |heap| && ParentOf(i) == p
        ensures !after(heap[i], heap[ParentOf(p)])
      {
        assert InOrderAt(heap, before, i) && InOrderAt(heap, before, p);
        assert heap[i] != v && heap[ParentOf(p)] != v;
      }
    }
  }

  lemma HastenedOutside(heap: seq<nat>, before: Order, after: Order, v: nat)
    requires Hastens(before, after, v) && InOrder(heap, before) && v !in heap
    ensures InOrder(heap, after)
  {
    forall i: nat | i < |heap|
      ensures InOrderAt(heap, after, i)
    {
      assert InOrderAt(heap, before, i);
    }
  }

  lemma AppendedRises(heap: seq<nat>, less: Order, v: nat)
    requires InOrder(heap, less)
    ensures RisesAt(heap + [v], less, |heap|)
  {
    var h := heap + [v];
    forall i: nat | i < |h| && i != |heap|
      ensures InOrderAt(h, less, i)
    {
      assert InOrderAt(heap, less, i);
    }
  }

  lemma AppendedIsIndexed(heap: seq<nat>, positions: seq<Position>, v: nat)
    requires Indexed(heap, positions) && v < |positions| && positions[v].Absent?
    ensures Indexed(heap + [v], positions[v := At(|heap|)])
  {
  }

  /** The heap after its first vertex has been exchanged with its last and dropped. */
  lemma RemovedSinks(heap: seq<nat>, less: Order)
    requires InOrder(heap, less) && |heap| > 1
    ensures SinksAt(Swapped(heap, 0, |heap| - 1)[..|heap| - 1], less, 0)
  {
    var h := Swapped(heap, 0, |heap| - 1)[..|heap| - 1];
    forall i: nat | i < |h| && !(i > 0 && ParentOf(i) == 0)
      ensures InOrderAt(h, less, i)
    {
      assert InOrderAt(heap, less, i);
    }
  }

  lemma RemovedIsIndexed(heap: seq<nat>, positions: seq<Position>)
    requires Indexed(heap, positions) && |heap| > 0
    ensures var h := Swapped(heap, 0, |heap| - 1); var ps := Exchanged(heap, positions, 0, |heap| - 1);
      && heap[0] < |ps| && Indexed(h[..|heap| - 1], ps[heap[0] := Absent])
      && forall v: nat :: Contains(ps[heap[0] := Absent], v) <==> Contains(positions, v) && v != heap[0]
  {
    SwapKeepsPositions(heap, positions, 0, |heap| - 1);
  }
}
