/** Bucketing by counting: sizes, prefix sums, then one cursor per bucket. */
module CountingSort {

  /** How many of the first `m` items have key `k`. */
  ghost function Count(keys: seq<nat>, k: nat, m: nat): nat
    requires m <= |keys|
  {
    if m == 0 then 0 else Count(keys, k, m - 1) + (if keys[m - 1] == k then 1 else 0)
  }

  /** How many of the first `m` items have a key smaller than `k`. */
  ghost function Below(keys: seq<nat>, k: nat, m: nat): nat
    requires m <= |keys|
  {
    if m == 0 then 0 else Below(keys, k, m - 1) + (if keys[m - 1] < k then 1 else 0)
  }

  /** The items with key `k` among the first `m`, in order. */
  ghost function Picked(keys: seq<nat>, k: nat, m: nat): (s: seq<nat>)
    requires m <= |keys|
    ensures |s| == Count(keys, k, m)
    ensures forall j :: 0 <= j < |s| ==> s[j] < m && keys[s[j]] == k
  {
    if m == 0 then [] else Picked(keys, k, m - 1) + (if keys[m - 1] == k then [m - 1] else [])
  }

  ghost function Start(keys: seq<nat>, k: nat): nat
  {
    Below(keys, k, |keys|)
  }

  /** Where the scatter puts item `i`. */
  ghost function Slot(keys: seq<nat>, i: nat): nat
    requires i < |keys|
  {
    Start(keys, keys[i]) + Count(keys, keys[i], i)
  }

  lemma {:induction false} BelowStep(keys: seq<nat>, k: nat, m: nat)
    requires m <= |keys|
    ensures Below(keys, k + 1, m) == Below(keys, k, m) + Count(keys, k, m)
  {
    if m > 0 {
      BelowStep(keys, k, m - 1);
    }
  }

  lemma {:induction false} BelowAll(keys: seq<nat>, n: nat, m: nat)
    requires m <= |keys| && forall i :: 0 <= i < m ==> keys[i] < n
    ensures Below(keys, n, m) == m && Below(keys, 0, m) == 0
  {
    if m > 0 {
      BelowAll(keys, n, m - 1);
    }
  }

  lemma {:induction false} StartMonotone(keys: seq<nat>, j: nat, k: nat)
    requires j <= k
    ensures Start(keys, j) <= Start(keys, k)
    decreases k
  {
    if j < k {
      StartMonotone(keys, j, k - 1);
      BelowStep(keys, k - 1, |keys|);
    }
  }

  /** An item comes after exactly as many items of its bucket as precede it in the input. */
  lemma {:induction false} PickedAt(keys: seq<nat>, i: nat, m: nat)
    requires i < m <= |keys|
    ensures Count(keys, keys[i], i) < Count(keys, keys[i], m)
    ensures Picked(keys, keys[i], m)[Count(keys, keys[i], i)] == i
    decreases m
  {
    if i < m - 1 {
      PickedAt(keys, i, m - 1);
    }
  }

  lemma SlotInRow(keys: seq<nat>, i: nat)
    requires i < |keys|
    ensures Start(keys, keys[i]) <= Slot(keys, i) < Start(keys, keys[i] + 1)
  {
    PickedAt(keys, i, |keys|);
    BelowStep(keys, keys[i], |keys|);
  }

  /** The scatter never writes a slot twice. */
  lemma SlotsDiffer(keys: seq<nat>, i: nat, j: nat)
    requires i < |keys| && j < |keys| && i != j
    ensures Slot(keys, i) != Slot(keys, j)
  {
    SlotInRow(keys, i);
    SlotInRow(keys, j);
    if keys[i] < keys[j] {
      StartMonotone(keys, keys[i] + 1, keys[j]);
    } else if keys[j] < keys[i] {
      StartMonotone(keys, keys[j] + 1, keys[i]);
    } else {
      PickedAt(keys, i, |keys|);
      PickedAt(keys, j, |keys|);
    }
  }

  lemma SlotInside(keys: seq<nat>, n: nat, i: nat)
    requires i < |keys| && forall j :: 0 <= j < |keys| ==> keys[j] < n
    ensures Slot(keys, i) < |keys|
  {
    SlotInRow(keys, i);
    StartMonotone(keys, keys[i] + 1, n);
    BelowAll(keys, n, |keys|);
  }

  /** A column scattered over the slots lists each bucket's values in input order. */
  lemma ScatteredRow<T>(keys: seq<nat>, n: nat, values: seq<T>, column: seq<T>, k: nat)
    requires |values| == |column| == |keys| && k < n && forall j :: 0 <= j < |keys| ==> keys[j] < n
    requires forall i: nat :: i < |keys| ==> Slot(keys, i) < |column| && column[Slot(keys, i)] == values[i]
    ensures Start(keys, k) <= Start(keys, k + 1) <= |column|
    ensures column[Start(keys, k)..Start(keys, k + 1)]
      == seq(|Picked(keys, k, |keys|)|,
             j requires 0 <= j < |Picked(keys, k, |keys|)| => values[Picked(keys, k, |keys|)[j]])
  {
    var picked := Picked(keys, k, |keys|);
    BelowStep(keys, k, |keys|);
    StartMonotone(keys, k + 1, n);
    BelowAll(keys, n, |keys|);
    forall j: nat | j < |picked|
      ensures column[Start(keys, k) + j] == values[picked[j]]
    {
      PickedIsAt(keys, k, j);
    }
  }

  lemma PickedIsAt(keys: seq<nat>, k: nat, j: nat)
    requires j < Count(keys, k, |keys|)
    ensures Slot(keys, Picked(keys, k, |keys|)[j]) == Start(keys, k) + j
  {
    PickedCount(keys, k, j, |keys|);
  }

  lemma {:induction false} PickedCount(keys: seq<nat>, k: nat, j: nat, m: nat)
    requires m <= |keys| && j < Count(keys, k, m)
    ensures Count(keys, k, Picked(keys, k, m)[j]) == j
    decreases m
  {
    if j < Count(keys, k, m - 1) {
      PickedCount(keys, k, j, m - 1);
    }
  }

  /** Counts each key one place up, then adds up the prefix. */
  method Offsets(keys: seq<nat>, n: nat) returns (offsets: seq<nat>)
    requires forall i :: 0 <= i < |keys| ==> keys[i] < n
    ensures |offsets| == n + 1 && forall k: nat :: k <= n ==> offsets[k] == Start(keys, k)
  {
    offsets := seq(n + 1, _ => 0);
    for i := 0 to |keys|
      invariant |offsets| == n + 1 && offsets[0] == 0
      invariant forall k: nat :: k < n ==> offsets[k + 1] == Count(keys, k, i)
    {
      offsets := offsets[keys[i] + 1 := offsets[keys[i] + 1] + 1];
    }
    BelowAll(keys, n, |keys|);
    for k := 0 to n
      invariant |offsets| == n + 1
      invariant forall j: nat :: j <= k ==> offsets[j] == Start(keys, j)
      invariant forall j: nat :: k <= j < n ==> offsets[j + 1] == Count(keys, j, |keys|)
    {
      BelowStep(keys, k, |keys|);
      offsets := offsets[k + 1 := offsets[k + 1] + offsets[k]];
    }
  }

  /** The first `m` values stand in the slots of their items. */
  ghost predicate Scattered<T>(near: seq<nat>, values: seq<T>, column: seq<T>, m: nat)
    requires m <= |near| == |values|
  {
    |column| == |near| && forall i: nat :: i < m ==> Slot(near, i) < |column| && column[Slot(near, i)] == values[i]
  }

  lemma ScatterNext<T>(near: seq<nat>, n: nat, values: seq<T>, column: seq<T>, m: nat)
    requires m < |near| == |values| && Scattered(near, values, column, m) && AllBelow(near, n)
    ensures Slot(near, m) < |column| && Scattered(near, values, column[Slot(near, m) := values[m]], m + 1)
  {
    SlotInside(near, n, m);
    forall i: nat | i < m
      ensures Slot(near, i) != Slot(near, m)
    {
      SlotsDiffer(near, i, m);
    }
  }

  ghost predicate AllBelow(keys: seq<nat>, n: nat)
  {
    forall i :: 0 <= i < |keys| ==> keys[i] < n
  }

  /** The cursor of each row stands behind the edges placed in it so far. */
  ghost predicate CursorsAt(near: seq<nat>, n: nat, cursor: seq<nat>, m: nat)
    requires m <= |near|
  {
    |cursor| == n && forall k: nat :: k < n ==> cursor[k] == Start(near, k) + Count(near, k, m)
  }

  ghost predicate OffsetsOk(near: seq<nat>, n: nat, offsets: seq<nat>)
  {
    |offsets| == n + 1 && forall k: nat :: k <= n ==> offsets[k] == Start(near, k)
  }

  lemma {:induction false} EverySlotIsFilled(near: seq<nat>, n: nat, slot: nat) returns (k: nat, i: nat)
    requires AllBelow(near, n) && slot < |near|
    ensures i < |near| && Slot(near, i) == slot && near[i] == k && Start(near, k) <= slot < Start(near, k + 1)
  {
    BelowAll(near, n, |near|);
    k := 0;
    while Start(near, k + 1) <= slot
      invariant k < n && Start(near, k) <= slot
      decreases n - k
    {
      k := k + 1;
      if k == n {
        assert false;
      }
    }
    BelowStep(near, k, |near|);
    var j: nat := slot - Start(near, k);
    i := Picked(near, k, |near|)[j];
    PickedIsAt(near, k, j);
  }

  /** Puts each value into the next free slot of its bucket. */
  method Scatter(keys: seq<nat>, n: nat, offsets: seq<nat>, values: seq<nat>) returns (column: seq<nat>)
    requires AllBelow(keys, n) && OffsetsOk(keys, n, offsets) && |values| == |keys|
    ensures Scattered(keys, values, column, |keys|)
  {
    var cursor: seq<nat> := offsets[..n];
    column := seq(|keys|, _ => 0);
    var i: nat := 0;
    while i < |keys|
      invariant i <= |keys| && CursorsAt(keys, n, cursor, i) && Scattered(keys, values, column, i)
    {
      ScatterNext(keys, n, values, column, i);
      column := column[cursor[keys[i]] := values[i]];
      cursor := cursor[keys[i] := cursor[keys[i]] + 1];
      i := i + 1;
    }
  }

  // ----- rows of a compressed column -----

  type NeighborRows = nat -> seq<nat>

  function RowIn(offsets: seq<nat>, column: seq<nat>, v: nat): seq<nat>
  {
    if v + 1 < |offsets| && offsets[v] <= offsets[v + 1] <= |column| then column[offsets[v]..offsets[v + 1]] else []
  }

  ghost function RowsOf(offsets: seq<nat>, column: seq<nat>): (rows: NeighborRows)
    ensures forall v: nat :: rows(v) == RowIn(offsets, column, v)
  {
    (v: nat) => RowIn(offsets, column, v)
  }

  /** A scattered row lists what its bucket's items hold. */
  lemma ScatteredRowAt(keys: seq<nat>, n: nat, values: seq<nat>, offsets: seq<nat>, column: seq<nat>, v: nat)
    requires AllBelow(keys, n) && OffsetsOk(keys, n, offsets) && |values| == |keys|
      && Scattered(keys, values, column, |keys|) && v < n
    ensures offsets[v] <= offsets[v + 1] <= |column|
    ensures |RowIn(offsets, column, v)| == Count(keys, v, |keys|)
    ensures forall j: nat :: j < Count(keys, v, |keys|) ==>
      RowIn(offsets, column, v)[j] == values[Picked(keys, v, |keys|)[j]]
  {
    ScatteredRow(keys, n, values, column, v);
    BelowStep(keys, v, |keys|);
  }

  lemma {:induction false} PickedAscends(keys: seq<nat>, k: nat, m: nat)
    requires m <= |keys|
    ensures forall i, j :: 0 <= i < j < |Picked(keys, k, m)| ==> Picked(keys, k, m)[i] < Picked(keys, k, m)[j]
  {
    if m > 0 {
      PickedAscends(keys, k, m - 1);
    }
  }

  ghost predicate PickedBy(keys: seq<nat>, v: nat, picked: seq<nat>)
  {
    && (forall i, j :: 0 <= i < j < |picked| ==> picked[i] < picked[j])
    && (forall j :: 0 <= j < |picked| ==> picked[j] < |keys| && keys[picked[j]] == v)
    && (forall i: nat :: i < |keys| && keys[i] == v ==> i in picked)
  }

  lemma PickedIsPickedBy(keys: seq<nat>, v: nat)
    ensures PickedBy(keys, v, Picked(keys, v, |keys|))
  {
    PickedAscends(keys, v, |keys|);
    forall i: nat | i < |keys| && keys[i] == v
      ensures i in Picked(keys, v, |keys|)
    {
      PickedAt(keys, i, |keys|);
    }
  }

  ghost predicate RowsInside(rows: NeighborRows, n: nat)
  {
    forall v: nat, w: nat :: w in rows(v) ==> w < n
  }

  ghost predicate HasSlots(offsets: seq<nat>, column: seq<nat>, v: nat)
  {
    v + 1 < |offsets| && offsets[v] <= offsets[v + 1] <= |column|
  }
}
