/** Finding the ordinal of a vertex id: ids in increasing order, interpolation and bisection in turn. */
module Ordinals {
  import opened Powers

  ghost predicate Increasing(ids: seq<nat>)
  {
    forall i, j :: 0 <= i < j < |ids| ==> ids[i] < ids[j]
  }

  /** The three ways in which a snapshot can be searched. */
  datatype Index = Index(ids: seq<nat>, dense: bool, byId: map<nat, nat>)
  {
    ghost predicate Valid()
    {
      && Increasing(ids)
      && (dense ==> forall i :: 0 <= i < |ids| ==> ids[i] == i + 1)
      && (byId != map[] ==> forall id :: id in byId.Keys <==> id in ids)
      && forall id :: id in byId ==> byId[id] < |ids| && ids[byId[id]] == id
    }
  }

  /** An upper bound of the rounds left for a range of this size. */
  function RoundsLeft(size: nat, interpolate: bool): nat
  {
    if size == 0 then 0 else if interpolate then 2 * (Log2(size) + 1) else 2 * Log2(size) + 1
  }

  /** A range below the k-th power of two takes at most 2k rounds. */
  lemma RoundsFit(size: nat, rounds: nat)
    requires rounds <= RoundsLeft(size, true)
    ensures forall k: nat :: size < Pow2(k) ==> rounds <= 2 * k
    ensures size == 0 ==> rounds == 0
  {
    forall k: nat | size < Pow2(k)
      ensures rounds <= 2 * k
    {
      if size > 0 {
        Log2Below(size, k);
      }
    }
  }

  lemma InterpolationShrinks(size: nat, next: nat)
    requires next < size
    ensures 1 + RoundsLeft(next, false) <= RoundsLeft(size, true)
  {
    if next > 0 {
      Log2Grows(next, size);
    }
  }

  lemma BisectionHalves(size: nat, next: nat)
    requires size > 0 && next <= size / 2
    ensures 1 + RoundsLeft(next, true) <= RoundsLeft(size, false)
  {
    if next > 0 {
      Log2Grows(next, size / 2);
    }
  }

  /** Where the id would be if ids grew evenly over the range. */
  method Probe(ids: seq<nat>, low: nat, high: nat, id: nat) returns (middle: nat)
    requires Increasing(ids) && low < high <= |ids| && high - low > 2
    ensures low <= middle < high
  {
    var first, last := ids[low], ids[high - 1];
    if id <= first {
      return low;
    }
    if id >= last {
      return high - 1;
    }
    var fraction := ((id - first) as real / (last - first) as real);
    var width := (high - low - 1) as real;
    FractionStays(fraction, width);
    var skip := (fraction * width).Floor;
    FloorStays(fraction * width, high - low - 1);
    return low + skip;
  }

  lemma FloorStays(x: real, n: nat)
    requires 0.0 <= x <= n as real
    ensures 0 <= x.Floor <= n
  {
  }

  lemma FractionStays(fraction: real, width: real)
    requires 0.0 <= fraction <= 1.0 && width >= 0.0
    ensures 0.0 <= fraction * width <= width
  {
    assert fraction * width <= 1.0 * width;
  }

  /** Every place before `low` holds a smaller id, and every place from `high` on one that is not smaller. */
  ghost predicate Narrowed(ids: seq<nat>, id: nat, low: nat, high: nat)
  {
    && low <= high <= |ids|
    && (forall i :: 0 <= i < low ==> ids[i] < id)
    && (forall i :: high <= i < |ids| ==> ids[i] >= id)
  }

  method Search(ids: seq<nat>, id: nat) returns (found: bool, ordinal: nat, ghost rounds: nat)
    requires Increasing(ids)
    ensures found <==> id in ids
    ensures found ==> ordinal < |ids| && ids[ordinal] == id
    ensures |ids| == 0 ==> rounds == 0
    ensures forall k: nat :: |ids| < Pow2(k) ==> rounds <= 2 * k
  {
    hide RoundsLeft, Pow2, Log2;
    var low: nat, high: nat := 0, |ids|;
    var interpolate := true;
    rounds := 0;
    while low < high
      invariant Narrowed(ids, id, low, high)
      invariant rounds + RoundsLeft(high - low, interpolate) <= RoundsLeft(|ids|, true)
      decreases high - low
    {
      ghost var size: nat := high - low;
      var middle := low + (high - low) / 2;
      if interpolate && high - low > 2 {
        middle := Probe(ids, low, high, id);
      }
      if ids[middle] < id {
        low := middle + 1;
      } else {
        high := middle;
      }
      if interpolate {
        InterpolationShrinks(size, high - low);
      } else {
        BisectionHalves(size, high - low);
      }
      interpolate := !interpolate;
      rounds := rounds + 1;
    }
    RoundsFit(|ids|, rounds);
    if low == |ids| || ids[low] != id {
      forall i | 0 <= i < |ids|
        ensures ids[i] != id
      {
        assert i > low ==> ids[low] < ids[i];
      }
      return false, 0, rounds;
    }
    return true, low, rounds;
  }

  method TryGetCsrOrdinal(index: Index, id: nat) returns (found: bool, ordinal: nat)
    requires index.Valid()
    ensures found <==> id in index.ids
    ensures found ==> ordinal < |index.ids| && index.ids[ordinal] == id
  {
    if index.dense {
      if id == 0 || id > |index.ids| {
        assert id !in index.ids;
        return false, 0;
      }
      assert index.ids[id - 1] == id;
      return true, id - 1;
    }
    if index.byId != map[] {
      if id !in index.byId {
        return false, 0;
      }
      return true, index.byId[id];
    }
    ghost var rounds;
    found, ordinal, rounds := Search(index.ids, id);
  }
}
