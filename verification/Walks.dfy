/** Walks in a finite directed graph, counted by hops.  Every theorem about a traversal is stated
    over a set of arcs, whichever arrays the traversal reads. */
module Walks {

  type Arcs = set<(nat, nat)>

  /** There is a walk of exactly `k` arcs from `u` to `v`. */
  ghost predicate HasWalk(a: Arcs, u: nat, v: nat, k: nat)
    decreases k
  {
    if k == 0 then u == v else exists w: nat :: HasWalk(a, u, w, k - 1) && (w, v) in a
  }

  ghost predicate Reaches(a: Arcs, u: nat, v: nat)
  {
    exists k :: HasWalk(a, u, v, k)
  }

  ghost predicate Mutual(a: Arcs, u: nat, v: nat)
  {
    Reaches(a, u, v) && Reaches(a, v, u)
  }

  ghost function Reverse(a: Arcs): (r: Arcs)
    ensures forall u: nat, v: nat :: (u, v) in r <==> (v, u) in a
  {
    set e | e in a :: (e.1, e.0)
  }

  lemma {:induction false} WalkConcat(a: Arcs, u: nat, v: nat, w: nat, j: nat, k: nat)
    requires HasWalk(a, u, v, j) && HasWalk(a, v, w, k)
    ensures HasWalk(a, u, w, j + k)
    decreases k
  {
    if k > 0 {
      var x: nat :| HasWalk(a, v, x, k - 1) && (x, w) in a;
      WalkConcat(a, u, v, x, j, k - 1);
      assert HasWalk(a, u, x, j + k - 1);
    }
  }

  /** A walk can be cut after any number of its arcs. */
  lemma {:induction false} WalkSplit(a: Arcs, u: nat, v: nat, j: nat, k: nat) returns (m: nat)
    requires HasWalk(a, u, v, j + k)
    ensures HasWalk(a, u, m, j) && HasWalk(a, m, v, k)
    decreases k
  {
    if k == 0 {
      m := v;
    } else {
      var x: nat :| HasWalk(a, u, x, j + k - 1) && (x, v) in a;
      m := WalkSplit(a, u, x, j, k - 1);
    }
  }

  lemma WalkOne(a: Arcs, u: nat, v: nat)
    ensures HasWalk(a, u, v, 1) <==> (u, v) in a
  {
    assert HasWalk(a, u, u, 0);
  }

  lemma {:induction false} WalkReverse(a: Arcs, u: nat, v: nat, k: nat)
    ensures HasWalk(a, u, v, k) <==> HasWalk(Reverse(a), v, u, k)
    decreases k
  {
    if k > 0 {
      if HasWalk(a, u, v, k) {
        var x: nat :| HasWalk(a, u, x, k - 1) && (x, v) in a;
        WalkReverse(a, u, x, k - 1);
        WalkOne(Reverse(a), v, x);
        WalkConcat(Reverse(a), v, x, u, 1, k - 1);
      }
      if HasWalk(Reverse(a), v, u, k) {
        var x := WalkSplit(Reverse(a), v, u, 1, k - 1);
        WalkOne(Reverse(a), v, x);
        WalkReverse(a, u, x, k - 1);
      }
    }
  }

  lemma ReachRefl(a: Arcs, u: nat)
    ensures Reaches(a, u, u)
  {
    assert HasWalk(a, u, u, 0);
  }

  lemma ReachTrans(a: Arcs, u: nat, v: nat, w: nat)
    requires Reaches(a, u, v) && Reaches(a, v, w)
    ensures Reaches(a, u, w)
  {
    var j :| HasWalk(a, u, v, j);
    var k :| HasWalk(a, v, w, k);
    WalkConcat(a, u, v, w, j, k);
  }

  lemma ReachArc(a: Arcs, u: nat, v: nat)
    requires (u, v) in a
    ensures Reaches(a, u, v)
  {
    WalkOne(a, u, v);
  }

  /** A set that every arc into it leaves only from inside contains all that reaches it. */
  lemma {:induction false} ClosedUnderWalks(a: Arcs, inside: set<nat>, u: nat, v: nat, k: nat)
    requires forall x: nat, y: nat :: x in inside && (x, y) in a ==> y in inside
    requires u in inside && HasWalk(a, u, v, k)
    ensures v in inside
    decreases k
  {
    if k > 0 {
      var x: nat :| HasWalk(a, u, x, k - 1) && (x, v) in a;
      ClosedUnderWalks(a, inside, u, x, k - 1);
    }
  }

  /** `k` is the length of a shortest walk that has at least `minimum` arcs. */
  ghost predicate IsLeast(a: Arcs, u: nat, v: nat, minimum: nat, k: nat)
  {
    minimum <= k && HasWalk(a, u, v, k) && forall j :: minimum <= j < k ==> !HasWalk(a, u, v, j)
  }

  /** Some walk has between `minimum` and `k` arcs. */
  ghost predicate HasWalkWithin(a: Arcs, u: nat, v: nat, minimum: nat, k: nat)
  {
    exists j :: minimum <= j <= k && HasWalk(a, u, v, j)
  }

  lemma LeastWithin(a: Arcs, u: nat, v: nat, minimum: nat, k: nat) returns (j: nat)
    requires HasWalkWithin(a, u, v, minimum, k)
    ensures IsLeast(a, u, v, minimum, j) && j <= k
  {
    j := minimum;
    while !HasWalk(a, u, v, j)
      invariant minimum <= j <= k
      invariant forall i :: minimum <= i < j ==> !HasWalk(a, u, v, i)
      decreases k - j
    {
      j := j + 1;
      assert HasWalkWithin(a, u, v, minimum, k);
      if j > k {
        assert false;
      }
    }
  }

  lemma LeastIsUnique(a: Arcs, u: nat, v: nat, minimum: nat, j: nat, k: nat)
    requires IsLeast(a, u, v, minimum, j) && IsLeast(a, u, v, minimum, k)
    ensures j == k
  {
  }

  /** The vertices that some arc enters. */
  ghost function Entered(a: Arcs): (e: set<nat>)
    ensures forall u: nat, v: nat :: (u, v) in a ==> v in e
  {
    set arc | arc in a :: arc.1
  }

  /** Every arc in both directions. */
  ghost function Symmetric(a: Arcs): (r: Arcs)
    ensures forall u: nat, v: nat :: (u, v) in r <==> (u, v) in a || (v, u) in a
  {
    a + Reverse(a)
  }
}
