/** Sequences without repetition, and their sets of elements. */
module Sequences {

  ghost predicate Distinct<T(!new)>(s: seq<T>)
  {
    forall i, j :: 0 <= i < j < |s| ==> s[i] != s[j]
  }

  ghost function Elements<T(!new)>(s: seq<T>): (e: set<T>)
    ensures forall x :: x in e <==> x in s
  {
    set x | x in s
  }

  lemma {:induction false} DistinctCardinality<T(!new)>(s: seq<T>)
    requires Distinct(s)
    ensures |Elements(s)| == |s|
  {
    if |s| > 0 {
      var init, last := s[..|s| - 1], s[|s| - 1];
      DistinctCardinality(init);
      assert s == init + [last] && last !in init;
      assert Elements(s) == Elements(init) + {last};
    }
  }

  predicate Ascending(s: seq<nat>)
  {
    forall i, j :: 0 <= i < j < |s| ==> s[i] <= s[j]
  }

  /** Puts one more item in its place. */
  function Insert(s: seq<nat>, x: nat): (r: seq<nat>)
  {
    if |s| == 0 || x <= s[0] then [x] + s else [s[0]] + Insert(s[1..], x)
  }

  lemma {:induction false} InsertKeepsItems(s: seq<nat>, x: nat)
    ensures multiset(Insert(s, x)) == multiset(s) + multiset{x}
  {
    if |s| > 0 && x > s[0] {
      InsertKeepsItems(s[1..], x);
      assert s == [s[0]] + s[1..];
    }
  }

  lemma {:induction false} InsertKeepsOrder(s: seq<nat>, x: nat)
    requires Ascending(s)
    ensures Ascending(Insert(s, x))
  {
    if |s| > 0 && x > s[0] {
      InsertKeepsOrder(s[1..], x);
      var rest := Insert(s[1..], x);
      forall i | 0 <= i < |rest|
        ensures s[0] <= rest[i]
      {
        InsertKeepsItems(s[1..], x);
        assert rest[i] in multiset(rest);
        assert rest[i] in s[1..] || rest[i] == x;
      }
    }
  }

  /** Stands for the library sort. */
  function Sorted(s: seq<nat>): (r: seq<nat>)
  {
    if |s| == 0 then [] else Insert(Sorted(s[1..]), s[0])
  }

  lemma {:induction false} SortedIsSort(s: seq<nat>)
    ensures Ascending(Sorted(s)) && multiset(Sorted(s)) == multiset(s)
  {
    if |s| > 0 {
      SortedIsSort(s[1..]);
      InsertKeepsItems(Sorted(s[1..]), s[0]);
      InsertKeepsOrder(Sorted(s[1..]), s[0]);
      assert s == [s[0]] + s[1..];
    }
  }

  lemma SameMultiset<T(!new)>(s: seq<T>, r: seq<T>)
    requires multiset(s) == multiset(r)
    ensures Elements(s) == Elements(r) && |s| == |r| && (Distinct(s) ==> Distinct(r))
  {
    forall x
      ensures x in s <==> x in r
    {
      assert x in s <==> x in multiset(s);
      assert x in r <==> x in multiset(r);
    }
    assert |multiset(s)| == |s| && |multiset(r)| == |r|;
    if Distinct(s) {
      forall i, j | 0 <= i < j < |r|
        ensures r[i] != r[j]
      {
        DistinctOccurs(s, r[i]);
        RepeatedIfEqual(r, i, j);
      }
    }
  }

  lemma {:induction false} DistinctOccurs<T(!new)>(s: seq<T>, x: T)
    requires Distinct(s)
    ensures multiset(s)[x] <= 1
  {
    if |s| > 0 {
      var init := s[..|s| - 1];
      assert s == init + [s[|s| - 1]];
      DistinctOccurs(init, x);
      if x == s[|s| - 1] {
        assert x !in init;
        assert x !in multiset(init);
      }
    }
  }

  lemma RepeatedIfEqual<T(!new)>(r: seq<T>, i: nat, j: nat)
    requires i < j < |r|
    ensures r[i] == r[j] ==> multiset(r)[r[i]] >= 2
  {
    assert r == r[..j] + r[j..];
    assert r[..j][i] == r[i] && r[j..][0] == r[j];
    assert multiset(r) == multiset(r[..j]) + multiset(r[j..]);
    assert r[i] in multiset(r[..j]) && r[j] in multiset(r[j..]);
  }

  lemma ConcatDistinct<T(!new)>(a: seq<T>, b: seq<T>)
    requires Distinct(a) && Distinct(b) && forall x :: x in a ==> x !in b
    ensures Distinct(a + b)
  {
    forall i, j | 0 <= i < j < |a + b|
      ensures (a + b)[i] != (a + b)[j]
    {
      if i < |a| <= j {
        assert a[i] in a && b[j - |a|] in b;
      }
    }
  }

  lemma SubsetIsNoLarger<T>(s: set<T>, t: set<T>)
    requires s <= t
    ensures |s| <= |t| && (|s| == |t| ==> s == t)
  {
    assert t == s + (t - s);
  }

  lemma DistinctInit<T(!new)>(s: seq<T>, x: T)
    requires Distinct(s + [x])
    ensures Distinct(s) && x !in s
  {
    forall i, j | 0 <= i < j < |s|
      ensures s[i] != s[j]
    {
      assert (s + [x])[i] == s[i] && (s + [x])[j] == s[j];
    }
    forall i | 0 <= i < |s|
      ensures s[i] != x
    {
      assert (s + [x])[i] == s[i] && (s + [x])[|s|] == x;
    }
  }
}
