/** Contracting the communities of a partition keeps the modularity of every partition of them. */
module Coarsening {
  import opened Sums
  import opened Modularities

  /** The terms of one bucket: `h(a, u)` for the vertices `u` of community `a`. */
  ghost function Bucket(c: seq<nat>, h: (nat, nat) -> real, a: nat): nat -> real
  {
    (u: nat) => if In(c, u, a) then h(a, u) else 0.0
  }

  ghost function Spread(c: seq<nat>, h: (nat, nat) -> real): (nat, nat) -> real
  {
    (a: nat, u: nat) => if In(c, u, a) then h(a, u) else 0.0
  }

  /** Adding bucket by bucket is adding vertex by vertex. */
  lemma SumByBucket(c: seq<nat>, k: nat, h: (nat, nat) -> real, buckets: nat -> real, f: nat -> real)
    requires forall u :: 0 <= u < |c| ==> c[u] < k
    requires forall a: nat :: a < k ==> buckets(a) == Sum(|c|, Bucket(c, h, a))
    requires forall u: nat :: u < |c| ==> f(u) == h(c[u], u)
    ensures Sum(k, buckets) == Sum(|c|, f)
  {
    forall a: nat | a < k
      ensures buckets(a) == Sum(|c|, Row(Spread(c, h), a))
    {
      SumExt(|c|, Bucket(c, h, a), Row(Spread(c, h), a));
    }
    forall u: nat | u < |c|
      ensures f(u) == Sum(k, Column(Spread(c, h), u))
    {
      forall a: nat | a < k
        ensures Column(Spread(c, h), u)(a) == if c[u] == a then h(a, u) else 0.0
      {
        assert Spread(c, h)(a, u) == if In(c, u, a) then h(a, u) else 0.0;
        assert In(c, u, a) <==> c[u] == a;
        assert Column(Spread(c, h), u)(a) == Spread(c, h)(a, u);
      }
      SumOne(k, Column(Spread(c, h), u), c[u]);
    }
    SumSwap(k, |c|, Spread(c, h), buckets, f);
  }

  /** The weight from one vertex into a community. */
  ghost function IntoTerm(g: LouvainGraph, c: seq<nat>, u: nat, b: nat): nat -> real
  {
    (v: nat) => if In(c, v, b) then W(g, u, v) else 0.0
  }

  ghost function Into(g: LouvainGraph, c: seq<nat>, u: nat, b: nat): real
  {
    Sum(|g.degrees|, IntoTerm(g, c, u, b))
  }

  ghost function BlockTerm(g: LouvainGraph, c: seq<nat>, a: nat, b: nat): nat -> real
  {
    (u: nat) => if In(c, u, a) then Into(g, c, u, b) else 0.0
  }

  /** The weight between two communities, counted from the first. */
  ghost function Block(g: LouvainGraph, c: seq<nat>, a: nat, b: nat): real
  {
    Sum(|g.degrees|, BlockTerm(g, c, a, b))
  }

  /** The contracted graph has one vertex per community, joined by the weights between them. */
  ghost predicate Contracts(coarse: LouvainGraph, g: LouvainGraph, c: seq<nat>, k: nat)
  {
    && coarse.Shaped() && |coarse.degrees| == k && coarse.totalDegree == g.totalDegree
    && (forall a: nat, b: nat :: a < k && b < k ==> W(coarse, a, b) == Block(g, c, a, b))
    && (forall a: nat :: a < k ==> coarse.degrees[a] == Sum(k, WeightTerm(coarse, a)))
  }

  ghost predicate Partitions(c: seq<nat>, g: LouvainGraph, k: nat)
  {
    |c| == |g.degrees| && forall u :: 0 <= u < |c| ==> c[u] < k
  }

  /** Row sums survive: a contracted degree is the total of its community. */
  lemma ContractedDegree(coarse: LouvainGraph, g: LouvainGraph, c: seq<nat>, k: nat, a: nat)
    requires g.Valid() && Partitions(c, g, k) && Contracts(coarse, g, c, k) && a < k
    ensures coarse.degrees[a] == Total(g, c, a)
  {
    var n := |c|;
    var f := (b: nat, u: nat) => if In(c, u, a) then Into(g, c, u, b) else 0.0;
    forall b: nat | b < k
      ensures WeightTerm(coarse, a)(b) == Sum(n, Row(f, b))
    {
      SumExt(n, BlockTerm(g, c, a, b), Row(f, b));
    }
    forall u: nat | u < n
      ensures TotalTerm(g, c, a)(u) == Sum(k, Column(f, u))
    {
      if In(c, u, a) {
        var into := (b: nat) => Into(g, c, u, b);
        var h := (b: nat, v: nat) => W(g, u, v);
        forall b: nat | b < k
          ensures into(b) == Sum(n, Bucket(c, h, b))
        {
          SumExt(n, IntoTerm(g, c, u, b), Bucket(c, h, b));
        }
        SumByBucket(c, k, h, into, WeightTerm(g, u));
        SumExt(k, into, Column(f, u));
      } else {
        SumZero(k, Column(f, u));
      }
    }
    SumSwap(k, n, f, WeightTerm(coarse, a), TotalTerm(g, c, a));
  }

  lemma BlockSymmetric(g: LouvainGraph, c: seq<nat>, a: nat, b: nat)
    requires g.Valid() && |c| == |g.degrees|
    ensures Block(g, c, a, b) == Block(g, c, b, a)
  {
    var n := |c|;
    var f := (u: nat, v: nat) => if In(c, u, a) && In(c, v, b) then W(g, u, v) else 0.0;
    forall u: nat | u < n
      ensures BlockTerm(g, c, a, b)(u) == Sum(n, Row(f, u))
    {
      if In(c, u, a) {
        SumExt(n, IntoTerm(g, c, u, b), Row(f, u));
      } else {
        SumZero(n, Row(f, u));
      }
    }
    forall v: nat | v < n
      ensures BlockTerm(g, c, b, a)(v) == Sum(n, Column(f, v))
    {
      if In(c, v, b) {
        forall u: nat | u < n
          ensures IntoTerm(g, c, v, a)(u) == Column(f, v)(u)
        {
          assert W(g, u, v) == W(g, v, u);
        }
        SumExt(n, IntoTerm(g, c, v, a), Column(f, v));
      } else {
        SumZero(n, Column(f, v));
      }
    }
    SumSwap(n, n, f, BlockTerm(g, c, a, b), BlockTerm(g, c, b, a));
  }

  /** Contraction keeps row sums, the total degree and symmetry. */
  lemma ContractedIsValid(coarse: LouvainGraph, g: LouvainGraph, c: seq<nat>, k: nat)
    requires g.Valid() && Partitions(c, g, k) && Contracts(coarse, g, c, k)
    ensures coarse.Valid()
  {
    forall a: nat | a < k
      ensures DegreeTerm(coarse)(a) == Total(g, c, a)
    {
      ContractedDegree(coarse, g, c, k, a);
    }
    var h := (a: nat, u: nat) => Degree(g, u);
    forall a: nat | a < k
      ensures DegreeTerm(coarse)(a) == Sum(|c|, Bucket(c, h, a))
    {
      SumExt(|c|, TotalTerm(g, c, a), Bucket(c, h, a));
    }
    SumByBucket(c, k, h, DegreeTerm(coarse), DegreeTerm(g));
    forall a: nat, b: nat | a < k && b < k
      ensures W(coarse, a, b) == W(coarse, b, a)
    {
      BlockSymmetric(g, c, a, b);
    }
  }

  // ----- modularity of a partition of the communities -----

  /** The partition of the vertices that a partition of their communities amounts to. */
  function Compose(d: seq<nat>, c: seq<nat>): (e: seq<nat>)
    requires forall u :: 0 <= u < |c| ==> c[u] < |d|
    ensures |e| == |c| && forall u :: 0 <= u < |c| ==> e[u] == d[c[u]]
  {
    seq(|c|, u requires 0 <= u < |c| => d[c[u]])
  }

  /** The pairs of one vertex with a community, and of two communities. */
  ghost function PairInto(g: LouvainGraph, resolution: real, c: seq<nat>, u: nat, b: nat): real
    requires g.totalDegree != 0.0
  {
    Sum(|g.degrees|, PairIntoTerm(g, resolution, c, u, b))
  }

  ghost function PairIntoTerm(g: LouvainGraph, resolution: real, c: seq<nat>, u: nat, b: nat): nat -> real
    requires g.totalDegree != 0.0
  {
    (v: nat) => if In(c, v, b) then Pair(g, resolution, u, v) else 0.0
  }

  ghost function PairBlockTerm(g: LouvainGraph, resolution: real, c: seq<nat>, a: nat, b: nat): nat -> real
    requires g.totalDegree != 0.0
  {
    (u: nat) => if In(c, u, a) then PairInto(g, resolution, c, u, b) else 0.0
  }

  lemma PairIntoTermIsLinear(g: LouvainGraph, resolution: real, c: seq<nat>, u: nat, b: nat, v: nat, x: real, y: real)
    requires g.totalDegree != 0.0 && x == Share(g) && y == Penalty(g, resolution, Degree(g, u))
    ensures PairIntoTerm(g, resolution, c, u, b)(v) == Combine(x, IntoTerm(g, c, u, b)(v), y, TotalTerm(g, c, b)(v))
  {
    if In(c, v, b) {
      PairIsLinear(g, resolution, u, v);
    } else {
      assert x * 0.0 == 0.0 && y * 0.0 == 0.0;
    }
  }

  lemma PairIntoIsLinear(g: LouvainGraph, resolution: real, c: seq<nat>, u: nat, b: nat, x: real, y: real)
    requires g.totalDegree != 0.0 && x == Share(g) && y == Penalty(g, resolution, Degree(g, u))
    ensures PairInto(g, resolution, c, u, b) == Combine(x, Into(g, c, u, b), y, Total(g, c, b))
  {
    forall v: nat | v < |g.degrees|
      ensures PairIntoTerm(g, resolution, c, u, b)(v) == Combine(x, IntoTerm(g, c, u, b)(v), y, TotalTerm(g, c, b)(v))
    {
      PairIntoTermIsLinear(g, resolution, c, u, b, v, x, y);
    }
    SumLinear(|g.degrees|, x, IntoTerm(g, c, u, b), y, TotalTerm(g, c, b), PairIntoTerm(g, resolution, c, u, b));
  }

  lemma PenaltyScales(g: LouvainGraph, resolution: real, degree: real, total: real)
    requires g.totalDegree != 0.0
    ensures Penalty(g, resolution, degree) * total == Penalty(g, resolution, total) * degree
  {
  }

  lemma PairBlockTermIsLinear(g: LouvainGraph, resolution: real, c: seq<nat>, a: nat, b: nat, u: nat, x: real, y: real)
    requires g.totalDegree != 0.0 && x == Share(g) && y == Penalty(g, resolution, Total(g, c, b))
    ensures PairBlockTerm(g, resolution, c, a, b)(u) == Combine(x, BlockTerm(g, c, a, b)(u), y, TotalTerm(g, c, a)(u))
  {
    if In(c, u, a) {
      PairIntoIsLinear(g, resolution, c, u, b, x, Penalty(g, resolution, Degree(g, u)));
      PenaltyScales(g, resolution, Degree(g, u), Total(g, c, b));
    } else {
      assert x * 0.0 == 0.0 && y * 0.0 == 0.0;
    }
  }

  lemma PairBlockIsLinear(g: LouvainGraph, resolution: real, c: seq<nat>, a: nat, b: nat, x: real, y: real)
    requires g.totalDegree != 0.0 && x == Share(g) && y == Penalty(g, resolution, Total(g, c, b))
    ensures Sum(|g.degrees|, PairBlockTerm(g, resolution, c, a, b)) == Combine(x, Block(g, c, a, b), y, Total(g, c, a))
  {
    forall u: nat | u < |g.degrees|
      ensures PairBlockTerm(g, resolution, c, a, b)(u) == Combine(x, BlockTerm(g, c, a, b)(u), y, TotalTerm(g, c, a)(u))
    {
      PairBlockTermIsLinear(g, resolution, c, a, b, u, x, y);
    }
    SumLinear(|g.degrees|, x, BlockTerm(g, c, a, b), y, TotalTerm(g, c, a), PairBlockTerm(g, resolution, c, a, b));
  }

  /** The pair of two contracted vertices is the sum of the pairs of their members. */
  lemma PairOfCommunities(coarse: LouvainGraph, g: LouvainGraph, resolution: real, c: seq<nat>, k: nat, a: nat, b: nat)
    requires g.Valid() && g.totalDegree != 0.0 && Partitions(c, g, k) && Contracts(coarse, g, c, k) && a < k && b < k
    ensures Pair(coarse, resolution, a, b) == Sum(|c|, PairBlockTerm(g, resolution, c, a, b))
  {
    ContractedDegree(coarse, g, c, k, a);
    ContractedDegree(coarse, g, c, k, b);
    PairIsLinear(coarse, resolution, a, b);
    assert W(coarse, a, b) == Block(g, c, a, b);
    assert Share(coarse) == Share(g);
    assert Penalty(coarse, resolution, Degree(coarse, b)) == Penalty(g, resolution, Total(g, c, b));
    assert Pair(coarse, resolution, a, b)
      == Combine(Share(g), Block(g, c, a, b), Penalty(g, resolution, Total(g, c, b)), Total(g, c, a));
    PairBlockIsLinear(g, resolution, c, a, b, Share(g), Penalty(g, resolution, Total(g, c, b)));
  }

  /** The pairs of `u` with everything whose community shares one with `a`. */
  ghost function Kin(g: LouvainGraph, resolution: real, c: seq<nat>, d: seq<nat>, a: nat, u: nat): real
    requires g.totalDegree != 0.0
  {
    Sum(|g.degrees|, KinTerm(g, resolution, c, d, a, u))
  }

  ghost function KinTerm(g: LouvainGraph, resolution: real, c: seq<nat>, d: seq<nat>, a: nat, u: nat): nat -> real
    requires g.totalDegree != 0.0
  {
    (v: nat) => if v < |c| && Same(d, a, c[v]) then Pair(g, resolution, u, v) else 0.0
  }

  ghost function KinOf(g: LouvainGraph, resolution: real, c: seq<nat>, d: seq<nat>): (nat, nat) -> real
    requires g.totalDegree != 0.0
  {
    (a: nat, u: nat) => Kin(g, resolution, c, d, a, u)
  }

  lemma KinByCommunity(g: LouvainGraph, resolution: real, c: seq<nat>, k: nat, d: seq<nat>, a: nat, u: nat,
                       f: nat -> real)
    requires g.totalDegree != 0.0 && Partitions(c, g, k) && |d| == k && a < k
    requires forall b: nat :: b < k ==> f(b) == if Same(d, a, b) then PairInto(g, resolution, c, u, b) else 0.0
    ensures Sum(k, f) == Kin(g, resolution, c, d, a, u)
  {
    var h := (b: nat, v: nat) => if Same(d, a, b) then Pair(g, resolution, u, v) else 0.0;
    forall b: nat | b < k
      ensures f(b) == Sum(|c|, Bucket(c, h, b))
    {
      if Same(d, a, b) {
        SumExt(|c|, PairIntoTerm(g, resolution, c, u, b), Bucket(c, h, b));
      } else {
        SumZero(|c|, Bucket(c, h, b));
      }
    }
    SumByBucket(c, k, h, f, KinTerm(g, resolution, c, d, a, u));
  }

  /** A row of the contracted modularity collects its members' rows. */
  lemma ContractedRow(coarse: LouvainGraph, g: LouvainGraph, resolution: real, c: seq<nat>, k: nat, d: seq<nat>, a: nat)
    requires g.Valid() && g.totalDegree != 0.0 && Partitions(c, g, k) && Contracts(coarse, g, c, k) && |d| == k && a < k
    ensures RowTerm(coarse, resolution, d)(a) == Sum(|c|, Bucket(c, KinOf(g, resolution, c, d), a))
  {
    var f := (b: nat, u: nat) => if Same(d, a, b) && In(c, u, a) then PairInto(g, resolution, c, u, b) else 0.0;
    forall b: nat | b < k
      ensures PairTerm(coarse, resolution, d, a)(b) == Sum(|c|, Row(f, b))
    {
      if Same(d, a, b) {
        PairOfCommunities(coarse, g, resolution, c, k, a, b);
        SumExt(|c|, PairBlockTerm(g, resolution, c, a, b), Row(f, b));
      } else {
        SumZero(|c|, Row(f, b));
      }
    }
    forall u: nat | u < |c|
      ensures Bucket(c, KinOf(g, resolution, c, d), a)(u) == Sum(k, Column(f, u))
    {
      if In(c, u, a) {
        KinByCommunity(g, resolution, c, k, d, a, u, Column(f, u));
      } else {
        SumZero(k, Column(f, u));
      }
    }
    SumSwap(k, |c|, f, PairTerm(coarse, resolution, d, a), Bucket(c, KinOf(g, resolution, c, d), a));
  }

  /** Contraction keeps modularity: a partition of the communities scores what it amounts to below. */
  lemma ContractionKeepsModularity(coarse: LouvainGraph, g: LouvainGraph, resolution: real, c: seq<nat>, k: nat,
                                   d: seq<nat>)
    requires g.Valid() && g.totalDegree != 0.0 && Partitions(c, g, k) && Contracts(coarse, g, c, k) && |d| == k
    ensures Modularity(coarse, resolution, d) == Modularity(g, resolution, Compose(d, c))
  {
    forall a: nat | a < k
      ensures RowTerm(coarse, resolution, d)(a) == Sum(|c|, Bucket(c, KinOf(g, resolution, c, d), a))
    {
      ContractedRow(coarse, g, resolution, c, k, d, a);
    }
    forall u: nat | u < |c|
      ensures RowTerm(g, resolution, Compose(d, c))(u) == KinOf(g, resolution, c, d)(c[u], u)
    {
      SumExt(|c|, PairTerm(g, resolution, Compose(d, c), u), KinTerm(g, resolution, c, d, c[u], u));
    }
    SumByBucket(c, k, KinOf(g, resolution, c, d), RowTerm(coarse, resolution, d),
                RowTerm(g, resolution, Compose(d, c)));
  }
}
