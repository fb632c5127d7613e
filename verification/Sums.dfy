/** Finite sums of real-valued functions. */
module Sums {

  ghost function Sum(n: nat, f: nat -> real): real
  {
    if n == 0 then 0.0 else Sum(n - 1, f) + f(n - 1)
  }

  lemma {:induction false} SumExt(n: nat, f: nat -> real, g: nat -> real)
    requires forall i: nat :: i < n ==> f(i) == g(i)
    ensures Sum(n, f) == Sum(n, g)
  {
    if n > 0 {
      SumExt(n - 1, f, g);
    }
  }

  lemma {:induction false} SumZero(n: nat, f: nat -> real)
    requires forall i: nat :: i < n ==> f(i) == 0.0
    ensures Sum(n, f) == 0.0
  {
    if n > 0 {
      SumZero(n - 1, f);
    }
  }

  lemma {:induction false} SumAdd(n: nat, f: nat -> real, g: nat -> real, h: nat -> real)
    requires forall i: nat :: i < n ==> h(i) == f(i) + g(i)
    ensures Sum(n, h) == Sum(n, f) + Sum(n, g)
  {
    if n > 0 {
      SumAdd(n - 1, f, g, h);
    }
  }

  lemma {:induction false} SumScale(n: nat, a: real, f: nat -> real, h: nat -> real)
    requires forall i: nat :: i < n ==> h(i) == a * f(i)
    ensures Sum(n, h) == a * Sum(n, f)
  {
    if n > 0 {
      SumScale(n - 1, a, f, h);
      assert a * (Sum(n - 1, f) + f(n - 1)) == a * Sum(n - 1, f) + a * f(n - 1);
    }
  }

  function Combine(a: real, x: real, b: real, y: real): real
  {
    a * x + b * y
  }

  lemma SumLinear(n: nat, a: real, f: nat -> real, b: real, g: nat -> real, h: nat -> real)
    requires forall i: nat :: i < n ==> h(i) == Combine(a, f(i), b, g(i))
    ensures Sum(n, h) == Combine(a, Sum(n, f), b, Sum(n, g))
  {
    var af := (i: nat) => a * f(i);
    var bg := (i: nat) => b * g(i);
    SumScale(n, a, f, af);
    SumScale(n, b, g, bg);
    SumAdd(n, af, bg, h);
  }

  /** Two functions that agree except at `x`. */
  lemma {:induction false} SumPoint(n: nat, f: nat -> real, g: nat -> real, x: nat)
    requires x < n && forall i: nat :: i < n && i != x ==> f(i) == g(i)
    ensures Sum(n, g) == Sum(n, f) + (g(x) - f(x))
  {
    if x == n - 1 {
      SumExt(n - 1, f, g);
    } else {
      SumPoint(n - 1, f, g, x);
    }
  }

  /** Only one term is not zero. */
  lemma SumOne(n: nat, f: nat -> real, x: nat)
    requires x < n && forall i: nat :: i < n && i != x ==> f(i) == 0.0
    ensures Sum(n, f) == f(x)
  {
    var zero := (i: nat) => 0.0;
    SumZero(n, zero);
    SumPoint(n, zero, f, x);
  }

  ghost function Row(f: (nat, nat) -> real, i: nat): nat -> real
  {
    (j: nat) => f(i, j)
  }

  ghost function Column(f: (nat, nat) -> real, j: nat): nat -> real
  {
    (i: nat) => f(i, j)
  }

  /** Adding a table by rows or by columns. */
  lemma {:induction false} SumSwap(n: nat, m: nat, f: (nat, nat) -> real, rows: nat -> real, columns: nat -> real)
    requires forall i: nat :: i < n ==> rows(i) == Sum(m, Row(f, i))
    requires forall j: nat :: j < m ==> columns(j) == Sum(n, Column(f, j))
    ensures Sum(n, rows) == Sum(m, columns)
  {
    if n == 0 {
      SumZero(m, columns);
    } else {
      var shorter := (j: nat) => Sum(n - 1, Column(f, j));
      SumSwap(n - 1, m, f, rows, shorter);
      SumAdd(m, shorter, Row(f, n - 1), columns);
    }
  }
}
