/** Powers of two and the logarithm that counts them. */
module Powers {

  function Pow2(k: nat): (p: nat)
    ensures p > 0
  {
    if k == 0 then 1 else 2 * Pow2(k - 1)
  }

  lemma {:induction false} Pow2Grows(a: nat, b: nat)
    requires a <= b
    ensures Pow2(a) <= Pow2(b)
    decreases b
  {
    if a < b {
      Pow2Grows(a, b - 1);
    }
  }

  function Log2(n: nat): (k: nat)
    requires n > 0
    ensures Pow2(k) <= n < Pow2(k + 1)
  {
    if n == 1 then 0 else 1 + Log2(n / 2)
  }

  lemma {:induction false} Log2Grows(a: nat, b: nat)
    requires 0 < a <= b
    ensures Log2(a) <= Log2(b)
    decreases a
  {
    if a > 1 {
      Log2Grows(a / 2, b / 2);
    }
  }

  /** A number below a power of two has a smaller logarithm than that power. */
  lemma Log2Below(n: nat, k: nat)
    requires 0 < n < Pow2(k)
    ensures Log2(n) < k
  {
    if k <= Log2(n) {
      Pow2Grows(k, Log2(n));
    }
  }
}
