/** Division with remainder and powers, as the codecs and index computations need them. */
module Arithmetic {

  lemma Distribute(a: int, b: int, n: int)
    ensures (a + b) * n == a * n + b * n
    ensures (a - b) * n == a * n - b * n
  {
  }

  lemma Associate(a: int, b: int, c: int)
    ensures a * (b * c) == (a * b) * c
  {
  }

  lemma AtLeastOnce(k: int, n: int)
    requires k >= 1 && n >= 0
    ensures k * n >= n
  {
    Distribute(k - 1, 1, n);
  }

  lemma MulMonotone(a: int, b: int, n: int)
    requires a <= b && n >= 0
    ensures a * n <= b * n
  {
    Distribute(b, a, n);
  }

  /** Quotient and remainder are determined by the product. */
  lemma DivModUnique(x: int, n: int, q: int, r: int)
    requires n > 0 && x == q * n + r && 0 <= r < n
    ensures x / n == q && x % n == r
  {
    var q', r' := x / n, x % n;
    assert x == q' * n + r';
    Distribute(q, q', n);
    Distribute(q', q, n);
    if q > q' {
      AtLeastOnce(q - q', n);
    } else if q < q' {
      AtLeastOnce(q' - q, n);
    }
  }

  lemma DivNonNegative(x: nat, n: nat)
    requires n > 0
    ensures x / n >= 0
  {
  }

  function Quotient(x: nat, n: nat): (q: nat)
    requires n > 0
    ensures q == x / n
  {
    DivNonNegative(x, n);
    x / n
  }

  function Smaller(a: nat, b: nat): nat { if a <= b then a else b }

  function Pow(base: nat, n: nat): nat {
    if n == 0 then 1 else base * Pow(base, n - 1)
  }

  function Pow2(n: nat): (p: nat)
    ensures p > 0
  {
    if n == 0 then 1 else 2 * Pow2(n - 1)
  }

  lemma {:induction false} Pow2Add(m: nat, n: nat)
    ensures Pow2(m + n) == Pow2(m) * Pow2(n)
  {
    if m > 0 {
      Pow2Add(m - 1, n);
      Associate(2, Pow2(m - 1), Pow2(n));
    }
  }

  lemma {:induction false} PowAdd(base: nat, m: nat, n: nat)
    ensures Pow(base, m + n) == Pow(base, m) * Pow(base, n)
  {
    if m > 0 {
      PowAdd(base, m - 1, n);
      Associate(base, Pow(base, m - 1), Pow(base, n));
    }
  }

  lemma {:induction false} Pow2Monotone(m: nat, n: nat)
    requires m <= n
    ensures Pow2(m) <= Pow2(n)
  {
    if m < n {
      Pow2Monotone(m, n - 1);
    }
  }

  function Zeros(n: nat): (r: seq<nat>)
    ensures |r| == n && forall i | 0 <= i < n :: r[i] == 0
  {
    seq(n, _ => 0)
  }

  /** `v << n`. */
  function Shl(v: nat, n: nat): nat {
    if n == 0 then v else 2 * Shl(v, n - 1)
  }

  lemma {:induction false} ShlProduct(v: nat, n: nat)
    ensures Shl(v, n) == v * Pow2(n)
  {
    if n > 0 {
      ShlProduct(v, n - 1);
      Associate(v, 2, Pow2(n - 1));
    }
  }

  lemma {:induction false} ShlAdd(a: nat, b: nat, n: nat)
    ensures Shl(a + b, n) == Shl(a, n) + Shl(b, n)
  {
    if n > 0 {
      ShlAdd(a, b, n - 1);
    }
  }

  lemma {:induction false} ShlShl(v: nat, m: nat, n: nat)
    ensures Shl(Shl(v, m), n) == Shl(v, m + n)
  {
    if n > 0 {
      ShlShl(v, m, n - 1);
    }
  }

  /** A number below `2^m` with one below `2^n` above it. */
  lemma StackBound(low: nat, m: nat, high: nat, n: nat)
    requires low < Pow2(m) && high < Pow2(n)
    ensures low + Shl(high, m) < Pow2(m + n)
  {
    ShlProduct(high, m);
    MulMonotone(high + 1, Pow2(n), Pow2(m));
    Distribute(high, 1, Pow2(m));
    Pow2Add(n, m);
  }

  lemma StackShift(low: nat, high: nat, m: nat, at: nat)
    ensures Shl(low + Shl(high, m), at) == Shl(low, at) + Shl(high, m + at)
  {
    ShlAdd(low, Shl(high, m), at);
    ShlShl(high, m, at);
  }

  lemma Pow2Double(n: nat, v: nat)
    requires Pow2(n) == v
    ensures Pow2(n + n) == v * v
  {
    Pow2Add(n, n);
  }
}
