/** Big-endian numbers in any base: values, digits, and uniqueness. */
module Horner {
  import opened Arithmetic

  function Number(ds: seq<nat>, base: nat): nat {
    if ds == [] then 0 else Number(ds[..|ds| - 1], base) * base + ds[|ds| - 1]
  }

  ghost predicate Digital(ds: seq<nat>, base: nat) {
    forall i | 0 <= i < |ds| :: ds[i] < base
  }

  lemma NumberSnoc(ds: seq<nat>, d: nat, base: nat)
    ensures Number(ds + [d], base) == Number(ds, base) * base + d
  {
    assert (ds + [d])[..|ds|] == ds;
  }

  /** The last digit and the rest of a number. */
  lemma LastDigit(ds: seq<nat>, base: nat)
    requires base > 0 && ds != [] && Digital(ds, base)
    ensures Number(ds, base) / base == Number(ds[..|ds| - 1], base) && Number(ds, base) % base == ds[|ds| - 1]
  {
    DivModUnique(Number(ds, base), base, Number(ds[..|ds| - 1], base), ds[|ds| - 1]);
  }

  /** A number of a given length has one spelling. */
  lemma {:induction false} NumberUnique(a: seq<nat>, b: seq<nat>, base: nat)
    requires |a| == |b| && Digital(a, base) && Digital(b, base) && Number(a, base) == Number(b, base)
    ensures a == b
  {
    if a != [] {
      var n := |a| - 1;
      LastDigit(a, base);
      LastDigit(b, base);
      NumberUnique(a[..n], b[..n], base);
      assert a == a[..n] + [a[n]] && b == b[..n] + [b[n]];
    }
  }

  lemma {:induction false} NumberBound(ds: seq<nat>, base: nat)
    requires Digital(ds, base)
    ensures Number(ds, base) < Pow(base, |ds|)
  {
    if ds != [] {
      var n := |ds| - 1;
      NumberBound(ds[..n], base);
      MulMonotone(Number(ds[..n], base) + 1, Pow(base, n), base);
      Distribute(Number(ds[..n], base), 1, base);
    }
  }

  /** Leading zeros add nothing. */
  lemma {:induction false} NumberZeros(n: nat, ds: seq<nat>, base: nat)
    ensures Number(Zeros(n) + ds, base) == Number(ds, base)
    decreases |ds|, n
  {
    if ds != [] {
      var m := |ds| - 1;
      NumberZeros(n, ds[..m], base);
      assert (Zeros(n) + ds)[..n + m] == Zeros(n) + ds[..m];
    } else if n > 0 {
      NumberZeros(n - 1, [], base);
      assert Zeros(n) + ds == (Zeros(n - 1) + []) + [0];
      NumberSnoc(Zeros(n - 1) + [], 0, base);
    } else {
      assert Zeros(0) + ds == [];
    }
  }

  // ----- shortest spellings

  /** The digits of a number, without leading zeros. */
  function Digits(v: nat, base: nat): (r: seq<nat>)
    requires base > 1
    ensures Digital(r, base)
  {
    if v == 0 then []
    else
      Shrinks(v, base);
      Digits(v / base, base) + [v % base]
  }

  lemma Shrinks(v: nat, base: nat)
    requires v > 0 && base > 1
    ensures 0 <= v / base < v && 0 <= v % base < base && v == v / base * base + v % base
  {
    var q := v / base;
    assert v == q * base + v % base;
    if q >= v {
      MulMonotone(v, q, base);
      MulMonotone(2, base, v);
    }
  }

  lemma {:induction false} NumberOfDigits(v: nat, base: nat)
    requires base > 1
    ensures Number(Digits(v, base), base) == v
  {
    if v > 0 {
      Shrinks(v, base);
      NumberOfDigits(v / base, base);
      NumberSnoc(Digits(v / base, base), v % base, base);
    }
  }

  ghost predicate NoLeadingZero(ds: seq<nat>) { ds != [] ==> ds[0] != 0 }

  lemma {:induction false} DigitsStart(v: nat, base: nat)
    requires base > 1
    ensures NoLeadingZero(Digits(v, base)) && (v > 0 ==> Digits(v, base) != [])
  {
    if v > 0 {
      Shrinks(v, base);
      DigitsStart(v / base, base);
    }
  }

  /** Digits without a leading zero are the digits of their number. */
  lemma {:induction false} DigitsOfNumber(ds: seq<nat>, base: nat)
    requires base > 1 && Digital(ds, base) && NoLeadingZero(ds)
    ensures Digits(Number(ds, base), base) == ds
  {
    if ds != [] {
      var n := |ds| - 1;
      LastDigit(ds, base);
      DigitsOfNumber(ds[..n], base);
      if n == 0 {
        assert Number(ds[..n], base) == 0;
      } else {
        DigitsStart(Number(ds[..n], base), base);
        assert Number(ds[..n], base) > 0;
        AtLeastOnce(Number(ds[..n], base), base);
      }
      assert Number(ds, base) > 0;
      assert ds == ds[..n] + [ds[n]];
    }
  }

  lemma {:induction false} NumberCons(x: nat, rest: seq<nat>, base: nat)
    ensures Number([x] + rest, base) == x * Pow(base, |rest|) + Number(rest, base)
  {
    if rest == [] {
      assert [x] + rest == [x];
      assert Number([x][..0], base) == 0;
    } else {
      var n := |rest| - 1;
      NumberCons(x, rest[..n], base);
      assert ([x] + rest)[..n + 1] == [x] + rest[..n];
      Distribute(x * Pow(base, n), Number(rest[..n], base), base);
      Associate(x, Pow(base, n), base);
    }
  }

  lemma OneDigit(d: nat, base: nat)
    requires base > 1 && 0 < d < base
    ensures Digits(d, base) == [d]
  {
    DivModUnique(d, base, 0, d);
    assert [] + [d] == [d];
  }

  lemma PowerStep(v: nat, d: nat, p: nat, base: nat)
    requires base > 0 && d * (base * p) <= v < (d + 1) * (base * p)
    ensures d * p <= v / base < (d + 1) * p
  {
    Associate(d, p, base);
    Associate(d + 1, p, base);
    QuotientBetween(v, d * p, (d + 1) * p, base);
  }

  lemma SameFirst(v: nat, base: nat)
    requires base > 1 && Digits(Quotient(v, base), base) != []
    ensures Digits(v, base) != [] && Digits(v, base)[0] == Digits(Quotient(v, base), base)[0]
  {
    assert Digits(0, base) == [];
    if v == 0 {
      DivModUnique(0, base, 0, 0);
    }
  }

  /** The first digit of a number between `d` and `d + 1` times a power. */
  lemma {:induction false} FirstDigit(v: nat, d: nat, n: nat, base: nat)
    requires base > 1 && 0 < d < base && d * Pow(base, n) <= v < (d + 1) * Pow(base, n)
    ensures Digits(v, base) != [] && Digits(v, base)[0] == d
    decreases n
  {
    if n == 0 {
      OneDigit(d, base);
    } else {
      PowerStep(v, d, Pow(base, n - 1), base);
      FirstDigit(Quotient(v, base), d, n - 1, base);
      SameFirst(v, base);
    }
  }

  lemma QuotientBetween(v: nat, low: int, high: int, base: nat)
    requires base > 0 && low * base <= v < high * base
    ensures low <= v / base < high
  {
    var q := v / base;
    assert v == q * base + v % base;
    if q < low {
      MulMonotone(q + 1, low, base);
      Distribute(q, 1, base);
    }
    if q >= high {
      MulMonotone(high, q, base);
    }
  }
}
