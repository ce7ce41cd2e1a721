/** Large integers as JavaScript numbers: the conversion takes the nearest double, and the even one of two. */
module CodecNumbers {
  import opened Arithmetic
  import opened Codec

  const SIGNIFICANDS: nat := 0x20_0000_0000_0000

  /** An integer that a double holds, the size of its exponent aside. */
  ghost predicate IsDouble(x: nat) {
    exists m: nat, e: nat :: m < SIGNIFICANDS && Scaled(x, m, e)
  }

  predicate Scaled(x: nat, m: nat, e: nat) { x == m * Pow2(e) }

  function Distance(a: nat, b: nat): nat { if a <= b then b - a else a - b }

  lemma {:induction false} ExcessBounds(v: nat)
    ensures v < SIGNIFICANDS * Pow2(Excess(v))
    ensures Excess(v) > 0 ==> 2 * v >= SIGNIFICANDS * Pow2(Excess(v))
  {
    if v >= SIGNIFICANDS {
      ExcessBounds(v / 2);
    }
  }

  /** The two multiples around a number; the chosen one is as near as any. */
  ghost predicate Rounds(v: nat, unit: nat, q: nat, n: nat) {
    && unit > 0 && q * unit <= v < (q + 1) * unit
    && (n == q * unit || n == (q + 1) * unit)
    && 2 * Distance(n, v) <= unit
  }

  lemma RoundsBy(v: nat, unit: nat, q: nat, rest: nat, n: int)
    requires v == q * unit + rest && rest < unit
    requires n == if 2 * rest > unit || (2 * rest == unit && unit > 1 && q % 2 == 1) then (q + 1) * unit else q * unit
    ensures n >= 0 && Rounds(v, unit, q, n)
  {
    Distribute(q, 1, unit);
    MulMonotone(0, q, unit);
  }

  lemma RoundsTo(v: nat)
    ensures Rounds(v, Pow2(Excess(v)), Quotient(v, Pow2(Excess(v))), ToNumber(v))
  {
    var unit := Pow2(Excess(v));
    assert v == v / unit * unit + v % unit;
    RoundsBy(v, unit, Quotient(v, unit), v % unit, ToNumber(v));
  }

  lemma MultipleFarther(v: nat, unit: nat, q: nat, n: nat, k: nat)
    requires Rounds(v, unit, q, n)
    ensures k * unit >= 0 && Distance(n, v) <= Distance(k * unit, v)
    ensures Distance(n, v) == Distance(k * unit, v) && k * unit != n ==> 2 * Distance(n, v) == unit
  {
    Distribute(q, 1, unit);
    if k <= q {
      MulMonotone(k, q, unit);
      if k < q {
        MulMonotone(k + 1, q, unit);
        Distribute(k, 1, unit);
      }
    } else {
      MulMonotone(q + 1, k, unit);
      if k > q + 1 {
        MulMonotone(q + 2, k, unit);
        Distribute(q, 2, unit);
      }
    }
    MulMonotone(0, k, unit);
  }

  /** A double of lesser exponent lies below all that have the number's. */
  lemma FinerIsLower(v: nat, m: nat, f: nat, e: nat)
    requires m < SIGNIFICANDS && f < e && 2 * v >= SIGNIFICANDS * Pow2(e)
    ensures 2 * (m * Pow2(f)) < SIGNIFICANDS * Pow2(e) && m * Pow2(f) >= 0
  {
    Pow2Monotone(f + 1, e);
    MulMonotone(m + 1, SIGNIFICANDS, Pow2(f));
    Distribute(m, 1, Pow2(f));
    MulMonotone(0, m, Pow2(f));
  }

  lemma CoarserIsMultiple(m: nat, f: nat, e: nat)
    requires f >= e
    ensures m * Pow2(f) == (m * Pow2(f - e)) * Pow2(e)
  {
    Pow2Add(f - e, e);
    Associate(m, Pow2(f - e), Pow2(e));
  }

  /** The number is a double, and no double is nearer; if another is as near, its last bit is zero. */
  lemma NearestDouble(v: nat, m: nat, f: nat, x: nat)
    requires m < SIGNIFICANDS && Scaled(x, m, f)
    ensures Distance(ToNumber(v), v) <= Distance(x, v)
    ensures Distance(ToNumber(v), v) == Distance(x, v) && x != ToNumber(v) ==>
            Quotient(ToNumber(v), Pow2(Excess(v))) % 2 == 0
  {
    var e, n := Excess(v), ToNumber(v);
    var unit := Pow2(e);
    var q := Quotient(v, unit);
    ExcessBounds(v);
    RoundsTo(v);
    if f >= e {
      CoarserIsMultiple(m, f, e);
      MulMonotone(0, m, Pow2(f - e));
      MultipleFarther(v, unit, q, n, m * Pow2(f - e));
      if Distance(n, v) == Distance(x, v) && x != n {
        TieIsEven(v, unit, q);
      }
    } else {
      FinerIsLower(v, m, f, e);
      MultipleFarther(v, unit, q, n, SIGNIFICANDS / 2);
    }
  }

  lemma TieIsEven(v: nat, unit: nat, q: nat)
    requires unit == Pow2(Excess(v)) && q == Quotient(v, unit) && 2 * Distance(ToNumber(v), v) == unit
    ensures Quotient(ToNumber(v), unit) % 2 == 0
  {
    assert v == q * unit + v % unit;
    Distribute(q, 1, unit);
    if ToNumber(v) == q * unit {
      DivModUnique(ToNumber(v), unit, q, 0);
    } else {
      DivModUnique(ToNumber(v), unit, q + 1, 0);
    }
  }

  lemma NumberIsDouble(v: nat)
    ensures IsDouble(ToNumber(v))
  {
    var e := Excess(v);
    var unit := Pow2(e);
    var q := Quotient(v, unit);
    ExcessBounds(v);
    RoundsTo(v);
    if q >= SIGNIFICANDS {
      MulMonotone(SIGNIFICANDS, q, unit);
    }
    if ToNumber(v) == q * unit {
      assert Scaled(ToNumber(v), q, e);
    } else if q + 1 < SIGNIFICANDS {
      assert Scaled(ToNumber(v), q + 1, e);
    } else {
      assert Scaled(ToNumber(v), SIGNIFICANDS / 2, e + 1);
    }
  }
}
