/** Bitwise exclusive or on natural numbers. */
module Bitwise {
  import opened Arithmetic

  function Xor(a: nat, b: nat): nat {
    if a == 0 && b == 0 then 0 else 2 * Xor(a / 2, b / 2) + (a + b) % 2
  }

  lemma {:induction false} XorHalves(a: nat, b: nat)
    ensures Xor(a, b) / 2 == Xor(a / 2, b / 2) && Xor(a, b) % 2 == (a + b) % 2
  {
  }

  lemma {:induction false} XorCommutes(a: nat, b: nat)
    ensures Xor(a, b) == Xor(b, a)
  {
    if a != 0 || b != 0 {
      XorCommutes(a / 2, b / 2);
    }
  }

  lemma {:induction false} XorZero(a: nat)
    ensures Xor(a, 0) == a
  {
    if a != 0 {
      XorZero(a / 2);
    }
  }

  lemma {:induction false} XorSelf(a: nat)
    ensures Xor(a, a) == 0
  {
    if a != 0 {
      XorSelf(a / 2);
    }
  }

  lemma SameHalves(x: nat, y: nat)
    requires x / 2 == y / 2 && x % 2 == y % 2
    ensures x == y
  {
  }

  lemma ParityAssociates(a: nat, b: nat, c: nat, ab: nat, bc: nat, l: nat, r: nat)
    requires ab % 2 == (a + b) % 2 && bc % 2 == (b + c) % 2 && l % 2 == (ab + c) % 2 && r % 2 == (a + bc) % 2
    ensures l % 2 == r % 2
  {
    assert (ab + c) % 2 == (a + b + c) % 2;
  }

  lemma {:induction false} XorAssociates(a: nat, b: nat, c: nat)
    ensures Xor(Xor(a, b), c) == Xor(a, Xor(b, c))
    decreases a + b + c
  {
    if a != 0 || b != 0 || c != 0 {
      assert Xor(Xor(a, b), c) / 2 == Xor(a, Xor(b, c)) / 2 by {
        XorHalves(Xor(a, b), c);
        XorHalves(a, b);
        XorHalves(a, Xor(b, c));
        XorHalves(b, c);
        XorAssociates(a / 2, b / 2, c / 2);
      }
      assert Xor(Xor(a, b), c) % 2 == Xor(a, Xor(b, c)) % 2 by {
        XorHalves(Xor(a, b), c);
        XorHalves(a, b);
        XorHalves(a, Xor(b, c));
        XorHalves(b, c);
        ParityAssociates(a, b, c, Xor(a, b), Xor(b, c), Xor(Xor(a, b), c), Xor(a, Xor(b, c)));
      }
      SameHalves(Xor(Xor(a, b), c), Xor(a, Xor(b, c)));
    }
  }

  /** Appending a bit to both. */
  lemma XorAppend(a: nat, b: nat, s: nat, t: nat, a': nat, b': nat)
    requires s < 2 && t < 2 && a' == 2 * a + s && b' == 2 * b + t
    ensures Xor(a', b') == 2 * Xor(a, b) + (s + t) % 2
  {
    assert a' / 2 == a && b' / 2 == b;
    assert (a' + b') % 2 == (s + t) % 2;
  }

  lemma {:induction false} XorBound(a: nat, b: nat, n: nat)
    requires a < Pow2(n) && b < Pow2(n)
    ensures Xor(a, b) < Pow2(n)
  {
    if n > 0 {
      XorBound(a / 2, b / 2, n - 1);
    }
  }

  /** High and low bits are combined apart. */
  ghost predicate Splits(a: nat, b: nat, c: nat, d: nat, n: nat) {
    Xor(Shl(a, n) + b, Shl(c, n) + d) == Shl(Xor(a, c), n) + Xor(b, d)
  }

  lemma {:induction false} XorSplit(a: nat, b: nat, c: nat, d: nat, n: nat)
    requires b < Pow2(n) && d < Pow2(n)
    ensures Splits(a, b, c, d, n)
  {
    if n > 0 {
      XorSplit(a, b / 2, c, d / 2, n - 1);
      SplitStep(a, b / 2, b % 2, b, c, d / 2, d % 2, d, n);
    }
  }

  lemma SplitStep(a: nat, b': nat, s: nat, b: nat, c: nat, d': nat, t: nat, d: nat, n: nat)
    requires n > 0 && s < 2 && t < 2 && b == 2 * b' + s && d == 2 * d' + t && Splits(a, b', c, d', n - 1)
    ensures Splits(a, b, c, d, n)
  {
    XorAppend(b', d', s, t, b, d);
    XorAppend(Shl(a, n - 1) + b', Shl(c, n - 1) + d', s, t, Shl(a, n) + b, Shl(c, n) + d);
  }
}
