/**
 The checksum as BIP-173 defines it: a remainder of polynomials over the field
 of 32 elements. So a single wrong symbol is always noticed.
 */
module Bech32Field {
  import opened Arithmetic
  import opened Radix
  import opened Horner
  import opened Bitwise
  import opened Bech32Checksum

  lemma Pow2Is32()
    ensures Pow2(SYMBOL_BITS) == 32
  {
    RegisterSize();
  }

  function Plus(a: nat, b: nat): (r: nat)
    requires a < 32 && b < 32
    ensures r < 32
  {
    Pow2Is32();
    XorBound(a, b, SYMBOL_BITS);
    Xor(a, b)
  }

  /** A field element times x, reduced by x^5 + x^3 + 1. */
  function Double(a: nat): (r: nat)
    requires a < 32
    ensures r < 32
  {
    if a < 16 then 2 * a else Plus(2 * a - 32, 9)
  }

  function DoubleTimes(a: nat, n: nat): (r: nat)
    requires a < 32
    ensures r < 32
  {
    if n == 0 then a else Double(DoubleTimes(a, n - 1))
  }

  /** The product of `a` with the low `i` bits of `b`. */
  function TimesLow(a: nat, b: nat, i: nat): (r: nat)
    requires a < 32
    ensures r < 32
  {
    if i == 0 then 0
    else Plus(TimesLow(a, b, i - 1), if High(b, i - 1) % 2 == 1 then DoubleTimes(a, i - 1) else 0)
  }

  /** The generator polynomial without its leading x^6, as BIP-173 lists it. */
  const GENERATOR: seq<nat> := [29, 22, 20, 21, 29, 18]

  predicate Symbols(r: seq<nat>) {
    |r| == 6 && forall k | 0 <= k < 6 :: r[k] < 32
  }

  function Sum(a: seq<nat>, b: seq<nat>): (r: seq<nat>)
    requires Symbols(a) && Symbols(b)
    ensures Symbols(r)
  {
    seq(6, k requires 0 <= k < 6 => Plus(a[k], b[k]))
  }

  /** The generator times the low `i` bits of `b`. */
  function Multiple(b: nat, i: nat): (r: seq<nat>)
    ensures Symbols(r)
  {
    seq(6, k requires 0 <= k < 6 => TimesLow(GENERATOR[k], b, i))
  }

  /**
   Multiply the polynomial by x, add a symbol, and subtract the generator as
   often as the leading coefficient says.
   */
  function Divided(r: seq<nat>, v: nat): (r': seq<nat>)
    requires Symbols(r) && v < 32
    ensures Symbols(r')
  {
    Sum(r[1..] + [v], Multiple(r[0], SYMBOL_BITS))
  }

  // ----- the register as six symbols

  /** Symbols are combined one by one. */
  lemma {:induction false} XorNumbers(a: seq<nat>, b: seq<nat>, c: seq<nat>)
    requires |a| == |b| == |c| && Digital(a, 32) && Digital(b, 32)
    requires forall k | 0 <= k < |a| :: c[k] == Xor(a[k], b[k])
    ensures Xor(Number(a, 32), Number(b, 32)) == Number(c, 32)
  {
    if a != [] {
      var n := |a| - 1;
      XorNumbers(a[..n], b[..n], c[..n]);
      Pow2Is32();
      ShlProduct(Number(a[..n], 32), SYMBOL_BITS);
      ShlProduct(Number(b[..n], 32), SYMBOL_BITS);
      ShlProduct(Number(c[..n], 32), SYMBOL_BITS);
      XorSplit(Number(a[..n], 32), a[n], Number(b[..n], 32), b[n], SYMBOL_BITS);
    }
  }

  function Doubled(n: nat): (r: seq<nat>)
    ensures Symbols(r)
  {
    seq(6, k requires 0 <= k < 6 => DoubleTimes(GENERATOR[k], n))
  }

  lemma SixIs(r: seq<nat>)
    requires |r| == 6
    ensures Number(r, 32) == ((((r[0] * 32 + r[1]) * 32 + r[2]) * 32 + r[3]) * 32 + r[4]) * 32 + r[5]
  {
    assert r[..5][..4] == r[..4] && r[..4][..3] == r[..3] && r[..3][..2] == r[..2] && r[..2][..1] == r[..1];
    assert Number(r[..1], 32) == r[0];
    assert Number(r[..2], 32) == r[0] * 32 + r[1];
    assert Number(r[..3], 32) == Number(r[..2], 32) * 32 + r[2];
    assert Number(r[..4], 32) == Number(r[..3], 32) * 32 + r[3];
    assert Number(r[..5], 32) == Number(r[..4], 32) * 32 + r[4];
  }

  lemma NumberOf(r: seq<nat>, n: nat)
    requires |r| == 6 && n == ((((r[0] * 32 + r[1]) * 32 + r[2]) * 32 + r[3]) * 32 + r[4]) * 32 + r[5]
    ensures Number(r, 32) == n
  {
    SixIs(r);
  }

  ghost predicate AreDoubles(a: seq<nat>, b: seq<nat>) {
    Symbols(a) && Symbols(b) && forall k | 0 <= k < 6 :: b[k] == Double(a[k])
  }

  lemma DoubledNext(n: nat, a: seq<nat>, b: seq<nat>)
    requires Doubled(n) == a && AreDoubles(a, b)
    ensures Doubled(n + 1) == b
  {
  }

  lemma DoubleOf29()
    ensures Double(29) == 19
  {
    assert Xor(26, 9) == 19;
  }

  lemma DoubleOf30()
    ensures Double(30) == 21
  {
    assert Xor(28, 9) == 21;
  }

  lemma DoublesOf18And20()
    ensures Double(18) == 13 && Double(20) == 1
  {
  }

  lemma DoubleOf21()
    ensures Double(21) == 3
  {
  }

  lemma DoubleOf22()
    ensures Double(22) == 5
  {
  }

  lemma DoublesOne()
    ensures AreDoubles([29, 22, 20, 21, 29, 18], [19, 5, 1, 3, 19, 13])
  {
    DoubleOf29();
    DoublesOf18And20();
    DoubleOf21();
    DoubleOf22();
  }

  lemma DoublesTwo()
    ensures AreDoubles([19, 5, 1, 3, 19, 13], [15, 10, 2, 6, 15, 26])
  {
    assert Double(19) == 15;
  }

  lemma DoublesThree()
    ensures AreDoubles([15, 10, 2, 6, 15, 26], [30, 20, 4, 12, 30, 29])
  {
    assert Double(26) == 29;
  }

  lemma DoublesFour()
    ensures AreDoubles([30, 20, 4, 12, 30, 29], [21, 1, 8, 24, 21, 19])
  {
    DoubleOf29();
    DoubleOf30();
    DoublesOf18And20();
  }

  lemma DoubledAre()
    ensures Doubled(0) == [29, 22, 20, 21, 29, 18] && Doubled(1) == [19, 5, 1, 3, 19, 13]
    ensures Doubled(2) == [15, 10, 2, 6, 15, 26] && Doubled(3) == [30, 20, 4, 12, 30, 29]
    ensures Doubled(4) == [21, 1, 8, 24, 21, 19]
  {
    assert Doubled(0) == [29, 22, 20, 21, 29, 18];
    DoublesOne();
    DoublesTwo();
    DoublesThree();
    DoublesFour();
    DoubledNext(0, [29, 22, 20, 21, 29, 18], [19, 5, 1, 3, 19, 13]);
    DoubledNext(1, [19, 5, 1, 3, 19, 13], [15, 10, 2, 6, 15, 26]);
    DoubledNext(2, [15, 10, 2, 6, 15, 26], [30, 20, 4, 12, 30, 29]);
    DoubledNext(3, [30, 20, 4, 12, 30, 29], [21, 1, 8, 24, 21, 19]);
  }

  /** The code's constants are the generator times the powers of x. */
  lemma GeneratorsAre(i: nat)
    requires i < 5
    ensures GEN[i] == Number(Doubled(i), 32)
  {
    DoubledAre();
    if i == 0 {
      NumberOf(Doubled(0), GEN[0]);
    } else if i == 1 {
      NumberOf(Doubled(1), GEN[1]);
    } else if i == 2 {
      NumberOf(Doubled(2), GEN[2]);
    } else if i == 3 {
      NumberOf(Doubled(3), GEN[3]);
    } else {
      NumberOf(Doubled(4), GEN[4]);
    }
  }

  // ----- one step is one division step

  lemma SumNumbers(a: seq<nat>, b: seq<nat>)
    requires Symbols(a) && Symbols(b)
    ensures Xor(Number(a, 32), Number(b, 32)) == Number(Sum(a, b), 32)
  {
    XorNumbers(a, b, Sum(a, b));
  }

  lemma NoSymbols()
    ensures Symbols(Zeros(6)) && Number(Zeros(6), 32) == 0
  {
    SixIs(Zeros(6));
  }

  lemma MultipleNext(b: nat, i: nat)
    ensures Multiple(b, i + 1) == Sum(Multiple(b, i), if High(b, i) % 2 == 1 then Doubled(i) else Zeros(6))
  {
  }

  lemma {:induction false} SelectedIs(b: nat, i: nat)
    requires i <= 5
    ensures Selected(b, i) == Number(Multiple(b, i), 32)
  {
    NoSymbols();
    if i == 0 {
      assert Multiple(b, i) == Zeros(6);
    } else {
      SelectedIs(b, i - 1);
      GeneratorsAre(i - 1);
      MultipleNext(b, i - 1);
      SumNumbers(Multiple(b, i - 1), if High(b, i - 1) % 2 == 1 then Doubled(i - 1) else Zeros(6));
    }
  }

  /** The top symbol of the register and the rest. */
  lemma TopSymbol(r: seq<nat>)
    requires Symbols(r)
    ensures High(Number(r, 32), LOW_BITS) == r[0] && Low(Number(r, 32), LOW_BITS) == Number(r[1..], 32)
  {
    var rest := r[1..];
    assert r == [r[0]] + rest;
    NumberCons(r[0], rest, 32);
    FewSymbols(rest);
    PowOfSymbols(5);
    BitsProduct(SYMBOL_BITS, 5);
    ShlProduct(r[0], LOW_BITS);
    PartsUnique(Number(r, 32), r[0], Number(rest, 32), LOW_BITS);
  }

  /** A step of the register is a step of the polynomial division. */
  lemma StepDivides(r: seq<nat>, v: nat)
    requires Symbols(r) && v < 32
    ensures Step(Number(r, 32), v) == Number(Divided(r, v), 32)
  {
    var rest := r[1..];
    TopSymbol(r);
    ShiftIn(rest, v);
    SelectedIs(r[0], |GEN|);
    SumNumbers(rest + [v], Multiple(r[0], SYMBOL_BITS));
  }

  lemma ShiftIn(rest: seq<nat>, v: nat)
    requires v < 32
    ensures Xor(Shl(Number(rest, 32), SYMBOL_BITS), v) == Number(rest + [v], 32)
  {
    Pow2Is32();
    ShlProduct(Number(rest, 32), SYMBOL_BITS);
    XorAdd(Number(rest, 32), v, SYMBOL_BITS);
    NumberSnoc(rest, v, 32);
  }

  /** The remainder by the generator, of a polynomial that begins with `r`. */
  function Remainder(r: seq<nat>, vs: seq<nat>): (r': seq<nat>)
    requires Symbols(r) && Digital(vs, 32)
    ensures Symbols(r')
  {
    if vs == [] then r else Divided(Remainder(r, vs[..|vs| - 1]), vs[|vs| - 1])
  }

  lemma {:induction false} FoldIsRemainder(r: seq<nat>, vs: seq<nat>)
    requires Symbols(r) && Digital(vs, 32)
    ensures Fold(Number(r, 32), vs) == Number(Remainder(r, vs), 32)
  {
    if vs != [] {
      var n := |vs| - 1;
      FoldIsRemainder(r, vs[..n]);
      StepDivides(Remainder(r, vs[..n]), vs[n]);
    }
  }

  /** The checksum register is the remainder, by BIP-173's generator, of the symbols with a one in front. */
  lemma PolymodIsRemainder(vs: seq<nat>)
    requires Digital(vs, 32)
    ensures Fold(1, vs) == Number(Remainder([0, 0, 0, 0, 0, 1], vs), 32)
  {
    var one: seq<nat> := [0, 0, 0, 0, 0, 1];
    SixIs(one);
    FoldIsRemainder(one, vs);
  }

  // ----- one wrong symbol

  predicate Bit(x: nat, k: nat) {
    if k == 0 then x % 2 == 1 else Bit(x / 2, k - 1)
  }

  lemma {:induction false} BitIsHigh(x: nat, k: nat)
    ensures Bit(x, k) <==> High(x, k) % 2 == 1
  {
    if k > 0 {
      BitIsHigh(x / 2, k - 1);
      HighHigh(x, 1, k - 1);
      assert Pow2(1) == 2;
    }
  }

  lemma {:induction false} BitXor(a: nat, b: nat, k: nat)
    ensures Bit(Xor(a, b), k) <==> Bit(a, k) != Bit(b, k)
  {
    XorHalves(a, b);
    if k > 0 {
      BitXor(a / 2, b / 2, k - 1);
    }
  }

  lemma {:induction false} BitZero(k: nat)
    ensures !Bit(0, k)
  {
    if k > 0 {
      BitZero(k - 1);
    }
  }

  lemma {:induction false} SameBits(a: nat, b: nat, n: nat)
    requires a < Pow2(n) && b < Pow2(n) && forall k: nat | k < n :: Bit(a, k) == Bit(b, k)
    ensures a == b
  {
    if n > 0 {
      assert Bit(a, 0) == Bit(b, 0);
      forall k: nat | k < n - 1 ensures Bit(a / 2, k) == Bit(b / 2, k) {
        assert Bit(a, k + 1) == Bit(b, k + 1);
      }
      SameBits(a / 2, b / 2, n - 1);
    }
  }

  lemma TimesBit(a: nat, b: nat, i: nat, d: nat, k: nat)
    requires a < 32 && d == DoubleTimes(a, i)
    ensures Bit(TimesLow(a, b, i + 1), k) <==> Bit(TimesLow(a, b, i), k) != (Bit(b, i) && Bit(d, k))
  {
    BitIsHigh(b, i);
    BitZero(k);
    BitXor(TimesLow(a, b, i), if High(b, i) % 2 == 1 then d else 0, k);
  }

  /** Whether the low `i` bits of `b` select an odd number of the column's ones. */
  predicate Odd(b: nat, column: seq<bool>, i: nat)
    requires i <= |column|
  {
    i > 0 && Odd(b, column, i - 1) != (Bit(b, i - 1) && column[i - 1])
  }

  /** The column holds the bits `k` of the doubles of `a`. */
  predicate IsColumn(a: nat, k: nat, column: seq<bool>)
    requires a < 32
  {
    forall j | 0 <= j < |column| :: column[j] == Bit(DoubleTimes(a, j), k)
  }

  lemma {:induction false} TimesOdd(a: nat, b: nat, k: nat, column: seq<bool>, i: nat)
    requires a < 32 && i <= |column| && IsColumn(a, k, column)
    ensures Bit(TimesLow(a, b, i), k) <==> Odd(b, column, i)
  {
    if i == 0 {
      BitZero(k);
    } else {
      TimesOdd(a, b, k, column, i - 1);
      TimesBit(a, b, i - 1, DoubleTimes(a, i - 1), k);
    }
  }

  lemma EighteenDoubles(e: nat)
    requires e == 18
    ensures DoubleTimes(e, 0) == 18 && DoubleTimes(e, 1) == 13 && DoubleTimes(e, 2) == 26
    ensures DoubleTimes(e, 3) == 29 && DoubleTimes(e, 4) == 19
  {
    DoubledAre();
    assert Doubled(0)[5] == 18 && Doubled(1)[5] == 13 && Doubled(2)[5] == 26 && Doubled(3)[5] == 29
           && Doubled(4)[5] == 19;
  }

  /** The bits of 18, 13, 26, 29 and 19. */
  const COLUMNS: seq<seq<bool>> := [[false, true, false, true, true], [true, false, true, false, true],
                                    [false, true, false, true, false], [false, true, true, true, false],
                                    [true, false, true, true, true]]

  function Ones(b: bool): nat { if b then 1 else 0 }

  lemma FiveBits(x: nat, b0: bool, b1: bool, b2: bool, b3: bool, b4: bool)
    requires x == Ones(b0) + 2 * Ones(b1) + 4 * Ones(b2) + 8 * Ones(b3) + 16 * Ones(b4)
    ensures Bit(x, 0) == b0 && Bit(x, 1) == b1 && Bit(x, 2) == b2 && Bit(x, 3) == b3 && Bit(x, 4) == b4
  {
    var x1, x2, x3, x4 := x / 2, x / 2 / 2, x / 2 / 2 / 2, x / 2 / 2 / 2 / 2;
    assert Bit(x, 1) == Bit(x1, 0) && Bit(x, 2) == Bit(x1, 1) == Bit(x2, 0);
    assert Bit(x, 3) == Bit(x1, 2) == Bit(x2, 1) == Bit(x3, 0);
    assert Bit(x, 4) == Bit(x1, 3) == Bit(x2, 2) == Bit(x3, 1) == Bit(x4, 0);
  }

  lemma ColumnsAre(e: nat, k: nat)
    requires e == 18 && k < 5
    ensures IsColumn(e, k, COLUMNS[k])
  {
    EighteenDoubles(e);
    FiveBits(DoubleTimes(e, 0), false, true, false, false, true);
    FiveBits(DoubleTimes(e, 1), true, false, true, true, false);
    FiveBits(DoubleTimes(e, 2), false, true, false, true, true);
    FiveBits(DoubleTimes(e, 3), true, false, true, true, true);
    FiveBits(DoubleTimes(e, 4), true, true, false, false, true);
  }

  lemma OddOfFive(b: nat, c: seq<bool>)
    requires |c| == 5
    ensures Odd(b, c, 5) <==>
            (((((Bit(b, 0) && c[0]) != (Bit(b, 1) && c[1])) != (Bit(b, 2) && c[2])) != (Bit(b, 3) && c[3]))
             != (Bit(b, 4) && c[4]))
  {
    assert Odd(b, c, 0) == false;
    assert Odd(b, c, 1) == (Bit(b, 0) && c[0]);
    assert Odd(b, c, 2) == (Odd(b, c, 1) != (Bit(b, 1) && c[1]));
    assert Odd(b, c, 3) == (Odd(b, c, 2) != (Bit(b, 2) && c[2]));
    assert Odd(b, c, 4) == (Odd(b, c, 3) != (Bit(b, 3) && c[3]));
  }

  /** The parities of a symbol. */
  lemma Parities(b: nat, c: seq<seq<bool>>)
    requires c == COLUMNS
    ensures Odd(b, c[0], 5) <==> (Bit(b, 1) != Bit(b, 3)) != Bit(b, 4)
    ensures Odd(b, c[1], 5) <==> (Bit(b, 0) != Bit(b, 2)) != Bit(b, 4)
    ensures Odd(b, c[2], 5) <==> Bit(b, 1) != Bit(b, 3)
    ensures Odd(b, c[3], 5) <==> (Bit(b, 1) != Bit(b, 2)) != Bit(b, 3)
    ensures Odd(b, c[4], 5) <==> ((Bit(b, 0) != Bit(b, 2)) != Bit(b, 3)) != Bit(b, 4)
  {
    OddOfFive(b, c[0]);
    OddOfFive(b, c[1]);
    OddOfFive(b, c[2]);
    OddOfFive(b, c[3]);
    OddOfFive(b, c[4]);
  }

  /** The columns are independent: from the parities, every bit can be told. */
  lemma ColumnsTell(a: nat, b: nat)
    requires forall k: nat | k < 5 :: Odd(a, COLUMNS[k], 5) == Odd(b, COLUMNS[k], 5)
    ensures forall k: nat | k < 5 :: Bit(a, k) == Bit(b, k)
  {
    var c := COLUMNS;
    Parities(a, c);
    Parities(b, c);
    assert Odd(a, c[0], 5) == Odd(b, c[0], 5) && Odd(a, c[1], 5) == Odd(b, c[1], 5)
           && Odd(a, c[2], 5) == Odd(b, c[2], 5);
    assert Odd(a, c[3], 5) == Odd(b, c[3], 5) && Odd(a, c[4], 5) == Odd(b, c[4], 5);
    forall k: nat | k < 5 ensures Bit(a, k) == Bit(b, k) {
      if k == 0 {
      } else if k == 1 {
      } else if k == 2 {
      } else if k == 3 {
      }
    }
  }

  /** No two field elements have the same product with 18. */
  lemma EighteenCancels(e: nat, a: nat, b: nat)
    requires e == 18 && a < 32 && b < 32 && TimesLow(e, a, SYMBOL_BITS) == TimesLow(e, b, SYMBOL_BITS)
    ensures a == b
  {
    forall k: nat | k < 5 ensures Odd(a, COLUMNS[k], 5) == Odd(b, COLUMNS[k], 5) {
      ColumnsAre(e, k);
      TimesOdd(e, a, k, COLUMNS[k], 5);
      TimesOdd(e, b, k, COLUMNS[k], 5);
    }
    ColumnsTell(a, b);
    Pow2Is32();
    SameBits(a, b, SYMBOL_BITS);
  }

  lemma XorCancels(a: nat, b: nat, c: nat)
    requires Xor(a, c) == Xor(b, c)
    ensures a == b
  {
    XorAssociates(a, c, c);
    XorAssociates(b, c, c);
    XorSelf(c);
    XorZero(a);
    XorZero(b);
  }

  lemma SumCancels(a: seq<nat>, b: seq<nat>, m: seq<nat>)
    requires Symbols(a) && Symbols(b) && Symbols(m) && Sum(a, m) == Sum(b, m)
    ensures a == b
  {
    forall k | 0 <= k < 6 ensures a[k] == b[k] {
      assert Sum(a, m)[k] == Sum(b, m)[k];
      XorCancels(a[k], b[k], m[k]);
    }
  }

  lemma TopFromLast(r: seq<nat>, v: nat)
    requires Symbols(r) && v < 32
    ensures Divided(r, v)[5] == Xor(TimesLow(GENERATOR[5], r[0], SYMBOL_BITS), v)
  {
    XorCommutes(v, TimesLow(GENERATOR[5], r[0], SYMBOL_BITS));
  }

  /** A step loses nothing: the register before it can be told from the one after it, and the symbol. */
  lemma DivisionCancels(a: seq<nat>, b: seq<nat>, v: nat)
    requires Symbols(a) && Symbols(b) && v < 32 && Divided(a, v) == Divided(b, v)
    ensures a == b
  {
    TopFromLast(a, v);
    TopFromLast(b, v);
    XorCancels(TimesLow(GENERATOR[5], a[0], SYMBOL_BITS), TimesLow(GENERATOR[5], b[0], SYMBOL_BITS), v);
    EighteenCancels(GENERATOR[5], a[0], b[0]);
    SumCancels(a[1..] + [v], b[1..] + [v], Multiple(a[0], SYMBOL_BITS));
    assert a[1..] == (a[1..] + [v])[..5] == (b[1..] + [v])[..5] == b[1..];
    assert a == [a[0]] + a[1..] && b == [b[0]] + b[1..];
  }

  /** A different symbol gives a different register. */
  lemma SymbolsSeparate(r: seq<nat>, v: nat, w: nat)
    requires Symbols(r) && v < 32 && w < 32 && Divided(r, v) == Divided(r, w)
    ensures v == w
  {
    SumCancels(r[1..] + [v], r[1..] + [w], Multiple(r[0], SYMBOL_BITS));
    assert (r[1..] + [v])[5] == (r[1..] + [w])[5];
  }

  /** The two lists differ at `i` and nowhere else. */
  ghost predicate DifferAt(vs: seq<nat>, ws: seq<nat>, i: nat) {
    i < |vs| == |ws| && vs[i] != ws[i] && forall k | 0 <= k < |vs| && k != i :: vs[k] == ws[k]
  }

  lemma {:induction false} RemaindersDiffer(r: seq<nat>, vs: seq<nat>, ws: seq<nat>, i: nat)
    requires Symbols(r) && Digital(vs, 32) && Digital(ws, 32) && DifferAt(vs, ws, i)
    ensures Remainder(r, vs) != Remainder(r, ws)
  {
    var n := |vs| - 1;
    if i == n {
      assert vs[..n] == ws[..n];
      if Remainder(r, vs) == Remainder(r, ws) {
        SymbolsSeparate(Remainder(r, vs[..n]), vs[n], ws[n]);
      }
    } else {
      RemaindersDiffer(r, vs[..n], ws[..n], i);
      if Remainder(r, vs) == Remainder(r, ws) {
        DivisionCancels(Remainder(r, vs[..n]), Remainder(r, ws[..n]), vs[n]);
      }
    }
  }

  /** One wrong symbol changes the register, whatever it is and wherever it stands. */
  lemma WrongSymbolNoticed(vs: seq<nat>, ws: seq<nat>, i: nat)
    requires Digital(vs, 32) && Digital(ws, 32) && DifferAt(vs, ws, i)
    ensures Fold(1, vs) != Fold(1, ws)
  {
    var one: seq<nat> := [0, 0, 0, 0, 0, 1];
    PolymodIsRemainder(vs);
    PolymodIsRemainder(ws);
    RemaindersDiffer(one, vs, ws, i);
    if Fold(1, vs) == Fold(1, ws) {
      NumberUnique(Remainder(one, vs), Remainder(one, ws), 32);
    }
  }
}
