/**
 The checksum of bech32 and bech32m (BIP-173, BIP-350): it is linear, so six
 symbols can always be appended to meet it.
 */
module Bech32Checksum {
  import opened Arithmetic
  import opened Radix
  import opened Horner
  import opened Bitwise

  const GEN: seq<nat> := [0x3b6a57b2, 0x26508e6d, 0x1ea119fa, 0x3d4233dd, 0x2a1462b3]

  /** The checksum register has 30 bits; the top 5 leave it in every step. */
  const LOW_BITS: nat := 25
  const SYMBOL_BITS: nat := 5
  const REGISTER_BITS: nat := 30

  lemma RegisterSize()
    ensures Pow2(REGISTER_BITS) == 0x4000_0000 && Pow2(SYMBOL_BITS) == 32
  {
    assert Pow2(15) == 0x8000;
    Pow2Double(15, 0x8000);
    assert Pow2(5) == 32;
  }

  /** The generators selected by the low `i` bits of `b`. */
  function Selected(b: nat, i: nat): nat
    requires i <= 5
  {
    if i == 0 then 0 else Xor(Selected(b, i - 1), if High(b, i - 1) % 2 == 1 then GEN[i - 1] else 0)
  }

  /**
   The register after one more symbol. Register values are below 2^30, where
   masks and shifts are remainders and products.
   */
  function Step(chk: nat, v: nat): nat {
    Mix(Low(chk, LOW_BITS), v, Feedback(High(chk, LOW_BITS)))
  }

  /** The shifted low bits, the symbol and the generators together. */
  function Mix(low: nat, v: nat, feedback: nat): nat {
    Xor(Xor(Shl(low, SYMBOL_BITS), v), feedback)
  }

  function Feedback(high: nat): nat { Selected(high, |GEN|) }

  function Fold(chk: nat, vs: seq<nat>): nat {
    if vs == [] then chk else Step(Fold(chk, vs[..|vs| - 1]), vs[|vs| - 1])
  }

  method Polymod(values: seq<nat>) returns (chk: nat)
    ensures chk == Fold(1, values)
  {
    chk := 1;
    for n := 0 to |values|
      invariant chk == Fold(1, values[..n])
    {
      assert values[..n + 1][..n] == values[..n];
      chk := PolymodStep(chk, values[n]);
    }
    assert values[..|values|] == values;
  }

  method PolymodStep(before: nat, v: nat) returns (chk: nat)
    ensures chk == Step(before, v)
  {
    var b := High(before, LOW_BITS);
    var shifted := Xor(Shl(Low(before, LOW_BITS), SYMBOL_BITS), v);
    chk := shifted;
    XorZero(shifted);
    for i := 0 to |GEN|
      invariant chk == Xor(shifted, Selected(b, i))
    {
      SelectNext(shifted, b, i);
      if High(b, i) % 2 == 1 {
        chk := Xor(chk, GEN[i]);
      }
    }
  }

  lemma SelectNext(a: nat, b: nat, i: nat)
    requires i < 5
    ensures Xor(a, Selected(b, i + 1)) ==
            if High(b, i) % 2 == 1 then Xor(Xor(a, Selected(b, i)), GEN[i]) else Xor(a, Selected(b, i))
  {
    XorAssociates(a, Selected(b, i), GEN[i]);
    XorZero(Selected(b, i));
  }

  // ----- linearity

  /** A difference in the low bits stays there. */
  lemma XorLow(s: nat, d: nat, n: nat)
    requires d < Pow2(n)
    ensures High(Xor(s, d), n) == High(s, n) && Low(Xor(s, d), n) == Xor(Low(s, n), d)
  {
    var h, l := High(s, n), Low(s, n);
    LowHigh(s, n);
    ShlProduct(0, n);
    XorSplit(h, l, 0, d, n);
    XorZero(h);
    XorBound(l, d, n);
    PartsUnique(Xor(s, d), h, Xor(l, d), n);
  }

  lemma XorAddBoth(l: nat, d: nat, c: nat, n: nat)
    requires c < Pow2(n)
    ensures Xor(Shl(l, n), Shl(d, n) + c) == Shl(Xor(l, d), n) + c
  {
    XorSplit(l, 0, d, c, n);
    XorCommutes(0, c);
    XorZero(c);
  }

  lemma XorAdd(x: nat, c: nat, n: nat)
    requires c < Pow2(n)
    ensures Xor(Shl(x, n), c) == Shl(x, n) + c
  {
    assert Shl(0, n) == 0 by { ShlProduct(0, n); }
    assert Xor(x, 0) == x by { XorZero(x); }
    XorAddBoth(x, 0, c, n);
  }

  /** A difference of `d` and a symbol `c` become a difference of `32 d + c` after the shift. */
  lemma ShiftedXor(l: nat, d: nat, c: nat, n: nat)
    requires c < Pow2(n)
    ensures Xor(Shl(Xor(l, d), n), c) == Xor(Shl(l, n), Shl(d, n) + c)
  {
    XorAdd(Xor(l, d), c, n);
    XorAddBoth(l, d, c, n);
  }

  lemma XorLast(a: nat, e: nat, f: nat)
    ensures Xor(Xor(a, e), f) == Xor(Xor(a, f), e)
  {
    XorAssociates(a, e, f);
    XorCommutes(e, f);
    XorAssociates(a, f, e);
  }

  lemma MixApart(l: nat, d: nat, c: nat, f: nat)
    requires c < Pow2(SYMBOL_BITS)
    ensures Mix(Xor(l, d), c, f) == Xor(Mix(l, 0, f), Shl(d, SYMBOL_BITS) + c)
  {
    var a, e := Shl(l, SYMBOL_BITS), Shl(d, SYMBOL_BITS) + c;
    ShiftedXor(l, d, c, SYMBOL_BITS);
    XorZero(a);
    XorLast(a, e, f);
  }

  lemma StepIs(chk: nat, v: nat, low: nat, f: nat)
    requires low == Low(chk, LOW_BITS) && f == Feedback(High(chk, LOW_BITS))
    ensures Step(chk, v) == Mix(low, v, f)
  {
  }

  /** Two registers `d` apart, one fed `c` and the other zero. */
  lemma StepApart(s: nat, d: nat, c: nat)
    requires d < Pow2(LOW_BITS) && c < Pow2(SYMBOL_BITS)
    ensures Step(Xor(s, d), c) == Xor(Step(s, 0), Shl(d, SYMBOL_BITS) + c)
  {
    var l, f := Low(s, LOW_BITS), Feedback(High(s, LOW_BITS));
    XorLow(s, d, LOW_BITS);
    StepIs(Xor(s, d), c, Xor(l, d), f);
    StepIs(s, 0, l, f);
    MixApart(l, d, c, f);
  }

  lemma {:induction false} PowOfSymbols(n: nat)
    ensures Pow(32, n) == Pow2(Bits(SYMBOL_BITS, n))
  {
    if n > 0 {
      PowOfSymbols(n - 1);
      RegisterSize();
      Pow2Add(SYMBOL_BITS, Bits(SYMBOL_BITS, n - 1));
    }
  }

  /** The number in fewer than six symbols fits the low bits. */
  lemma FewSymbols(c: seq<nat>)
    requires |c| <= 5 && Digital(c, 32)
    ensures Number(c, 32) < Pow2(LOW_BITS)
  {
    NumberBound(c, 32);
    PowOfSymbols(|c|);
    BitsProduct(SYMBOL_BITS, |c|);
    Pow2Monotone(Bits(SYMBOL_BITS, |c|), LOW_BITS);
  }

  lemma NextSymbol(z: nat, m: nat, d: nat)
    requires m < Pow2(LOW_BITS) && d < 32
    ensures Step(Xor(z, m), d) == Xor(Step(z, 0), m * 32 + d)
  {
    RegisterSize();
    ShlProduct(m, SYMBOL_BITS);
    StepApart(z, m, d);
  }

  lemma FoldSnoc(s: nat, vs: seq<nat>, v: nat)
    ensures Fold(s, vs + [v]) == Step(Fold(s, vs), v)
  {
    assert (vs + [v])[..|vs|] == vs;
  }

  /** `m` is what feeding `c` adds to feeding `n` zeros. */
  ghost predicate Adds(s: nat, c: seq<nat>, n: nat, m: nat) {
    Fold(s, c) == Xor(Fold(s, Zeros(n)), m)
  }

  lemma AddsNothing(s: nat)
    ensures Adds(s, [], 0, 0)
  {
    XorZero(s);
    assert Zeros(0) == [];
  }

  lemma AddsNext(s: nat, c: seq<nat>, d: nat, all: seq<nat>, n: nat, m: nat, total: nat)
    requires Adds(s, c, n, m) && m < Pow2(LOW_BITS) && d < 32 && all == c + [d] && total == m * 32 + d
    ensures Adds(s, all, n + 1, total)
  {
    FoldSnoc(s, c, d);
    FoldZeros(s, n);
    NextSymbol(Fold(s, Zeros(n)), m, d);
  }

  lemma FoldZeros(s: nat, n: nat)
    ensures Fold(s, Zeros(n + 1)) == Step(Fold(s, Zeros(n)), 0)
  {
    assert Zeros(n + 1) == Zeros(n) + [0];
    FoldSnoc(s, Zeros(n), 0);
  }

  /** Up to six symbols, fed instead of zeros, add the number they spell. */
  lemma {:induction false} SymbolsAdd(s: nat, c: seq<nat>, n: nat)
    requires n == |c| <= 6 && Digital(c, 32)
    ensures Adds(s, c, n, Number(c, 32))
  {
    if n == 0 {
      AddsNothing(s);
    } else {
      var k: nat := n - 1;
      SymbolsAdd(s, c[..k], k);
      FewSymbols(c[..k]);
      AddsNext(s, c[..k], c[k], c, k, Number(c[..k], 32), Number(c, 32));
    }
  }

  // ----- register bounds

  ghost predicate Fits(vs: seq<nat>) {
    forall i | 0 <= i < |vs| :: vs[i] < Pow2(REGISTER_BITS)
  }

  lemma GeneratorsFit(i: nat)
    requires i < 5
    ensures GEN[i] < Pow2(REGISTER_BITS)
  {
    RegisterSize();
  }

  lemma {:induction false} SelectedFits(b: nat, i: nat)
    requires i <= 5
    ensures Selected(b, i) < Pow2(REGISTER_BITS)
  {
    if i > 0 {
      SelectedFits(b, i - 1);
      GeneratorsFit(i - 1);
      XorBound(Selected(b, i - 1), if High(b, i - 1) % 2 == 1 then GEN[i - 1] else 0, REGISTER_BITS);
    }
  }

  lemma StepFits(chk: nat, v: nat)
    requires v < Pow2(REGISTER_BITS)
    ensures Step(chk, v) < Pow2(REGISTER_BITS)
  {
    var low, f := Low(chk, LOW_BITS), Selected(High(chk, LOW_BITS), |GEN|);
    StackBound(0, SYMBOL_BITS, low, LOW_BITS);
    assert SYMBOL_BITS + LOW_BITS == REGISTER_BITS;
    XorBound(Shl(low, SYMBOL_BITS), v, REGISTER_BITS);
    SelectedFits(High(chk, LOW_BITS), |GEN|);
    XorBound(Xor(Shl(low, SYMBOL_BITS), v), f, REGISTER_BITS);
  }

  lemma FoldFits(vs: seq<nat>)
    requires Fits(vs)
    ensures Fold(1, vs) < Pow2(REGISTER_BITS)
  {
    RegisterSize();
    if vs != [] {
      StepFits(Fold(1, vs[..|vs| - 1]), vs[|vs| - 1]);
    }
  }

  // ----- the checksum symbols

  lemma {:induction false} FoldAppend(s: nat, a: seq<nat>, b: seq<nat>)
    ensures Fold(s, a + b) == Fold(Fold(s, a), b)
  {
    if b == [] {
      assert a + b == a;
    } else {
      var n := |b| - 1;
      FoldAppend(s, a, b[..n]);
      FoldSnoc(s, a + b[..n], b[n]);
      assert a + b == a + b[..n] + [b[n]];
    }
  }

  /**
   The symbols that `bech32CreateChecksum` returns: six of them, spelling the
   residue combined with the wanted constant.
   */
  ghost predicate IsChecksum(sum: seq<nat>, values: seq<nat>, encoding: nat) {
    |sum| == 6 && Digital(sum, 32) && Number(sum, 32) == Xor(Fold(1, values + Zeros(6)), encoding)
  }

  method CreateChecksum(values: seq<nat>, encoding: nat) returns (sum: seq<nat>)
    requires Fits(values) && encoding < Pow2(REGISTER_BITS)
    ensures IsChecksum(sum, values, encoding)
  {
    var residue := Polymod(values + Zeros(6));
    ZerosFit(values);
    FoldFits(values + Zeros(6));
    XorBound(residue, encoding, REGISTER_BITS);
    sum := SixSymbols(Xor(residue, encoding));
  }

  lemma ZerosFit(values: seq<nat>)
    requires Fits(values)
    ensures Fits(values + Zeros(6))
  {
    RegisterSize();
  }

  /** The symbols of a register value, the high ones first. */
  method SixSymbols(p: nat) returns (sum: seq<nat>)
    requires p < Pow2(REGISTER_BITS)
    ensures |sum| == 6 && Digital(sum, 32) && Number(sum, 32) == p
  {
    sum := [];
    HighBound(p, REGISTER_BITS, 0);
    for i := 0 to 6
      invariant |sum| == i && SpellsAbove(sum, p, 5 * (6 - i))
    {
      SpellNext(sum, p, 5 * (5 - i));
      sum := sum + [High(p, 5 * (5 - i)) % 32];
    }
    LowHigh(p, 0);
  }

  /** The symbols spell all but the low `k` bits. */
  ghost predicate SpellsAbove(sum: seq<nat>, p: nat, k: nat) {
    Digital(sum, 32) && Number(sum, 32) == High(p, k)
  }

  lemma SpellNext(sum: seq<nat>, p: nat, k: nat)
    requires SpellsAbove(sum, p, k + 5)
    ensures SpellsAbove(sum + [High(p, k) % 32], p, k)
  {
    NextDigit(p, k);
    NumberSnoc(sum, High(p, k) % 32, 32);
  }

  lemma NextDigit(p: nat, k: nat)
    ensures High(p, k) == High(p, k + 5) * 32 + High(p, k) % 32
  {
    RegisterSize();
    HighNext(p, k, SYMBOL_BITS);
  }

  lemma XorCancels(r: nat, x: nat)
    ensures Xor(r, Xor(r, x)) == x
  {
    XorAssociates(r, r, x);
    XorSelf(r);
    XorCommutes(0, x);
    XorZero(x);
  }

  /** Six appended symbols make the whole string fold to the wanted constant exactly when they are its checksum. */
  lemma ChecksumVerifies(values: seq<nat>, encoding: nat, sum: seq<nat>)
    requires |sum| == 6 && Digital(sum, 32)
    ensures Fold(1, values + sum) == encoding <==> IsChecksum(sum, values, encoding)
  {
    var s := Fold(1, values);
    FoldAppend(1, values, sum);
    FoldAppend(1, values, Zeros(6));
    SymbolsAdd(s, sum, 6);
    XorCancels(Fold(s, Zeros(6)), Number(sum, 32));
    XorCancels(Fold(s, Zeros(6)), encoding);
  }
}
