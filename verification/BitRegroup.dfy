/** `convertBits`: regrouping a big-endian bit string, in an accumulator that wraps at 32 bits. */
module BitRegroup {
  import opened Wrappers
  import opened Arithmetic
  import opened Radix
  import opened Horner

  const WORD_BITS: nat := 32

  /** A number cut to a signed 32-bit one, as the shift and or operators do. */
  function Int32(x: int): (r: int)
    ensures exists k: int :: r == x + k * Pow2(WORD_BITS)
  {
    var m := Pow2(WORD_BITS);
    var low := x % m;
    Wraps(x, m);
    if low < m / 2 then low else low - m
  }

  lemma Wraps(x: int, m: nat)
    requires m > 0
    ensures x % m == x + -(x / m) * m && x % m - m == x + (-(x / m) - 1) * m
  {
    Distribute(-(x / m), 1, m);
  }

  /** Equal up to multiples of 2^32. */
  ghost predicate Congruent(acc: int, v: nat) {
    exists k: int :: acc == v + k * Pow2(WORD_BITS)
  }

  /** The `w` bits of the accumulator above its low `bits`; the arithmetic shift rounds down. */
  function Field(acc: int, bits: nat, w: nat): nat {
    acc / Pow2(bits) % Pow2(w)
  }

  lemma DivShift(x: int, k: int, n: nat)
    requires n > 0
    ensures (x + k * n) / n == x / n + k
  {
    var q, r := x / n, x % n;
    assert x == q * n + r;
    Distribute(q, k, n);
    DivModUnique(x + k * n, n, q + k, r);
  }

  lemma ModShift(x: int, k: int, n: nat)
    requires n > 0
    ensures (x + k * n) % n == x % n
  {
    var q, r := x / n, x % n;
    assert x == q * n + r;
    Distribute(q, k, n);
    DivModUnique(x + k * n, n, q + k, r);
  }

  /** Wrapping does not reach the bits that are read. */
  lemma FieldWraps(acc: int, v: nat, bits: nat, w: nat)
    requires Congruent(acc, v) && bits + w <= WORD_BITS
    ensures Field(acc, bits, w) == Field(v, bits, w)
  {
    var k: int :| acc == v + k * Pow2(WORD_BITS);
    var p, q, rest := Pow2(bits), Pow2(w), Pow2(WORD_BITS - bits - w);
    Pow2Add(bits, WORD_BITS - bits);
    Pow2Add(w, WORD_BITS - bits - w);
    assert Pow2(WORD_BITS) == p * (q * rest);
    Rearrange(k, p, q, rest);
    DivShift(v, k * rest * q, p);
    ModShift(v / p, k * rest, q);
  }

  lemma Rearrange(k: int, p: int, q: int, rest: int)
    ensures k * (p * (q * rest)) == k * rest * q * p
  {
    Associate(k, p, q * rest);
    Associate(k, q, rest);
  }

  // ----- the loop

  /** `ret` spells all but the low `bits` bits of `v`; the accumulator agrees with `v` where it is read. */
  ghost predicate Regrouping(v: nat, ret: seq<nat>, bits: nat, acc: int, to: nat) {
    Number(ret, Pow2(to)) == High(v, bits) && Digital(ret, Pow2(to)) && Congruent(acc, v)
  }

  /** `(acc << from) | b`. */
  function ShiftIn(acc: int, from: nat, b: nat): int { Int32(acc * Pow2(from)) + b }

  lemma WrapTwice(acc: int, v: int, k: int, j: int, m: int, p: int, r: int)
    requires acc == v + k * m && r == acc * p + j * m
    ensures r == v * p + (k * p + j) * m
  {
    Distribute(v, k * m, p);
    Associate(k, m, p);
    Associate(k, p, m);
    Distribute(k * p, j, m);
  }

  lemma ShiftInCongruent(acc: int, v: nat, from: nat, b: nat)
    requires Congruent(acc, v)
    ensures Congruent(ShiftIn(acc, from, b), v * Pow2(from) + b)
  {
    var m, p := Pow2(WORD_BITS), Pow2(from);
    var k: int :| acc == v + k * m;
    var j: int :| Int32(acc * p) == acc * p + j * m;
    WrapTwice(acc, v, k, j, m, p, Int32(acc * p));
    assert ShiftIn(acc, from, b) == v * p + b + (k * p + j) * m;
  }

  lemma ShiftInHigh(v: nat, from: nat, b: nat, bits: nat, next: nat)
    requires b < Pow2(from) && next == Shl(v, from) + b
    ensures High(next, from + bits) == High(v, bits)
  {
    PartsUnique(next, v, b, from);
    HighHigh(next, from, bits);
  }

  /** One more digit of the output. */
  lemma PushDigit(v: nat, ret: seq<nat>, bits: nat, acc: int, to: nat)
    requires to <= bits <= WORD_BITS && Regrouping(v, ret, bits, acc, to)
    ensures Regrouping(v, ret + [Field(acc, bits - to, to)], bits - to, acc, to)
  {
    FieldWraps(acc, v, bits - to, to);
    HighNext(v, bits - to, to);
    NumberSnoc(ret, Field(acc, bits - to, to), Pow2(to));
  }

  lemma TakeDigit(v: nat, ret: seq<nat>, bits: nat, acc: int, from: nat, to: nat, b: nat)
    requires b < Pow2(from) && Regrouping(v, ret, bits, acc, to)
    ensures Regrouping(v * Pow2(from) + b, ret, bits + from, ShiftIn(acc, from, b), to)
  {
    ShiftInCongruent(acc, v, from, b);
    ShlProduct(v, from);
    ShiftInHigh(v, from, b, bits, Shl(v, from) + b);
  }

  method PushDigits(acc: int, bits: nat, to: nat, ret: seq<nat>, ghost v: nat) returns (ret': seq<nat>, bits': nat)
    requires 0 < to && bits <= WORD_BITS && Regrouping(v, ret, bits, acc, to)
    ensures Regrouping(v, ret', bits', acc, to) && bits' < to
    ensures Bits(to, |ret'|) + bits' == Bits(to, |ret|) + bits
  {
    ret', bits' := ret, bits;
    while bits' >= to
      invariant bits' <= WORD_BITS && Regrouping(v, ret', bits', acc, to)
      invariant Bits(to, |ret'|) + bits' == Bits(to, |ret|) + bits
    {
      PushDigit(v, ret', bits', acc, to);
      bits' := bits' - to;
      ret' := ret' + [Field(acc, bits', to)];
    }
  }

  /** What the loop has done after the digits `seen`. */
  ghost predicate Regrouped(seen: seq<nat>, ret: seq<nat>, bits: nat, acc: int, from: nat, to: nat) {
    && Regrouping(Number(seen, Pow2(from)), ret, bits, acc, to)
    && bits < to && Bits(to, |ret|) + bits == Bits(from, |seen|)
  }

  method RegroupOne(b: nat, ret: seq<nat>, bits: nat, acc: int, from: nat, to: nat, ghost seen: seq<nat>)
    returns (ret': seq<nat>, bits': nat, acc': int)
    requires 0 < from && 0 < to && from + to <= WORD_BITS && b < Pow2(from) && Regrouped(seen, ret, bits, acc, from, to)
    ensures Regrouped(seen + [b], ret', bits', acc', from, to)
  {
    NumberSnoc(seen, b, Pow2(from));
    TakeDigit(Number(seen, Pow2(from)), ret, bits, acc, from, to, b);
    acc' := ShiftIn(acc, from, b);
    ret', bits' := PushDigits(acc', bits + from, to, ret, Number(seen + [b], Pow2(from)));
  }

  lemma NothingRegrouped(from: nat, to: nat)
    requires 0 < to
    ensures Regrouped([], [], 0, 0, from, to)
  {
    assert 0 == 0 + 0 * Pow2(WORD_BITS);
  }

  /** The loop that both conversions share. */
  method Regroup(data: seq<nat>, from: nat, to: nat) returns (ret: seq<nat>, bits: nat, acc: int)
    requires 0 < from && 0 < to && from + to <= WORD_BITS && Digital(data, Pow2(from))
    ensures Regrouped(data, ret, bits, acc, from, to)
  {
    ret, bits, acc := [], 0, 0;
    NothingRegrouped(from, to);
    for n := 0 to |data|
      invariant Regrouped(data[..n], ret, bits, acc, from, to)
    {
      assert data[..n + 1] == data[..n] + [data[n]];
      ret, bits, acc := RegroupOne(data[n], ret, bits, acc, from, to, data[..n]);
    }
    assert data[..|data|] == data;
  }

  // ----- the bits left over

  /** `(acc << (to - bits)) & maxv`: the low bits moved up to fill a digit. */
  function Rest(acc: int, bits: nat, to: nat): nat
    requires bits <= to
  {
    Field(ShiftIn(acc, to - bits, 0), 0, to)
  }

  lemma FillDigit(v: nat, bits: nat, to: nat, h: nat, l: nat)
    requires bits <= to && h == High(v, bits) && l == Low(v, bits)
    ensures Shl(v, to - bits) == Shl(h, to) + Shl(l, to - bits) && Shl(l, to - bits) < Pow2(to)
  {
    LowHigh(v, bits);
    StackShift(l, h, bits, to - bits);
    StackBound(0, to - bits, l, bits);
  }

  lemma RestValue(acc: int, v: nat, bits: nat, to: nat)
    requires bits <= to <= WORD_BITS && Congruent(acc, v)
    ensures Rest(acc, bits, to) == Shl(Low(v, bits), to - bits)
  {
    var s, x, l := to - bits, Shl(v, to - bits), Low(v, bits);
    ShiftedField(acc, v, s, x, to);
    FillDigit(v, bits, to, High(v, bits), l);
    PartsUnique(x, High(v, bits), Shl(l, s), to);
    LowField(x, to);
  }

  lemma ShiftedField(acc: int, v: nat, s: nat, x: nat, to: nat)
    requires Congruent(acc, v) && x == Shl(v, s) && to <= WORD_BITS
    ensures Field(ShiftIn(acc, s, 0), 0, to) == Field(x, 0, to)
  {
    ShiftInCongruent(acc, v, s, 0);
    ShlProduct(v, s);
    FieldWraps(ShiftIn(acc, s, 0), x, 0, to);
  }

  lemma LowField(x: nat, to: nat)
    ensures Field(x, 0, to) == Low(x, to)
  {
  }

  /** How many bits remain after the last whole digit. */
  function Leftover(from: nat, to: nat, n: nat): nat
    requires to > 0
  {
    Bits(from, n) % to
  }

  lemma LeftoverIs(from: nat, to: nat, n: nat, m: nat, bits: nat)
    requires bits < to && Bits(to, m) + bits == Bits(from, n)
    ensures bits == Leftover(from, to, n)
  {
    BitsProduct(to, m);
    DivModUnique(Bits(from, n), to, m, bits);
  }

  /**
   With padding, the digits spell the number shifted up to a whole digit;
   without it, the remaining bits are dropped.
   */
  method ConvertBits(data: seq<nat>, from: nat, to: nat, pad: bool) returns (ret: seq<nat>, ghost padding: nat)
    requires 0 < from && 0 < to && from + to <= WORD_BITS && Digital(data, Pow2(from))
    ensures Digital(ret, Pow2(to)) && padding < to
    ensures pad ==>
            Bits(to, |ret|) == Bits(from, |data|) + padding
            && Number(ret, Pow2(to)) == Shl(Number(data, Pow2(from)), padding)
    ensures !pad ==>
            Bits(to, |ret|) + padding == Bits(from, |data|)
            && Number(ret, Pow2(to)) == High(Number(data, Pow2(from)), padding)
  {
    var bits, acc;
    ret, bits, acc := Regroup(data, from, to);
    ghost var v := Number(data, Pow2(from));
    padding := bits;
    if pad {
      padding := if bits > 0 then to - bits else 0;
      if bits > 0 {
        PadLast(v, ret, bits, acc, to);
        ret := ret + [Rest(acc, bits, to)];
      } else {
        LowHigh(v, 0);
        ShlProduct(v, 0);
      }
    }
  }

  lemma PadLast(v: nat, ret: seq<nat>, bits: nat, acc: int, to: nat)
    requires 0 < bits < to <= WORD_BITS && Regrouping(v, ret, bits, acc, to)
    ensures Digital(ret + [Rest(acc, bits, to)], Pow2(to))
    ensures Number(ret + [Rest(acc, bits, to)], Pow2(to)) == Shl(v, to - bits)
  {
    RestValue(acc, v, bits, to);
    FillDigit(v, bits, to, High(v, bits), Low(v, bits));
    NumberSnoc(ret, Rest(acc, bits, to), Pow2(to));
    ShlProduct(High(v, bits), to);
  }

  /** Refused exactly if a whole input digit, or a bit that is set, is left over. */
  method ConvertBitsNoPad(data: seq<nat>, from: nat, to: nat) returns (r: Option<seq<nat>>)
    requires 0 < from && 0 < to && from + to <= WORD_BITS && Digital(data, Pow2(from))
    ensures r.Some? <==>
            Leftover(from, to, |data|) < from && Low(Number(data, Pow2(from)), Leftover(from, to, |data|)) == 0
    ensures r.Some? ==> var n := Leftover(from, to, |data|);
              && Digital(r.value, Pow2(to)) && Bits(to, |r.value|) + n == Bits(from, |data|)
              && Shl(Number(r.value, Pow2(to)), n) == Number(data, Pow2(from))
  {
    var ret, bits, acc := Regroup(data, from, to);
    ghost var v := Number(data, Pow2(from));
    LeftoverIs(from, to, |data|, |ret|, bits);
    RestValue(acc, v, bits, to);
    RestZero(Low(v, bits), to - bits);
    if bits >= from || Rest(acc, bits, to) != 0 {
      return None;
    }
    LowHigh(v, bits);
    return Some(ret);
  }

  lemma {:induction false} RestZero(l: nat, s: nat)
    ensures Shl(l, s) == 0 <==> l == 0
  {
    if s > 0 {
      RestZero(l, s - 1);
    }
  }
}
