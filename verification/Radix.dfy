/** Little-endian numbers with digits of any bit width, and moving bits from one width to another through a buffer. */
module Radix {
  import opened Wrappers
  import opened Arithmetic

  /** The position of digit `n`: `w * n`. */
  function Bits(w: nat, n: nat): nat {
    if n == 0 then 0 else Bits(w, n - 1) + w
  }

  lemma {:induction false} BitsProduct(w: nat, n: nat)
    ensures Bits(w, n) == w * n
  {
    if n > 0 {
      BitsProduct(w, n - 1);
      Distribute(n - 1, 1, w);
    }
  }

  /** The digits read as a number, digit `i` at bit `w * i`. */
  function Value(ds: seq<nat>, w: nat): nat {
    if ds == [] then 0
    else
      var n: nat := |ds| - 1;
      Value(ds[..n], w) + Shl(ds[n], Bits(w, n))
  }

  ghost predicate AllBelow(ds: seq<nat>, bound: nat) {
    forall i | 0 <= i < |ds| :: ds[i] < bound
  }

  lemma ValueSnoc(ds: seq<nat>, d: nat, w: nat)
    ensures Value(ds + [d], w) == Value(ds, w) + Shl(d, Bits(w, |ds|))
  {
    assert (ds + [d])[..|ds|] == ds;
  }

  lemma {:induction false} ValueBound(ds: seq<nat>, w: nat)
    requires AllBelow(ds, Pow2(w))
    ensures Value(ds, w) < Pow2(Bits(w, |ds|))
  {
    if ds != [] {
      var n: nat := |ds| - 1;
      ValueBound(ds[..n], w);
      StackBound(Value(ds[..n], w), Bits(w, n), ds[n], w);
    }
  }

  /** A number of a given length has one spelling. */
  lemma {:induction false} ValueUnique(a: seq<nat>, b: seq<nat>, w: nat)
    requires |a| == |b| && AllBelow(a, Pow2(w)) && AllBelow(b, Pow2(w)) && Value(a, w) == Value(b, w)
    ensures a == b
  {
    if a != [] {
      var n: nat := |a| - 1;
      ValueBound(a[..n], w);
      ValueBound(b[..n], w);
      ShlProduct(a[n], Bits(w, n));
      ShlProduct(b[n], Bits(w, n));
      DivModUnique(Value(a, w), Pow2(Bits(w, n)), a[n], Value(a[..n], w));
      DivModUnique(Value(a, w), Pow2(Bits(w, n)), b[n], Value(b[..n], w));
      ValueUnique(a[..n], b[..n], w);
      assert a == a[..n] + [a[n]] && b == b[..n] + [b[n]];
    }
  }

  lemma {:induction false} ValueZeros(ds: seq<nat>, n: nat, w: nat)
    ensures Value(ds + Zeros(n), w) == Value(ds, w)
  {
    if n == 0 {
      assert ds + Zeros(0) == ds;
    } else {
      ValueZeros(ds, n - 1, w);
      assert ds + Zeros(n) == ds + Zeros(n - 1) + [0];
      ValueSnoc(ds + Zeros(n - 1), 0, w);
      ShlProduct(0, Bits(w, |ds| + n - 1));
    }
  }

  function High(x: nat, v: nat): (h: nat)
    ensures h == x / Pow2(v)
  {
    Quotient(x, Pow2(v))
  }

  function Low(x: nat, v: nat): (l: nat)
    ensures l == x % Pow2(v) && l < Pow2(v)
  {
    x % Pow2(v)
  }

  lemma LowSmall(x: nat, v: nat)
    requires x < Pow2(v)
    ensures Low(x, v) == x
  {
    DivModUnique(x, Pow2(v), 0, x);
  }

  lemma LowHigh(x: nat, v: nat)
    ensures x == Low(x, v) + Shl(High(x, v), v)
  {
    var p := Pow2(v);
    assert x == x / p * p + x % p;
    ShlProduct(High(x, v), v);
  }

  lemma PartsUnique(x: nat, high: nat, low: nat, n: nat)
    requires x == Shl(high, n) + low && low < Pow2(n)
    ensures High(x, n) == high && Low(x, n) == low
  {
    ShlProduct(high, n);
    DivModUnique(x, Pow2(n), high, low);
  }

  lemma HighBound(x: nat, m: nat, n: nat)
    requires x < Pow2(m + n)
    ensures High(x, m) < Pow2(n)
  {
    Pow2Add(n, m);
    LowHigh(x, m);
    ShlProduct(High(x, m), m);
    if High(x, m) >= Pow2(n) {
      MulMonotone(Pow2(n), High(x, m), Pow2(m));
    }
  }

  lemma HighHigh(x: nat, m: nat, n: nat)
    ensures High(High(x, m), n) == High(x, m + n)
  {
    var h := High(x, m);
    var low := Low(x, m) + Shl(Low(h, n), m);
    LowHigh(x, m);
    LowHigh(h, n);
    StackShift(Low(h, n), High(h, n), n, m);
    StackBound(Low(x, m), m, Low(h, n), n);
    ShlProduct(High(h, n), m + n);
    DivModUnique(x, Pow2(m + n), High(h, n), low);
  }

  /** A number above bit `k` is that above bit `k + w`, and `w` bits more. */
  lemma HighNext(x: nat, k: nat, w: nat)
    ensures High(x, k) == High(x, k + w) * Pow2(w) + Low(High(x, k), w)
  {
    HighHigh(x, k, w);
    LowHigh(High(x, k), w);
    ShlProduct(High(x, k + w), w);
  }

  // ----- numbers in bytes

  /** The low `n` bytes of a number, least significant first. */
  function LittleEndian(v: nat, n: nat): (r: Bytes)
    ensures |r| == n
  {
    if n == 0 then []
    else
      assert Pow2(8) == 256;
      LittleEndian(v, n - 1) + [Low(High(v, Bits(8, n - 1)), 8)]
  }

  lemma BytesBelow(bytes: Bytes)
    ensures AllBelow(bytes, Pow2(8))
  {
    assert Pow2(8) == 256;
  }

  /** Bytes of the same value as a payload are the payload and zeros. */
  lemma PaddedUnique(bytes: Bytes, payload: Bytes)
    requires |payload| <= |bytes| && Value(bytes, 8) == Value(payload, 8)
    ensures bytes == payload + Zeros(|bytes| - |payload|)
  {
    var n: nat := |bytes| - |payload|;
    ValueZeros(payload, n, 8);
    BytesBelow(bytes);
    BytesBelow(payload);
    ValueUnique(bytes, payload + Zeros(n), 8);
  }

  lemma {:induction false} LittleEndianSplits(v: nat, n: nat)
    ensures Value(LittleEndian(v, n), 8) + Shl(High(v, Bits(8, n)), Bits(8, n)) == v
  {
    if n > 0 {
      var m := Bits(8, n - 1);
      LittleEndianSplits(v, n - 1);
      ValueSnoc(LittleEndian(v, n - 1), Low(High(v, m), 8), 8);
      NextByte(v, m);
    }
  }

  lemma NextByte(v: nat, m: nat)
    ensures Shl(High(v, m), m) == Shl(Low(High(v, m), 8), m) + Shl(High(v, m + 8), m + 8)
  {
    var h := High(v, m);
    LowHigh(h, 8);
    HighHigh(v, m, 8);
    StackShift(Low(h, 8), High(h, 8), 8, m);
  }

  /** Reading back a number that fits. */
  lemma LittleEndianValue(v: nat, n: nat)
    requires v < Pow2(Bits(8, n))
    ensures Value(LittleEndian(v, n), 8) == v
  {
    LittleEndianSplits(v, n);
    HighBound(v, Bits(8, n), 0);
    ShlProduct(0, Bits(8, n));
  }

  // ----- words of 16 and 32 bits

  const HALF_WORD: nat := 2
  const WORD: nat := 4

  function Read16(data: Bytes, pos: nat): nat
    requires pos + 2 <= |data|
  {
    Value(data[pos..pos + 2], 8)
  }

  function Read32(data: Bytes, pos: nat): nat
    requires pos + 4 <= |data|
  {
    Value(data[pos..pos + 4], 8)
  }

  lemma HalfWordValue(v: nat)
    requires v < 0x1_0000
    ensures Value(LittleEndian(v, HALF_WORD), 8) == v
  {
    assert Pow2(8) == 256;
    Pow2Double(8, 256);
    BitsProduct(8, HALF_WORD);
    LittleEndianValue(v, HALF_WORD);
  }

  lemma WordValue(v: nat)
    requires v < 0x1_0000_0000
    ensures Value(LittleEndian(v, WORD), 8) == v
  {
    assert Pow2(8) == 256;
    Pow2Double(8, 256);
    Pow2Double(16, 0x1_0000);
    BitsProduct(8, WORD);
    LittleEndianValue(v, WORD);
  }

  /** Words that were read fit their width. */
  lemma WordBound(data: Bytes, pos: nat)
    ensures pos + 2 <= |data| ==> Read16(data, pos) < 0x1_0000
    ensures pos + 4 <= |data| ==> Read32(data, pos) < 0x1_0000_0000
  {
    assert Pow2(8) == 256;
    Pow2Double(8, 256);
    Pow2Double(16, 0x1_0000);
    BitsProduct(8, HALF_WORD);
    BitsProduct(8, WORD);
    if pos + 2 <= |data| {
      BytesBelow(data[pos..pos + 2]);
      ValueBound(data[pos..pos + 2], 8);
    }
    if pos + 4 <= |data| {
      BytesBelow(data[pos..pos + 4]);
      ValueBound(data[pos..pos + 4], 8);
    }
  }

  // ----- the rolling buffer

  /** Digits of `w` bits taken so far, digits of `v` bits given out, and the `offset` bits in between. */
  datatype Roll = Roll(taken: seq<nat>, given: seq<nat>, buffer: nat, offset: nat)

  /** No bit is lost or moved: what was given out, with the buffer above it, is what was taken in. */
  ghost predicate Rolling(r: Roll, w: nat, v: nat) {
    && Value(r.given, v) + Shl(r.buffer, Bits(v, |r.given|)) == Value(r.taken, w)
    && r.offset + Bits(v, |r.given|) == Bits(w, |r.taken|)
    && r.buffer < Pow2(r.offset)
  }

  /** `buffer` is below `2^offset`, so adding the shifted digit is the bitwise or. */
  function Take(r: Roll, w: nat, d: nat): Roll {
    Roll(r.taken + [d], r.given, r.buffer + Shl(d, r.offset), r.offset + w)
  }

  function Give(r: Roll, v: nat): Roll
    requires r.offset >= v
  {
    Roll(r.taken, r.given + [Low(r.buffer, v)], High(r.buffer, v), r.offset - v)
  }

  lemma TakeRolls(r: Roll, w: nat, v: nat, d: nat)
    requires Rolling(r, w, v) && d < Pow2(w)
    ensures Rolling(Take(r, w, d), w, v)
  {
    var t, at := Take(r, w, d), Bits(v, |r.given|);
    assert Value(t.given, v) + Shl(t.buffer, at) == Value(t.taken, w) by {
      ValueSnoc(r.taken, d, w);
      StackShift(r.buffer, d, r.offset, at);
    }
    assert t.buffer < Pow2(t.offset) by {
      StackBound(r.buffer, r.offset, d, w);
    }
  }

  lemma GiveRolls(r: Roll, w: nat, v: nat)
    requires Rolling(r, w, v) && r.offset >= v
    ensures Rolling(Give(r, v), w, v)
  {
    LowHigh(r.buffer, v);
    ValueSnoc(r.given, Low(r.buffer, v), v);
    StackShift(Low(r.buffer, v), High(r.buffer, v), v, Bits(v, |r.given|));
    HighBound(r.buffer, v, r.offset - v);
  }
}
