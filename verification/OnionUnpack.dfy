/** Bit-packing of OnionPIR entries into plaintext coefficients, and back. */
module OnionUnpack {
  import opened Wrappers
  import opened Arithmetic
  import opened Radix

  /** The bits of payload in each coefficient, if they tile the entry. */
  function BitsPerCoeff(entrySize: nat, polyDegree: int): (b: Option<nat>)
    ensures b.Some? ==> polyDegree > 0 && Bits(b.value, polyDegree) == 8 * entrySize
    ensures b.None? ==> polyDegree <= 0 || forall w: nat :: Bits(w, polyDegree) != 8 * entrySize
  {
    if polyDegree <= 0 then None
    else if entrySize * 8 % polyDegree != 0 then
      DoesNotTile(entrySize, polyDegree);
      None
    else
      Tiles(entrySize, polyDegree);
      Some(entrySize * 8 / polyDegree)
  }

  lemma Tiles(entrySize: nat, n: nat)
    requires n > 0 && entrySize * 8 % n == 0
    ensures entrySize * 8 / n >= 0 && Bits(entrySize * 8 / n, n) == 8 * entrySize
  {
    var b := entrySize * 8 / n;
    assert entrySize * 8 == b * n;
    BitsProduct(b, n);
  }

  lemma DoesNotTile(entrySize: nat, n: nat)
    requires n > 0 && entrySize * 8 % n != 0
    ensures forall w: nat :: Bits(w, n) != 8 * entrySize
  {
    forall w: nat ensures Bits(w, n) != 8 * entrySize {
      BitsProduct(w, n);
      if w * n == 8 * entrySize {
        DivModUnique(entrySize * 8, n, w, 0);
      }
    }
  }

  // ----- the wire form of a decrypted plaintext

  const HEADER_BYTES: nat := 4
  const COUNT_BITS: nat := 32
  const COEFF_BYTES: nat := 8

  /** Every coefficient in `width` bytes. */
  function Body(coeffs: seq<nat>, width: nat): (r: Bytes)
    ensures |r| == Bits(width, |coeffs|)
  {
    if coeffs == [] then [] else Body(coeffs[..|coeffs| - 1], width) + LittleEndian(coeffs[|coeffs| - 1], width)
  }

  /** What `decryptResponse` returns: the count, then 64-bit coefficients. */
  function Wire(coeffs: seq<nat>): (r: Bytes)
    ensures |r| == 4 + 8 * |coeffs|
  {
    BitsProduct(COEFF_BYTES, |coeffs|);
    LittleEndian(|coeffs|, HEADER_BYTES) + Body(coeffs, COEFF_BYTES)
  }

  /** Coefficient `i` of a plaintext. */
  function Coeff(data: Bytes, i: nat): nat
    requires 4 + 8 * (i + 1) <= |data|
  {
    Value(data[4 + 8 * i..12 + 8 * i], 8)
  }

  /** The payload bits of the first `n` coefficients. */
  function Payloads(data: Bytes, n: nat, b: nat): (r: seq<nat>)
    requires 4 + 8 * n <= |data|
    ensures |r| == n && AllBelow(r, Pow2(b))
  {
    if n == 0 then [] else Payloads(data, n - 1, b) + [Low(Coeff(data, n - 1), b)]
  }

  predicate Accepts(data: Bytes, polyDegree: int, entrySize: nat) {
    && BitsPerCoeff(entrySize, polyDegree).Some?
    && |data| >= 4 + 8 * polyDegree
    && Value(data[..4], 8) == polyDegree
  }

  // ----- unpacking

  /** The bytes written and the buffer are those of the roll `r`. */
  ghost predicate Holds(r: Roll, b: nat, written: Bytes, buffer: nat, offset: nat) {
    Rolling(r, b, 8) && r.given == written && r.buffer == buffer && r.offset == offset
  }

  /** Drains whole bytes into the output. */
  method Drain(out: array<Byte>, outIdx: nat, buffer: nat, offset: nat, ghost r: Roll, ghost b: nat)
    returns (outIdx': nat, buffer': nat, offset': nat, ghost r': Roll)
    requires outIdx <= out.Length && Holds(r, b, out[..outIdx], buffer, offset)
    modifies out
    ensures outIdx' <= out.Length && Holds(r', b, out[..outIdx'], buffer', offset') && r'.taken == r.taken
    ensures offset' < 8 || outIdx' == out.Length
  {
    outIdx', buffer', offset', r' := outIdx, buffer, offset, r;
    while offset' >= 8 && outIdx' < out.Length
      invariant outIdx' <= out.Length && Holds(r', b, out[..outIdx'], buffer', offset') && r'.taken == r.taken
      decreases offset'
    {
      GiveRolls(r', b, 8);
      assert Pow2(8) == 256;
      r' := Give(r', 8);
      out[outIdx'] := Low(buffer', 8);
      outIdx', buffer', offset' := outIdx' + 1, High(buffer', 8), offset' - 8;
    }
  }

  /** Coefficients of no bits carry nothing. */
  lemma {:induction false} NoBits(data: Bytes, n: nat)
    requires 4 + 8 * n <= |data|
    ensures Value(Payloads(data, n, 0), 0) == 0
  {
    if n > 0 {
      NoBits(data, n - 1);
      ValueSnoc(Payloads(data, n - 1, 0), Low(Coeff(data, n - 1), 0), 0);
      ShlProduct(0, Bits(0, n - 1));
    }
  }

  lemma {:induction false} BitsGrow(b: nat, i: nat, n: nat)
    requires i < n
    ensures Bits(b, i) + b <= Bits(b, n)
  {
    if i + 1 < n {
      BitsGrow(b, i, n - 1);
    }
  }

  /** Once every output byte is written, or every coefficient read, nothing is left in the buffer. */
  lemma Drained(data: Bytes, r: Roll, b: nat, n: nat, i: nat, size: nat)
    requires i <= n && 4 + 8 * n <= |data| && Bits(b, n) == 8 * size
    requires Rolling(r, b, 8) && r.taken == Payloads(data, i, b) && |r.given| <= size
    requires |r.given| == size || (i == n && r.offset < 8)
    ensures |r.given| == size && Value(r.given, 8) == Value(Payloads(data, n, b), b)
  {
    BitsProduct(8, |r.given|);
    if i < n { BitsGrow(b, i, n); }
    assert r.offset == 0 && r.buffer == 0;
    ShlProduct(0, Bits(8, |r.given|));
    if i < n {
      assert b == 0;
      NoBits(data, i);
      NoBits(data, n);
    }
  }

  method UnpackInto(data: Bytes, n: nat, b: nat, out: array<Byte>)
    requires 4 + 8 * n <= |data| && Bits(b, n) == 8 * out.Length
    modifies out
    ensures Value(out[..], 8) == Value(Payloads(data, n, b), b)
  {
    var outIdx: nat, buffer: nat, offset: nat := 0, 0, 0;
    ghost var roll := Roll([], [], 0, 0);
    var i: nat := 0;
    while i < n
      invariant i <= n && outIdx <= out.Length && roll.taken == Payloads(data, i, b)
      invariant Holds(roll, b, out[..outIdx], buffer, offset)
      invariant outIdx < out.Length ==> offset < 8
    {
      var payload := Low(Coeff(data, i), b);
      TakeRolls(roll, b, 8, payload);
      roll := Take(roll, b, payload);
      buffer, offset := buffer + Shl(payload, offset), offset + b;
      outIdx, buffer, offset, roll := Drain(out, outIdx, buffer, offset, roll, b);
      i := i + 1;
      if outIdx == out.Length { break; }
    }
    Drained(data, roll, b, n, i, out.Length);
    assert out[..] == out[..outIdx];
  }

  /** The unpacked bytes are the number whose digits are the coefficients' low bits. */
  method UnpackOnionPlaintext(data: Bytes, polyDegree: int, entrySize: nat) returns (r: Option<Bytes>)
    ensures r.Some? <==> Accepts(data, polyDegree, entrySize)
    ensures r.Some? ==> var b := BitsPerCoeff(entrySize, polyDegree).value;
              |r.value| == entrySize && Value(r.value, 8) == Value(Payloads(data, polyDegree, b), b)
  {
    var bpc := BitsPerCoeff(entrySize, polyDegree);
    if bpc.None? { return None; }
    if |data| < 4 + polyDegree * 8 { return None; }
    if Value(data[..4], 8) != polyDegree { return None; }
    var out := new Byte[entrySize];
    UnpackInto(data, polyDegree, bpc.value, out);
    r := Some(out[..]);
  }

  // ----- packing

  /** Bits of a packed coefficient, a `u64`. */
  const COEFF_BITS: nat := 64

  /** Bits of the buffer, a `u128`. */
  const BUFFER_BITS: nat := 128

  /** The bits left in the buffer when `j` bytes were taken and whole coefficients of `b` bits given out. */
  function OffsetAt(b: nat, j: nat): nat
    requires b > 0
  {
    8 * j % b
  }

  /** The coefficient widths for which the bits left and one more byte always fit the buffer. */
  predicate BufferHolds(b: nat) { b <= 122 || b == 124 }

  /** Just these, of the widths whose mask can be computed in 128 bits. */
  lemma WidthsThatFit(b: nat)
    requires 0 < b < BUFFER_BITS
    ensures BufferHolds(b) <==> forall j: nat :: OffsetAt(b, j) + 8 <= BUFFER_BITS
  {
    if BufferHolds(b) {
      forall j: nat ensures OffsetAt(b, j) <= 120 {
        OffsetFits(b, j);
      }
    } else {
      assert OffsetAt(123, 92) == 121 && OffsetAt(125, 78) == 124 && OffsetAt(126, 47) == 124
             && OffsetAt(127, 111) == 126;
    }
  }

  lemma OffsetFits(b: nat, j: nat)
    requires b > 0 && BufferHolds(b)
    ensures OffsetAt(b, j) <= 120
  {
    if b == 122 {
      OffsetEven(j);
    } else if b == 124 {
      OffsetFour(j);
    }
  }

  lemma OffsetEven(j: nat)
    ensures OffsetAt(122, j) <= 120
  {
    var q := 8 * j / 122;
    assert OffsetAt(122, j) == 2 * (4 * j - 61 * q);
  }

  lemma OffsetFour(j: nat)
    ensures OffsetAt(124, j) <= 120
  {
    var q := 8 * j / 124;
    assert OffsetAt(124, j) == 4 * (2 * j - 31 * q);
  }

  /** Digits as stored: a digit of more than 64 bits loses the upper ones. */
  function Cut(digits: seq<nat>): (r: seq<nat>)
    ensures |r| == |digits|
  {
    if digits == [] then [] else Cut(digits[..|digits| - 1]) + [Low(digits[|digits| - 1], COEFF_BITS)]
  }

  lemma CutSnoc(digits: seq<nat>, d: nat)
    ensures Cut(digits + [d]) == Cut(digits) + [Low(d, COEFF_BITS)]
  {
    assert (digits + [d])[..|digits|] == digits;
  }

  lemma {:induction false} CutZeros(digits: seq<nat>, n: nat)
    ensures Cut(digits + Zeros(n)) == Cut(digits) + Zeros(n)
  {
    if n == 0 {
      assert digits + Zeros(0) == digits && Cut(digits) + Zeros(0) == Cut(digits);
    } else {
      CutZeros(digits, n - 1);
      assert digits + Zeros(n) == digits + Zeros(n - 1) + [0];
      CutSnoc(digits + Zeros(n - 1), 0);
      LowSmall(0, COEFF_BITS);
      assert Cut(digits) + Zeros(n) == Cut(digits) + Zeros(n - 1) + [0];
    }
  }

  lemma {:induction false} CutAt(digits: seq<nat>, i: nat)
    requires i < |digits|
    ensures Cut(digits)[i] == Low(digits[i], COEFF_BITS)
  {
    if i < |digits| - 1 {
      CutAt(digits[..|digits| - 1], i);
    }
  }

  /** The coefficients written and the buffer are those of the roll `r`; the rest of the output is zero. */
  ghost predicate Packing(r: Roll, b: nat, out: seq<nat>, idx: nat, buffer: nat, offset: nat) {
    && Rolling(r, 8, b) && |r.given| == idx <= |out| && out == Cut(r.given) + Zeros(|out| - idx)
    && r.buffer == buffer && r.offset == offset && AllBelow(r.given, Pow2(b))
  }

  lemma StoreNext(given: seq<nat>, d: nat, out: seq<nat>, stored: seq<nat>)
    requires |given| < |out| && out == Cut(given) + Zeros(|out| - |given|)
             && stored == out[|given| := Low(d, COEFF_BITS)]
    ensures stored == Cut(given + [d]) + Zeros(|out| - |given| - 1)
  {
    CutSnoc(given, d);
    Overwrite(Cut(given), |out| - |given|, Low(d, COEFF_BITS), out, stored);
  }

  lemma Overwrite(a: seq<nat>, n: nat, x: nat, out: seq<nat>, stored: seq<nat>)
    requires n > 0 && out == a + Zeros(n) && stored == out[|a| := x]
    ensures stored == a + [x] + Zeros(n - 1)
  {
  }

  /** Drains whole coefficients into the output, which has room for them. */
  method DrainCoefficients(out: array<nat>, idx: nat, buffer: nat, offset: nat, b: nat, ghost r: Roll)
    returns (idx': nat, buffer': nat, offset': nat, ghost r': Roll)
    requires b > 0 && Packing(r, b, out[..], idx, buffer, offset) && Bits(8, |r.taken|) <= Bits(b, out.Length)
    modifies out
    ensures Packing(r', b, out[..], idx', buffer', offset') && r'.taken == r.taken && offset' < b
  {
    idx', buffer', offset', r' := idx, buffer, offset, r;
    while offset' >= b
      invariant Packing(r', b, out[..], idx', buffer', offset') && r'.taken == r.taken
      decreases offset'
    {
      GiveRolls(r', 8, b);
      Room(b, idx', out.Length);
      ghost var given, before := r'.given, out[..];
      r' := Give(r', b);
      out[idx'] := Low(Low(buffer', b), COEFF_BITS);
      StoreNext(given, Low(buffer', b), before, out[..]);
      idx', buffer', offset' := idx' + 1, High(buffer', b), offset' - b;
    }
  }

  lemma {:induction false} Room(b: nat, i: nat, n: nat)
    requires b > 0 && Bits(b, i) + b <= Bits(b, n)
    ensures i < n
  {
    BitsProduct(b, i);
    BitsProduct(b, n);
    if n <= i {
      MulMonotone(n, i, b);
    }
  }

  /** The digits packed: those given out, the partial buffer as one more if there is room, and zeros. */
  ghost function PackedDigits(r: Roll, b: nat, size: nat): seq<nat>
    requires |r.given| <= size
  {
    if r.offset > 0 && |r.given| < size then r.given + [Low(r.buffer, b)] + Zeros(size - |r.given| - 1)
    else r.given + Zeros(size - |r.given|)
  }

  /** Their value is that of the bytes taken. */
  lemma PackedValue(r: Roll, b: nat, size: nat)
    requires Rolling(r, 8, b) && |r.given| <= size && AllBelow(r.given, Pow2(b))
    requires (r.offset < b || r.offset == 0) && Bits(8, |r.taken|) <= Bits(b, size)
    ensures AllBelow(PackedDigits(r, b, size), Pow2(b)) && Value(PackedDigits(r, b, size), b) == Value(r.taken, 8)
  {
    if r.offset > 0 && |r.given| < size {
      Pow2Monotone(r.offset, b);
      LowSmall(r.buffer, b);
      ValueSnoc(r.given, r.buffer, b);
      ValueZeros(r.given + [r.buffer], size - |r.given| - 1, b);
    } else {
      NothingLeft(r, b, size);
      ShlProduct(0, Bits(b, |r.given|));
      ValueZeros(r.given, size - |r.given|, b);
    }
  }

  lemma NothingLeft(r: Roll, b: nat, size: nat)
    requires Rolling(r, 8, b) && |r.given| <= size && Bits(8, |r.taken|) <= Bits(b, size)
    requires r.offset == 0 || |r.given| == size
    ensures r.offset == 0 && r.buffer == 0
  {
  }

  /** The output, flushed, is the packed digits as stored. */
  lemma Flushed(r: Roll, b: nat, out: seq<nat>, flushed: seq<nat>, idx: nat)
    requires Packing(r, b, out, idx, r.buffer, r.offset)
    requires flushed == if r.offset > 0 && idx < |out| then out[idx := Low(Low(r.buffer, b), COEFF_BITS)] else out
    ensures flushed == Cut(PackedDigits(r, b, |out|))
  {
    if r.offset > 0 && idx < |out| {
      StoreNext(r.given, Low(r.buffer, b), out, flushed);
      CutZeros(r.given + [Low(r.buffer, b)], |out| - idx - 1);
    } else {
      CutZeros(r.given, |out| - idx);
    }
  }

  lemma TakeByte(r: Roll, b: nat, bytes: Bytes, j: nat)
    requires j < |bytes| && Rolling(r, 8, b) && r.taken == bytes[..j]
    ensures Rolling(Take(r, 8, bytes[j]), 8, b) && Take(r, 8, bytes[j]).taken == bytes[..j + 1]
  {
    BytesBelow(bytes);
    TakeRolls(r, 8, b, bytes[j]);
  }

  /** One more byte fits the buffer. */
  lemma ByteFits(r: Roll, b: nat, byte: Byte)
    requires b > 0 && BufferHolds(b) && Rolling(r, 8, b) && r.offset < b
    ensures Low(r.buffer + Shl(byte, r.offset), BUFFER_BITS) == r.buffer + Shl(byte, r.offset)
  {
    OffsetIs(b, |r.taken|, |r.given|, r.offset);
    OffsetFits(b, |r.taken|);
    SumFits(r.buffer, r.offset, byte);
  }

  lemma OffsetIs(b: nat, taken: nat, given: nat, offset: nat)
    requires offset < b && Bits(8, taken) == Bits(b, given) + offset
    ensures offset == OffsetAt(b, taken)
  {
    BitsProduct(8, taken);
    BitsProduct(b, given);
    DivModUnique(8 * taken, b, given, offset);
  }

  lemma SumFits(buffer: nat, offset: nat, byte: Byte)
    requires buffer < Pow2(offset) && offset + 8 <= BUFFER_BITS
    ensures Low(buffer + Shl(byte, offset), BUFFER_BITS) == buffer + Shl(byte, offset)
  {
    assert Pow2(8) == 256;
    StackBound(buffer, offset, byte, 8);
    Pow2Monotone(offset + 8, BUFFER_BITS);
    LowSmall(buffer + Shl(byte, offset), BUFFER_BITS);
  }

  /** Moves a payload through the buffer into the coefficients. */
  method PackInto(bytes: Bytes, b: nat, out: array<nat>) returns (idx: nat, buffer: nat, offset: nat, ghost r: Roll)
    requires out[..] == Zeros(out.Length) && Bits(8, |bytes|) <= Bits(b, out.Length) && (b > 0 || bytes == [])
             && BufferHolds(b)
    modifies out
    ensures Packing(r, b, out[..], idx, buffer, offset) && r.taken == bytes && (offset < b || offset == 0)
  {
    idx, buffer, offset, r := 0, 0, 0, Roll([], [], 0, 0);
    assert out[..] == Cut([]) + Zeros(out.Length);
    for j := 0 to |bytes|
      invariant r.taken == bytes[..j] && Packing(r, b, out[..], idx, buffer, offset) && (offset < b || offset == 0)
    {
      BitsGrow(8, j, |bytes|);
      TakeByte(r, b, bytes, j);
      idx, buffer, offset, r := PackByte(out, idx, buffer, offset, b, bytes[j], r);
    }
  }

  /** One byte: into the buffer, and whole coefficients out of it. */
  method PackByte(out: array<nat>, idx: nat, buffer: nat, offset: nat, b: nat, byte: Byte, ghost r: Roll)
    returns (idx': nat, buffer': nat, offset': nat, ghost r': Roll)
    requires b > 0 && BufferHolds(b) && Packing(r, b, out[..], idx, buffer, offset) && offset < b
    requires Rolling(Take(r, 8, byte), 8, b) && Bits(8, |r.taken| + 1) <= Bits(b, out.Length)
    modifies out
    ensures Packing(r', b, out[..], idx', buffer', offset') && r'.taken == r.taken + [byte as nat] && offset' < b
  {
    ByteFits(r, b, byte);
    buffer', offset', r' := Low(buffer + Shl(byte, offset), BUFFER_BITS), offset + 8, Take(r, 8, byte);
    idx', buffer', offset', r' := DrainCoefficients(out, idx, buffer', offset', b, r');
  }

  /** The digits that spell the payload, cut to the entry, in base `2^b`. */
  ghost predicate SpellsPayload(digits: seq<nat>, b: nat, n: nat, payload: Bytes) {
    |digits| == n && AllBelow(digits, Pow2(b)) && Value(digits, b) == Value(payload, 8)
  }

  /**
   The coefficients are the digits of the number whose bytes are the payload,
   cut to the entry; unused ones are zero.
   */
  method PackBytesIntoCoefficients(bytes: Bytes, entrySize: nat, polyDegree: nat)
    returns (coeffs: seq<nat>, ghost digits: seq<nat>)
    requires BitsPerCoeff(entrySize, polyDegree).Some? && BufferHolds(BitsPerCoeff(entrySize, polyDegree).value)
    ensures SpellsPayload(digits, BitsPerCoeff(entrySize, polyDegree).value, polyDegree,
                          bytes[..Smaller(|bytes|, entrySize)])
    ensures coeffs == Cut(digits)
  {
    var b, take := BitsPerCoeff(entrySize, polyDegree).value, Smaller(|bytes|, entrySize);
    PayloadFits(b, polyDegree, entrySize, take);
    coeffs, digits := PackAll(bytes[..take], b, polyDegree);
  }

  lemma PayloadFits(b: nat, n: nat, entrySize: nat, take: nat)
    requires Bits(b, n) == 8 * entrySize && take <= entrySize
    ensures Bits(8, take) <= Bits(b, n) && (b > 0 || take == 0)
  {
    BitsProduct(8, take);
    BitsProduct(b, n);
  }

  method PackAll(bytes: Bytes, b: nat, n: nat) returns (coeffs: seq<nat>, ghost digits: seq<nat>)
    requires Bits(8, |bytes|) <= Bits(b, n) && (b > 0 || bytes == []) && BufferHolds(b)
    ensures SpellsPayload(digits, b, n, bytes) && coeffs == Cut(digits)
  {
    var out := new nat[n](_ => 0);
    assert out[..] == Zeros(n);
    var idx, buffer, offset;
    ghost var r;
    idx, buffer, offset, r := PackInto(bytes, b, out);
    ghost var unflushed := out[..];
    if offset > 0 && idx < n {
      out[idx] := Low(Low(buffer, b), COEFF_BITS);
    }
    coeffs := out[..];
    Flushed(r, b, unflushed, coeffs, idx);
    digits := PackedDigits(r, b, n);
    PackedValue(r, b, n);
  }

  // ----- the round trip

  lemma {:induction false} BodyAt(coeffs: seq<nat>, width: nat, i: nat, at: nat)
    requires i < |coeffs| && at == Bits(width, i)
    ensures at + width <= |Body(coeffs, width)| && Body(coeffs, width)[at..at + width] == LittleEndian(coeffs[i], width)
  {
    var n := |coeffs| - 1;
    if i < n {
      BodyAt(coeffs[..n], width, i, at);
      assert Body(coeffs, width)[at..at + width] == Body(coeffs[..n], width)[at..at + width];
    }
  }

  lemma WireAt(coeffs: seq<nat>, i: nat, at: nat)
    requires i < |coeffs| && at == 8 * i
    ensures Wire(coeffs)[4 + at..12 + at] == LittleEndian(coeffs[i], COEFF_BYTES)
  {
    BitsProduct(COEFF_BYTES, i);
    BodyAt(coeffs, COEFF_BYTES, i, at);
    assert Wire(coeffs)[4..] == Body(coeffs, COEFF_BYTES);
    assert Wire(coeffs)[4..][at..at + 8] == Wire(coeffs)[4 + at..12 + at];
  }

  lemma CoeffOfWire(coeffs: seq<nat>, i: nat)
    requires i < |coeffs| && coeffs[i] < Pow2(Bits(8, COEFF_BYTES))
    ensures Coeff(Wire(coeffs), i) == coeffs[i]
  {
    WireAt(coeffs, i, 8 * i);
    LittleEndianValue(coeffs[i], COEFF_BYTES);
  }

  /** A stored digit, read back with the width it was packed with, is the stored digit. */
  lemma PayloadOfWire(digits: seq<nat>, i: nat, b: nat)
    requires i < |digits| && digits[i] < Pow2(b)
    ensures Low(Coeff(Wire(Cut(digits)), i), b) == Cut(digits)[i] < Pow2(b)
  {
    BitsProduct(8, COEFF_BYTES);
    CutAt(digits, i);
    CoeffOfWire(Cut(digits), i);
    if b <= COEFF_BITS {
      Pow2Monotone(b, COEFF_BITS);
      LowSmall(digits[i], COEFF_BITS);
    } else {
      Pow2Monotone(COEFF_BITS, b);
    }
    LowSmall(Cut(digits)[i], b);
  }

  lemma {:induction false} PayloadsOfWire(digits: seq<nat>, coeffs: seq<nat>, data: Bytes, n: nat, b: nat)
    requires n <= |digits| && AllBelow(digits, Pow2(b)) && coeffs == Cut(digits) && data == Wire(coeffs)
    ensures Payloads(data, n, b) == coeffs[..n]
  {
    if n > 0 {
      var k := n - 1;
      PayloadsOfWire(digits, coeffs, data, k, b);
      PayloadOfWire(digits, k, b);
      PayloadNext(data, coeffs, k, b);
    }
  }

  lemma PayloadNext(data: Bytes, coeffs: seq<nat>, k: nat, b: nat)
    requires k < |coeffs| && 4 + 8 * (k + 1) <= |data|
    requires Payloads(data, k, b) == coeffs[..k] && Low(Coeff(data, k), b) == coeffs[k]
    ensures Payloads(data, k + 1, b) == coeffs[..k + 1]
  {
    assert coeffs[..k + 1] == coeffs[..k] + [coeffs[k]];
  }

  lemma CutKeeps(digits: seq<nat>, b: nat)
    requires AllBelow(digits, Pow2(b))
    ensures AllBelow(Cut(digits), Pow2(b))
    ensures Value(Cut(digits), b) == Value(digits, b) <==> AllBelow(digits, Pow2(COEFF_BITS))
  {
    forall i | 0 <= i < |digits|
      ensures Cut(digits)[i] < Pow2(b) && (Cut(digits)[i] == digits[i] <==> digits[i] < Pow2(COEFF_BITS))
    {
      CutAt(digits, i);
      PayloadOfWire(digits, i, b);
      if digits[i] < Pow2(COEFF_BITS) {
        LowSmall(digits[i], COEFF_BITS);
      }
    }
    if AllBelow(digits, Pow2(COEFF_BITS)) {
      assert Cut(digits) == digits;
    } else if Value(Cut(digits), b) == Value(digits, b) {
      ValueUnique(Cut(digits), digits, b);
    }
  }

  /** Digits of at most 64 bits are stored whole. */
  lemma NarrowDigits(digits: seq<nat>, b: nat)
    requires AllBelow(digits, Pow2(b)) && b <= COEFF_BITS
    ensures AllBelow(digits, Pow2(COEFF_BITS))
  {
    Pow2Monotone(b, COEFF_BITS);
  }

  /** What was packed is accepted by the unpacker, which reads the stored digits. */
  lemma PackedIsRead(entrySize: nat, polyDegree: nat, digits: seq<nat>, b: nat)
    requires BitsPerCoeff(entrySize, polyDegree) == Some(b) && polyDegree < Pow2(COUNT_BITS)
    requires |digits| == polyDegree && AllBelow(digits, Pow2(b))
    ensures Accepts(Wire(Cut(digits)), polyDegree, entrySize)
    ensures Payloads(Wire(Cut(digits)), polyDegree, b) == Cut(digits)
  {
    var coeffs := Cut(digits);
    HeaderOfWire(coeffs);
    PayloadsOfWire(digits, coeffs, Wire(coeffs), polyDegree, b);
    assert coeffs[..polyDegree] == coeffs;
  }

  lemma HeaderOfWire(coeffs: seq<nat>)
    requires |coeffs| < Pow2(COUNT_BITS)
    ensures Value(Wire(coeffs)[..4], 8) == |coeffs|
  {
    BitsProduct(8, HEADER_BYTES);
    LittleEndianValue(|coeffs|, HEADER_BYTES);
    assert Wire(coeffs)[..4] == LittleEndian(|coeffs|, HEADER_BYTES);
  }

  /**
   Unpacking what was packed gives back the payload, cut or zero-filled to the
   entry size, exactly if no digit needs more than 64 bits, and so always if
   coefficients carry at most 64: `digits` is as `PackBytesIntoCoefficients`
   promises, `out` as `UnpackOnionPlaintext` promises for what was stored.
   */
  lemma PackUnpackRoundTrip(bytes: Bytes, entrySize: nat, polyDegree: nat, b: nat, digits: seq<nat>, payload: Bytes,
                            out: Bytes)
    requires BitsPerCoeff(entrySize, polyDegree) == Some(b) && polyDegree < Pow2(COUNT_BITS)
    requires payload == bytes[..Smaller(|bytes|, entrySize)] && SpellsPayload(digits, b, polyDegree, payload)
    requires |out| == entrySize && Value(out, 8) == Value(Payloads(Wire(Cut(digits)), polyDegree, b), b)
    ensures Accepts(Wire(Cut(digits)), polyDegree, entrySize)
    ensures out == payload + Zeros(entrySize - |payload|) <==> AllBelow(digits, Pow2(COEFF_BITS))
    ensures b <= COEFF_BITS ==> out == payload + Zeros(entrySize - |payload|)
  {
    PackedIsRead(entrySize, polyDegree, digits, b);
    CutKeeps(digits, b);
    if Value(out, 8) == Value(payload, 8) {
      PaddedUnique(out, payload);
    } else {
      ValueZeros(payload, entrySize - |payload|, 8);
    }
    if b <= COEFF_BITS {
      NarrowDigits(digits, b);
    }
  }

  /** The width of one coefficient that holds nine bytes. */
  const NINE_BYTES: nat := 72

  /** Nine bytes in one coefficient: if the last is not zero, the payload does not come back. */
  lemma NinthByteLost(payload: Bytes, digits: seq<nat>, out: Bytes, size: nat, degree: nat)
    requires size == 9 && degree == 1 && |payload| == size && payload[8] > 0
    requires SpellsPayload(digits, NINE_BYTES, degree, payload)
    requires |out| == size && Value(out, 8) == Value(Payloads(Wire(Cut(digits)), degree, NINE_BYTES), NINE_BYTES)
    ensures BitsPerCoeff(size, degree) == Some(NINE_BYTES) && BufferHolds(NINE_BYTES) && out != payload
  {
    NinthByte(payload);
    OneDigit(digits, NINE_BYTES);
    NothingToFill(payload, size);
    NineBytesTile(size, degree);
    CountFits();
    PackUnpackRoundTrip(payload, size, degree, NINE_BYTES, digits, payload, out);
  }

  lemma NothingToFill(payload: Bytes, size: nat)
    requires |payload| == size
    ensures payload[..Smaller(|payload|, size)] == payload && payload + Zeros(size - |payload|) == payload
  {
  }

  lemma NineBytesTile(size: nat, degree: nat)
    requires size == 9 && degree == 1
    ensures BitsPerCoeff(size, degree) == Some(NINE_BYTES)
  {
  }

  lemma OneDigit(digits: seq<nat>, b: nat)
    requires |digits| == 1
    ensures Value(digits, b) == digits[0]
  {
    assert digits[..0] == [] && Bits(b, 0) == 0;
  }

  lemma NinthByte(payload: Bytes)
    requires |payload| == 9 && payload[8] > 0
    ensures Value(payload, 8) >= Pow2(COEFF_BITS)
  {
    BitsProduct(8, 8);
    ShlProduct(payload[8], COEFF_BITS);
    AtLeastOnce(payload[8], Pow2(COEFF_BITS));
  }

  lemma CountFits()
    ensures 1 < Pow2(COUNT_BITS)
  {
    Pow2Monotone(1, COUNT_BITS);
  }
}
