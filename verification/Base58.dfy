/** Base58 and Base58Check. */
module Base58 {
  import opened Wrappers
  import opened Arithmetic
  import opened Horner
  import opened Alphabet
  import opened Hex

  // The alphabet, in rising stretches.
  const NUMERALS: string := "123456789"
  const A_TO_M: string := "ABCDEFGHJKLM"
  const N_TO_Z: string := "NPQRSTUVWXYZ"
  const SMALL_A_TO_M: string := "abcdefghijkm"
  const SMALL_N_TO_Z: string := "nopqrstuvwxyz"
  const BASE58_CHARS: string := NUMERALS + A_TO_M + N_TO_Z + SMALL_A_TO_M + SMALL_N_TO_Z

  lemma BaseSize()
    ensures |BASE58_CHARS| == 58 && BASE58_CHARS[0] == '1'
  {
  }

  /** Distinct characters, all within bounds. */
  ghost predicate Stretch(a: string, low: char, high: char) {
    Distinct(a) && forall i | 0 <= i < |a| :: low <= a[i] <= high
  }

  lemma Numerals()
    ensures Stretch(NUMERALS, '1', '9')
  {
  }

  lemma Capitals()
    ensures Stretch(A_TO_M, 'A', 'M') && Stretch(N_TO_Z, 'N', 'Z')
  {
  }

  lemma Smalls()
    ensures Stretch(SMALL_A_TO_M, 'a', 'm') && Stretch(SMALL_N_TO_Z, 'n', 'z')
  {
  }

  lemma Join(a: string, b: string, low: char, mid: char, next: char, high: char)
    requires Stretch(a, low, mid) && Stretch(b, next, high) && low <= mid < next <= high
    ensures Stretch(a + b, low, high)
  {
  }

  /** The alphabet's characters are distinct letters and numerals. */
  lemma Base58Distinct()
    ensures Stretch(BASE58_CHARS, '1', 'z')
  {
    Numerals();
    Capitals();
    Smalls();
    Join(NUMERALS, A_TO_M, '1', '9', 'A', 'M');
    Join(NUMERALS + A_TO_M, N_TO_Z, '1', 'M', 'N', 'Z');
    Join(NUMERALS + A_TO_M + N_TO_Z, SMALL_A_TO_M, '1', 'Z', 'a', 'm');
    Join(NUMERALS + A_TO_M + N_TO_Z + SMALL_A_TO_M, SMALL_N_TO_Z, '1', 'm', 'n', 'z');
  }

  // ----- encoding

  /** How often `x` stands at the front. */
  function Leading<T(==)>(s: seq<T>, x: T): (n: nat)
    ensures n <= |s| && (forall i | 0 <= i < n :: s[i] == x) && (n < |s| ==> s[n] != x)
  {
    if s != [] && s[0] == x then 1 + Leading(s[1..], x) else 0
  }

  method CountLeading<T(==)>(s: seq<T>, x: T) returns (n: nat)
    ensures n == Leading(s, x)
  {
    n := 0;
    while n < |s| && s[n] == x
      invariant n <= |s| && forall i | 0 <= i < n :: s[i] == x
    {
      n := n + 1;
    }
    LeadingUnique(s, x, n);
  }

  lemma LeadingUnique<T>(s: seq<T>, x: T, n: nat)
    requires n <= |s| && (forall i | 0 <= i < n :: s[i] == x) && (n < |s| ==> s[n] != x)
    ensures n == Leading(s, x)
  {
  }

  function Ones(n: nat): string { seq(n, _ => '1') }

  /** Leading zero bytes as '1', then the number in base 58. */
  function Encoded(data: Bytes): string {
    BaseSize();
    Ones(Leading(data, 0)) + Chars(BASE58_CHARS, Digits(Number(data, 256), 58))
  }

  method Encode(data: Bytes) returns (s: string)
    ensures s == Encoded(data)
  {
    var leadingZeros := CountLeading(data, 0);
    var num := ReadNumber(data, 256);
    var digits := WriteNumber(num, 58);
    BaseSize();
    s := Ones(leadingZeros) + Chars(BASE58_CHARS, digits);
  }

  method ReadNumber(ds: seq<nat>, base: nat) returns (num: nat)
    ensures num == Number(ds, base)
  {
    num := 0;
    for i := 0 to |ds|
      invariant num == Number(ds[..i], base)
    {
      assert ds[..i + 1] == ds[..i] + [ds[i]];
      NumberSnoc(ds[..i], ds[i], base);
      num := num * base + ds[i];
    }
    assert ds[..|ds|] == ds;
  }

  method WriteNumber(all: nat, base: nat) returns (digits: seq<nat>)
    requires base > 1
    ensures digits == Digits(all, base)
  {
    var num: nat := all;
    digits := [];
    assert Digits(num, base) + [] == Digits(num, base);
    while num > 0
      invariant Digits(all, base) == Digits(num, base) + digits
      decreases num
    {
      Shrinks(num, base);
      var d: nat, q: nat := num % base, Quotient(num, base);
      Prepend(Digits(q, base), d, digits);
      num, digits := q, [d] + digits;
    }
    assert [] + digits == digits;
  }

  lemma Prepend(a: seq<nat>, d: nat, b: seq<nat>)
    ensures a + [d] + b == a + ([d] + b)
  {
  }

  // ----- decoding

  function Decoded(s: string): Option<Bytes> {
    BaseSize();
    var ds := Indices(BASE58_CHARS, s);
    if ds.None? then None else Some(Zeros(Leading(s, '1')) + Digits(Number(ds.value, 58), 256))
  }

  method Decode(s: string) returns (r: Option<Bytes>)
    ensures r == Decoded(s)
  {
    BaseSize();
    var ds := ReadDigits(BASE58_CHARS, s);
    if ds.None? {
      return None;
    }
    var num := ReadNumber(ds.value, 58);
    var leadingZeros := CountLeading(s, '1');
    var bytes := NumberToBytes(num);
    return Some(Zeros(leadingZeros) + bytes);
  }

  /** Through the hex digits of the number. */
  method NumberToBytes(num: nat) returns (bytes: Bytes)
    ensures bytes == Digits(num, 256)
  {
    EvenHexBytes(num);
    bytes := Pairs(EvenHex(num));
  }

  /** Decoding undoes encoding, leading zeros included. */
  lemma Base58RoundTrip(data: Bytes)
    ensures Decoded(Encoded(data)) == Some(data)
  {
    BaseSize();
    Base58Distinct();
    var z := Leading(data, 0);
    var rest := data[z..];
    assert data == Zeros(z) + rest;
    NumberZeros(z, rest, 256);
    var num := Number(rest, 256);
    DigitsOfNumber(rest, 256);
    var ds := Digits(num, 58);
    NumberOfDigits(num, 58);
    NumberZeros(z, ds, 58);
    OnesAreZeros(z, ds);
    IndicesOfChars(BASE58_CHARS, Zeros(z) + ds);
    LeadingOnes(z, num);
  }

  lemma OnesAreZeros(z: nat, ds: seq<nat>)
    requires Digital(ds, |BASE58_CHARS|)
    ensures Digital(Zeros(z) + ds, |BASE58_CHARS|)
            && Chars(BASE58_CHARS, Zeros(z) + ds) == Ones(z) + Chars(BASE58_CHARS, ds)
  {
    BaseSize();
    CharsAppend(BASE58_CHARS, Zeros(z), ds);
    assert Chars(BASE58_CHARS, Zeros(z)) == Ones(z);
  }

  /** A number's first digit is not '1', so the ones in front are those of the zero bytes. */
  lemma LeadingOnes(z: nat, num: nat)
    requires |BASE58_CHARS| == 58
    ensures Leading(Ones(z) + Chars(BASE58_CHARS, Digits(num, 58)), '1') == z
  {
    var ds := Digits(num, 58);
    DigitsStart(num, 58);
    BaseSize();
    Base58Distinct();
    var s := Ones(z) + Chars(BASE58_CHARS, ds);
    if ds != [] {
      assert s[z] == BASE58_CHARS[ds[0]] && BASE58_CHARS[ds[0]] != BASE58_CHARS[0];
    }
    LeadingUnique(s, '1', z);
  }
}
