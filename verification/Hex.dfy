/** Hex strings. */
module Hex {
  import opened Wrappers
  import opened Horner
  import opened Alphabet

  const HEX: string := "0123456789abcdef"

  function Pair(b: Byte): (r: string)
    ensures |r| == 2
  {
    [HEX[b / 16], HEX[b % 16]]
  }

  /** Two digits per byte. */
  function BytesToHex(bytes: Bytes): (r: string)
    ensures |r| == 2 * |bytes|
  {
    if bytes == [] then []
    else
      BytesToHex(bytes[..|bytes| - 1]) + Pair(bytes[|bytes| - 1])
  }

  /** The value of a hex digit in either case. */
  function HexDigit(c: char): (r: Option<nat>)
    ensures r.Some? ==> r.value < 16
  {
    if '0' <= c <= '9' then Some(c as int - '0' as int)
    else if 'a' <= c <= 'f' then Some(c as int - 'a' as int + 10)
    else if 'A' <= c <= 'F' then Some(c as int - 'A' as int + 10)
    else None
  }

  /** The white space and line ends of Unicode, which `trim` removes and `parseInt` skips. */
  predicate IsSpace(c: char) {
    var u := c as int;
    || 0x09 <= u <= 0x0d || u == 0x20 || u == 0xa0 || u == 0x1680 || 0x2000 <= u <= 0x200a
    || u == 0x2028 || u == 0x2029 || u == 0x202f || u == 0x205f || u == 0x3000 || u == 0xfeff
  }

  /**
   What `parseInt` reads in a pair, cut to a byte: one digit may follow a blank
   or a sign, what follows a digit may be no digit, and anything else is not a
   number, which is stored as 0.
   */
  function ReadPair(a: char, b: char): Byte {
    var x, y := HexDigit(a), HexDigit(b);
    if x.Some? then (if y.None? then x.value else 16 * x.value + y.value)
    else if y.None? then 0
    else if IsSpace(a) || a == '+' then y.value
    else if a == '-' then (256 - y.value) % 256
    else 0
  }

  function Pairs(hex: string): (r: Bytes)
    ensures |hex| - 1 <= 2 * |r| <= |hex|
  {
    if |hex| < 2 then [] else Pairs(hex[..|hex| - 2]) + [ReadPair(hex[|hex| - 2], hex[|hex| - 1])]
  }

  method HexToBytes(hex: string) returns (r: Option<Bytes>)
    ensures r == if |hex| % 2 != 0 then None else Some(Pairs(hex))
  {
    if |hex| % 2 != 0 {
      return None;
    }
    var bytes: Bytes := [];
    for i := 0 to |hex| / 2
      invariant bytes == Pairs(hex[..2 * i])
    {
      assert hex[..2 * (i + 1)][..2 * i] == hex[..2 * i];
      bytes := bytes + [ReadPair(hex[2 * i], hex[2 * i + 1])];
    }
    assert hex[..|hex|] == hex;
    return Some(bytes);
  }

  lemma HexDigitOf(d: nat)
    requires d < 16
    ensures HexDigit(HEX[d]) == Some(d)
  {
  }

  lemma PairOf(b: Byte)
    ensures ReadPair(Pair(b)[0], Pair(b)[1]) == b
  {
    HexDigitOf(b / 16);
    HexDigitOf(b % 16);
  }

  lemma PairsSnoc(hex: string, b: Byte, all: string)
    requires all == hex + Pair(b)
    ensures Pairs(all) == Pairs(hex) + [b]
  {
    PairOf(b);
    assert all[..|all| - 2] == hex && all[|all| - 2] == Pair(b)[0] && all[|all| - 1] == Pair(b)[1];
  }

  lemma BytesToHexSnoc(bytes: Bytes, b: Byte)
    ensures BytesToHex(bytes + [b]) == BytesToHex(bytes) + Pair(b)
  {
    assert (bytes + [b])[..|bytes|] == bytes;
  }

  lemma {:induction false} HexRoundTrip(bytes: Bytes)
    ensures Pairs(BytesToHex(bytes)) == bytes
  {
    if bytes != [] {
      var init, last := bytes[..|bytes| - 1], bytes[|bytes| - 1];
      assert bytes == init + [last];
      HexRoundTrip(init);
      BytesToHexSnoc(init, last);
      PairsSnoc(BytesToHex(init), last, BytesToHex(init) + Pair(last));
    }
  }

  // ----- big numbers through their hex digits

  /** `num.toString(16)`, padded to an even length; nothing for zero. */
  function EvenHex(num: nat): string {
    Even(Chars(HEX, Digits(num, 16)))
  }

  function Even(s: string): string {
    if |s| % 2 == 0 then s else "0" + s
  }

  lemma EvenSnoc(s: string, p: string)
    requires |p| == 2
    ensures Even(s + p) == Even(s) + p
  {
    assert "0" + (s + p) == "0" + s + p;
  }

  lemma HexOfSmall(num: nat)
    requires 0 < num < 256
    ensures EvenHex(num) == Pair(num)
  {
    SmallDigits(num);
    if num < 16 {
      assert Chars(HEX, [num]) == [HEX[num]];
    } else {
      assert Chars(HEX, [num / 16, num % 16]) == [HEX[num / 16], HEX[num % 16]];
    }
  }

  lemma SmallDigits(num: nat)
    requires 0 < num < 256
    ensures Digits(num, 16) == if num < 16 then [num] else [num / 16, num % 16]
  {
    if num >= 16 {
      assert Digits(num / 16, 16) == [num / 16];
    }
  }

  lemma DigitsTwice(num: nat, x: nat, y: nat)
    requires num >= 256 && x == num % 256 / 16 && y == num % 16
    ensures Digits(num, 16) == Digits(num / 256, 16) + [x, y]
  {
    var q := num / 16;
    assert q / 16 == num / 256 && q % 16 == x;
    assert Digits(q, 16) == Digits(num / 256, 16) + [x];
    assert Digits(num, 16) == Digits(num / 256, 16) + [x] + [y];
  }

  lemma HexSnoc(num: nat, q: nat, b: Byte)
    requires num >= 256 && q == num / 256 && b == num % 256
    ensures EvenHex(num) == EvenHex(q) + Pair(b)
  {
    CharsOfBoth(num, q, b);
    EvenSnoc(Chars(HEX, Digits(q, 16)), Pair(b));
  }

  lemma CharsOfBoth(num: nat, q: nat, b: Byte)
    requires num >= 256 && q == num / 256 && b == num % 256
    ensures Chars(HEX, Digits(num, 16)) == Chars(HEX, Digits(q, 16)) + Pair(b)
  {
    var x, y := b / 16, b % 16;
    assert num % 16 == y;
    DigitsTwice(num, x, y);
    CharsAppend(HEX, Digits(q, 16), [x, y]);
    assert Chars(HEX, [x, y]) == Pair(b);
  }

  lemma EvenHexLast(num: nat, q: nat, b: Byte)
    requires num > 0 && q == num / 256 && b == num % 256 && Pairs(EvenHex(q)) == Digits(q, 256)
    ensures Pairs(EvenHex(num)) == Digits(q, 256) + [b]
  {
    if num < 256 {
      HexOfSmall(num);
      PairsSnoc(EvenHex(q), b, Pair(num));
    } else {
      HexSnoc(num, q, b);
      PairsSnoc(EvenHex(q), b, EvenHex(num));
    }
  }

  /** The bytes read from the padded hex digits are the number's bytes. */
  lemma {:induction false} EvenHexBytes(num: nat)
    ensures Pairs(EvenHex(num)) == Digits(num, 256)
  {
    if num > 0 {
      var q: nat, b: nat := num / 256, num % 256;
      EvenHexBytes(q);
      EvenHexLast(num, q, b);
    }
  }

  // ----- `parseInt` with radix 16

  function SkipBlanks(s: string): string {
    if s != [] && IsSpace(s[0]) then SkipBlanks(s[1..]) else s
  }

  function SkipPrefix(s: string): string {
    if "0x" <= s || "0X" <= s then s[2..] else s
  }

  /** The value of the longest run of hex digits in front. */
  function LeadingDigits(s: string, sofar: Option<nat>): Option<nat>
    decreases |s|
  {
    if s == [] || HexDigit(s[0]).None? then sofar
    else LeadingDigits(s[1..], Some((if sofar.Some? then 16 * sofar.value else 0) + HexDigit(s[0]).value))
  }

  function ParseInt(s: string): Option<int> {
    var t := SkipBlanks(s);
    var signed := t != [] && (t[0] == '-' || t[0] == '+');
    match LeadingDigits(SkipPrefix(if signed then t[1..] else t), None)
    case None => None
    case Some(v) => Some(if signed && t[0] == '-' then 0 - (v as int) else v as int)
  }

  /** A byte array stores a number modulo 256, and what is none as 0. */
  function StoredByte(n: Option<int>): Byte {
    if n.None? then 0 else n.value % 256
  }

  /** A pair is read as `parseInt` reads it. */
  lemma PairParsed(a: char, b: char)
    ensures ReadPair(a, b) == StoredByte(ParseInt([a, b]))
  {
    var s := [a, b];
    assert s[1..] == [b] && s[1..][1..] == [];
    if IsSpace(a) {
      assert SkipBlanks(s) == SkipBlanks([b]);
      assert SkipBlanks([b]) == if IsSpace(b) then [] else [b];
      SingleParsed(b);
    } else if a == '-' || a == '+' {
      assert SkipBlanks(s) == s;
      SingleParsed(b);
    } else {
      assert SkipBlanks(s) == s && s[2..] == [];
      if HexDigit(a).Some? {
        var x := HexDigit(a).value;
        assert LeadingDigits(s, None) == LeadingDigits([b], Some(x));
        assert LeadingDigits([b], Some(x)) ==
               if HexDigit(b).None? then Some(x) else Some(16 * x + HexDigit(b).value) by {
          assert [b][1..] == [];
        }
      }
    }
  }

  lemma SingleParsed(b: char)
    ensures LeadingDigits([b], None) == HexDigit(b) && SkipPrefix([b]) == [b]
    ensures HexDigit(b).Some? ==> !IsSpace(b) && b != '-' && b != '+'
  {
    assert [b][1..] == [];
  }
}
