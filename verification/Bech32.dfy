/** Bech32 and bech32m strings of witness programs: the decoder accepts exactly the strings the encoder can write. */
module Bech32 {
  import opened Wrappers
  import opened Arithmetic
  import opened Radix
  import opened Horner
  import opened Alphabet
  import opened BitRegroup
  import opened Bech32Checksum

  const FIRST_HALF: string := "qpzry9x8gf2tvdw0"
  const SECOND_HALF: string := "s3jn54khce6mua7l"
  const BECH32_CHARSET: string := FIRST_HALF + SECOND_HALF

  /** The checksum constants of the two encodings. */
  const BECH32: nat := 1
  const BECH32M: nat := 0x2bc830a3

  datatype Witness = Witness(hrp: string, version: nat, program: Bytes)

  lemma Charset()
    ensures |BECH32_CHARSET| == 32 && Distinct(BECH32_CHARSET)
  {
    FirstHalf();
    SecondHalf();
    HalvesApart();
  }

  lemma FirstHalf()
    ensures |FIRST_HALF| == 16 && Distinct(FIRST_HALF)
  {
  }

  lemma SecondHalf()
    ensures |SECOND_HALF| == 16 && Distinct(SECOND_HALF)
  {
  }

  lemma HalvesApart()
    ensures forall i, j | 0 <= i < |FIRST_HALF| && 0 <= j < |SECOND_HALF| :: FIRST_HALF[i] != SECOND_HALF[j]
  {
  }

  /** Lower-case letters and numerals other than '1'. */
  lemma CharsetPlain()
    ensures forall i | 0 <= i < |BECH32_CHARSET| :: '0' <= BECH32_CHARSET[i] <= 'z' && BECH32_CHARSET[i] != '1'
    ensures forall i | 0 <= i < |BECH32_CHARSET| :: !('A' <= BECH32_CHARSET[i] <= 'Z')
  {
  }

  // ----- the human-readable part

  /** The UTF-16 code unit a character starts with. */
  function Code(c: char): (r: nat)
    ensures r < 0x1_0000
  {
    if c as int < 0x1_0000 then c as int else 0xd800 + (c as int - 0x1_0000) / 0x400
  }

  function Expand(hrp: string): seq<nat> {
    seq(|hrp|, i requires 0 <= i < |hrp| => Code(hrp[i]) / 32) + [0]
      + seq(|hrp|, i requires 0 <= i < |hrp| => Code(hrp[i]) % 32)
  }

  method HrpExpand(hrp: string) returns (ret: seq<nat>)
    ensures ret == Expand(hrp)
  {
    ret := [];
    for i := 0 to |hrp|
      invariant ret == seq(i, j requires 0 <= j < i => Code(hrp[j]) / 32)
    {
      ret := ret + [Code(hrp[i]) / 32];
    }
    ret := ret + [0];
    for i := 0 to |hrp|
      invariant ret
                == seq(|hrp|, j requires 0 <= j < |hrp| => Code(hrp[j]) / 32) + [0]
                  + seq(i, j requires 0 <= j < i => Code(hrp[j]) % 32)
    {
      ret := ret + [Code(hrp[i]) % 32];
    }
  }

  lemma ValuesFit(hrp: string, data: seq<nat>)
    requires Digital(data, 32)
    ensures Fits(Expand(hrp) + data)
  {
    RegisterSize();
  }

  // ----- encoding

  /** `s` is the prefix, a '1', and symbols. */
  ghost predicate Spelled(s: string, hrp: string, symbols: seq<nat>) {
    Digital(symbols, |BECH32_CHARSET|) && s == hrp + "1" + Chars(BECH32_CHARSET, symbols)
  }

  /** `s` carries the data symbols and then their checksum. */
  ghost predicate Carries(s: string, hrp: string, data: seq<nat>, encoding: nat) {
    exists sum :: CarriesSum(s, hrp, data, encoding, sum)
  }

  ghost predicate CarriesSum(s: string, hrp: string, data: seq<nat>, encoding: nat, sum: seq<nat>) {
    IsChecksum(sum, Expand(hrp) + data, encoding) && Spelled(s, hrp, data + sum)
  }

  method Encode(hrp: string, data: seq<nat>, encoding: nat) returns (s: string)
    requires Digital(data, 32) && (encoding == BECH32 || encoding == BECH32M)
    ensures Carries(s, hrp, data, encoding)
  {
    Charset();
    RegisterSize();
    ValuesFit(hrp, data);
    var expanded := HrpExpand(hrp);
    var checksum := CreateChecksum(expanded + data, encoding);
    s := hrp + "1" + Chars(BECH32_CHARSET, data + checksum);
    assert CarriesSum(s, hrp, data, encoding, checksum);
  }

  // ----- decoding

  function LastIndexOf(s: string, c: char): (r: Option<nat>)
    ensures r.Some? ==> r.value < |s| && s[r.value] == c && forall i | r.value < i < |s| :: s[i] != c
    ensures r.None? ==> c !in s
  {
    if s == [] then None
    else if s[|s| - 1] == c then Some(|s| - 1)
    else
      assert s == s[..|s| - 1] + [s[|s| - 1]];
      LastIndexOf(s[..|s| - 1], c)
  }

  /** The parts of a string around its last '1', if there is a prefix and room for a checksum. */
  function Split(s: string): (r: Option<(string, seq<nat>)>)
    ensures r.Some? ==> r.value.0 != "" && |r.value.1| >= 6 && Spelled(s, r.value.0, r.value.1)
  {
    var pos := LastIndexOf(s, '1');
    if pos.None? || pos.value < 1 || pos.value + 7 > |s| then None
    else
      var symbols := Indices(BECH32_CHARSET, s[pos.value + 1..]);
      if symbols.None? then None
      else
        assert Chars(BECH32_CHARSET, symbols.value) == s[pos.value + 1..];
        assert s == s[..pos.value] + "1" + s[pos.value + 1..];
        Some((s[..pos.value], symbols.value))
  }

  lemma LastOne(s: string, hrp: string, tail: string)
    requires s == hrp + "1" + tail && '1' !in tail
    ensures LastIndexOf(s, '1') == Some(|hrp|) && s[..|hrp|] == hrp && s[|hrp| + 1..] == tail
  {
    assert s[|hrp|] == '1' && s[|hrp| + 1..] == tail;
    forall i | |hrp| < i < |s| ensures s[i] != '1' {
      assert s[i] == s[|hrp| + 1..][i - |hrp| - 1];
    }
  }

  lemma NoOne(symbols: seq<nat>)
    requires Digital(symbols, |BECH32_CHARSET|)
    ensures '1' !in Chars(BECH32_CHARSET, symbols)
  {
    CharsetPlain();
  }

  /** Splitting undoes spelling. */
  lemma SplitSpelled(s: string, hrp: string, symbols: seq<nat>)
    requires hrp != "" && |symbols| >= 6 && Spelled(s, hrp, symbols)
    ensures Split(s) == Some((hrp, symbols))
  {
    Charset();
    NoOne(symbols);
    LastOne(s, hrp, Chars(BECH32_CHARSET, symbols));
    IndicesOfChars(BECH32_CHARSET, symbols);
  }

  /** The groups are the program's bits, with fewer than five zero bits of padding. */
  ghost predicate Regroups(groups: seq<nat>, program: Bytes, padding: nat) {
    && padding < 5 && Digital(groups, 32) && Bits(5, |groups|) == Bits(8, |program|) + padding
    && Number(groups, 32) == Shl(Number(program, 256), padding)
  }

  ghost predicate Groups(groups: seq<nat>, program: Bytes) {
    exists padding :: Regroups(groups, program, padding)
  }

  ghost predicate Spells(data: seq<nat>, version: nat, program: Bytes) {
    data != [] && data[0] == version && Groups(data[1..], program)
  }

  /** What `ConvertBitsNoPad` promises for groups of five, as bytes. */
  ghost predicate NoPadResult(groups: seq<nat>, r: Option<seq<nat>>, left: nat) {
    && left == Leftover(5, 8, |groups|)
    && (r.Some? <==> left < 5 && Low(Number(groups, 32), left) == 0)
    && (r.Some? ==> Digital(r.value, 256) && Bits(8, |r.value|) + left == Bits(5, |groups|)
                    && Shl(Number(r.value, 256), left) == Number(groups, 32))
  }

  lemma ShlInjective(a: nat, b: nat, n: nat)
    requires Shl(a, n) == Shl(b, n)
    ensures a == b
  {
    ShlProduct(a, n);
    ShlProduct(b, n);
    DivModUnique(Shl(a, n), Pow2(n), a, 0);
    DivModUnique(Shl(b, n), Pow2(n), b, 0);
  }

  /** The conversion finds the program whose groups these are. */
  lemma NoPadFinds(groups: seq<nat>, r: Option<seq<nat>>, left: nat, program: Bytes, padding: nat)
    requires NoPadResult(groups, r, left) && Regroups(groups, program, padding)
    ensures r == Some(program)
  {
    LeftoverIs(5, 8, |groups|, |program|, padding);
    ShlProduct(Number(program, 256), padding);
    DivModUnique(Number(groups, 32), Pow2(padding), Number(program, 256), 0);
    BitsProduct(8, |program|);
    BitsProduct(8, |r.value|);
    ShlInjective(Number(r.value, 256), Number(program, 256), left);
    NumberUnique(r.value, program, 256);
  }

  lemma NoPadDecides(groups: seq<nat>, r: Option<seq<nat>>, left: nat, program: Bytes)
    requires Digital(groups, 32) && NoPadResult(groups, r, left)
    ensures Groups(groups, program) <==> r == Some(program)
  {
    if Groups(groups, program) {
      var padding :| Regroups(groups, program, padding);
      NoPadFinds(groups, r, left, program, padding);
    }
    if r == Some(program) {
      assert Regroups(groups, program, left);
    }
  }

  function EncodingOf(version: nat): nat { if version == 0 then BECH32 else BECH32M }

  /** The lower-cased string is that of the witness program. */
  ghost predicate Accepts(s: string, w: Witness) {
    var parts := Split(s);
    && parts.Some? && parts.value.0 == w.hrp
    && var symbols := parts.value.1;
       && Fold(1, Expand(w.hrp) + symbols) == EncodingOf(w.version)
       && Spells(symbols[..|symbols| - 6], w.version, w.program)
  }

  function Lower(s: string): (r: string)
    ensures |r| == |s|
  {
    seq(|s|, i requires 0 <= i < |s| => if 'A' <= s[i] <= 'Z' then (s[i] as int + 32) as char else s[i])
  }

  /** Lower-casing of strings, of which only what it does to ASCII matters here. */
  type Folding = string -> string

  predicate Ascii(s: string) { forall i | 0 <= i < |s| :: s[i] <= '~' }

  ghost predicate LowersAscii(fold: Folding) {
    forall s: string | Ascii(s) :: fold(s) == Lower(s)
  }

  /** A character that is no capital stays as it is. */
  lemma FoldedAt(fold: Folding, s: string, i: nat)
    requires LowersAscii(fold) && Ascii(s) && i < |s| && !('A' <= s[i] <= 'Z')
    ensures |fold(s)| == |s| && fold(s)[i] == s[i]
  {
  }

  lemma FoldedPlain(fold: Folding, s: string)
    requires LowersAscii(fold) && Ascii(s) && forall i | 0 <= i < |s| :: !('A' <= s[i] <= 'Z')
    ensures fold(s) == s
  {
    assert Lower(s) == s;
  }

  /** A program out of a split string, or nothing. */
  method DecodeSymbols(hrp: string, symbols: seq<nat>) returns (r: Option<Witness>)
    requires |symbols| >= 6 && Digital(symbols, 32)
    ensures forall w :: r == Some(w) <==>
              && w.hrp == hrp && Fold(1, Expand(hrp) + symbols) == EncodingOf(w.version)
              && Spells(symbols[..|symbols| - 6], w.version, w.program)
  {
    var expanded := HrpExpand(hrp);
    var polymod := Polymod(expanded + symbols);
    if polymod != BECH32 && polymod != BECH32M {
      return None;
    }
    var payload := symbols[..|symbols| - 6];
    if |payload| < 1 {
      return None;
    }
    var version, groups := payload[0], payload[1..];
    assert Pow2(5) == 32 && Pow2(8) == 256;
    var program := ConvertBitsNoPad(groups, 5, 8);
    forall p: Bytes ensures Groups(groups, p) <==> program == Some(p) {
      NoPadDecides(groups, program, Leftover(5, 8, |groups|), p);
    }
    if program.None? {
      return None;
    }
    if version == 0 && polymod != BECH32 {
      return None;
    }
    if version >= 1 && polymod != BECH32M {
      return None;
    }
    return Some(Witness(hrp, version, program.value));
  }

  method SplitString(s: string) returns (r: Option<(string, seq<nat>)>)
    ensures r == Split(s)
  {
    var pos := LastIndexOf(s, '1');
    if pos.None? || pos.value < 1 || pos.value + 7 > |s| {
      return None;
    }
    var symbols := ReadDigits(BECH32_CHARSET, s[pos.value + 1..]);
    return if symbols.None? then None else Some((s[..pos.value], symbols.value));
  }

  /** Decodes exactly the strings that spell a witness program with the checksum of its version. */
  method Decode(fold: Folding, str: string) returns (r: Option<Witness>)
    ensures forall w :: r == Some(w) <==> Accepts(fold(str), w)
  {
    Charset();
    var parts := SplitString(fold(str));
    if parts.None? {
      return None;
    }
    r := DecodeSymbols(parts.value.0, parts.value.1);
  }

  /** The encoder writes `s` for the witness program. */
  ghost predicate Written(s: string, w: Witness) {
    exists data :: Carries(s, w.hrp, data, EncodingOf(w.version)) && Spells(data, w.version, w.program)
  }

  /** The whole string folds to the constant exactly when its last six symbols are the checksum of the others. */
  lemma SumChecks(hrp: string, data: seq<nat>, sum: seq<nat>, symbols: seq<nat>, encoding: nat)
    requires symbols == data + sum && |sum| == 6 && Digital(sum, 32)
    ensures Fold(1, Expand(hrp) + symbols) == encoding <==> IsChecksum(sum, Expand(hrp) + data, encoding)
  {
    ChecksumVerifies(Expand(hrp) + data, encoding, sum);
    assert Expand(hrp) + data + sum == Expand(hrp) + symbols;
  }

  /** A lower-case string written by the encoder for a version's constant is decoded to what was written. */
  lemma EncodedIsAccepted(s: string, w: Witness)
    requires w.hrp != "" && Written(s, w)
    ensures Accepts(s, w)
  {
    var data :| Carries(s, w.hrp, data, EncodingOf(w.version)) && Spells(data, w.version, w.program);
    var sum :| CarriesSum(s, w.hrp, data, EncodingOf(w.version), sum);
    SplitSpelled(s, w.hrp, data + sum);
    SumChecks(w.hrp, data, sum, data + sum, EncodingOf(w.version));
    assert (data + sum)[..|data|] == data;
  }

  /** Whatever is decoded was written by the encoder, up to upper case. */
  lemma AcceptedIsEncoded(s: string, w: Witness)
    requires Accepts(s, w)
    ensures Written(s, w)
  {
    var symbols := Split(s).value.1;
    var n := |symbols| - 6;
    assert symbols == symbols[..n] + symbols[n..];
    SpelledCarries(s, w.hrp, symbols, symbols[..n], symbols[n..], EncodingOf(w.version));
  }

  /** Symbols that fold to the constant are data with their checksum. */
  lemma SpelledCarries(s: string, hrp: string, symbols: seq<nat>, data: seq<nat>, sum: seq<nat>, encoding: nat)
    requires Spelled(s, hrp, symbols) && symbols == data + sum && |sum| == 6
             && Fold(1, Expand(hrp) + symbols) == encoding
    ensures Carries(s, hrp, data, encoding)
  {
    Charset();
    SumDigital(symbols, data, sum);
    SumChecks(hrp, data, sum, symbols, encoding);
    assert CarriesSum(s, hrp, data, encoding, sum);
  }

  lemma SumDigital(symbols: seq<nat>, data: seq<nat>, sum: seq<nat>)
    requires Digital(symbols, 32) && symbols == data + sum
    ensures Digital(sum, 32)
  {
    forall i | 0 <= i < |sum| ensures sum[i] < 32 {
      assert symbols[|data| + i] == sum[i];
    }
  }
}
