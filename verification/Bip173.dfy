/** Which of the strings that the bech32 decoder accepts are strings of BIP-173. */
module Bip173 {
  import opened Wrappers
  import opened Radix
  import opened Bech32Checksum
  import opened Bech32
  import Alphabet
  import Address

  const MAX_LENGTH: nat := 90

  predicate IsUpper(c: char) { 'A' <= c <= 'Z' }

  predicate IsLower(c: char) { 'a' <= c <= 'z' }

  predicate HasUpper(s: string) { exists i | 0 <= i < |s| :: IsUpper(s[i]) }

  predicate HasLower(s: string) { exists i | 0 <= i < |s| :: IsLower(s[i]) }

  predicate Printable(s: string) { forall i | 0 <= i < |s| :: '!' <= s[i] <= '~' }

  function UpperOf(c: char): char {
    if IsLower(c) then (c as int - 32) as char else c
  }

  function Upper(s: string): (r: string)
    ensures |r| == |s|
  {
    seq(|s|, i requires 0 <= i < |s| => UpperOf(s[i]))
  }

  /**
   `t` is what an encoder writes, and `s` that string in lower or in upper case
   throughout, within the standard's bounds.
   */
  ghost predicate StandardForm(s: string, w: Witness, t: string) {
    && w.hrp != "" && Written(t, w) && Lower(t) == t && (s == t || s == Upper(t))
    && |s| <= MAX_LENGTH && Printable(s)
  }

  ghost predicate IsStandard(s: string, w: Witness) {
    exists t :: StandardForm(s, w, t)
  }

  lemma LowerTwice(s: string)
    ensures Lower(Lower(s)) == Lower(s)
  {
  }

  lemma LowerHasNoUpper(t: string)
    requires Lower(t) == t
    ensures !HasUpper(t)
  {
    forall i | 0 <= i < |t| ensures !IsUpper(t[i]) {
      assert Lower(t)[i] == t[i];
    }
  }

  lemma UpperHasNoLower(t: string)
    ensures !HasLower(Upper(t))
  {
    forall i | 0 <= i < |t| ensures !IsLower(Upper(t)[i]) {
      assert Upper(t)[i] == UpperOf(t[i]);
    }
  }

  /** A string in one case is its lower-case form, or that form in upper case. */
  lemma OneCase(s: string)
    requires !(HasUpper(s) && HasLower(s))
    ensures s == Lower(s) || s == Upper(Lower(s))
  {
    if !HasUpper(s) {
      assert forall i | 0 <= i < |s| :: !IsUpper(s[i]);
      assert s == Lower(s);
    } else {
      assert forall i | 0 <= i < |s| :: !IsLower(s[i]);
      forall i | 0 <= i < |s| ensures Upper(Lower(s))[i] == s[i] {
        assert Upper(Lower(s))[i] == UpperOf(Lower(s)[i]);
      }
      assert s == Upper(Lower(s));
    }
  }

  lemma LowerOfUpper(t: string)
    requires Lower(t) == t
    ensures Lower(Upper(t)) == t
  {
    forall i | 0 <= i < |t| ensures Lower(Upper(t))[i] == t[i] {
      assert Lower(t)[i] == t[i] && Upper(t)[i] == UpperOf(t[i]);
    }
  }

  /**
   An ASCII string is a string of BIP-173 for a witness program if and only if
   the decoder accepts it for that program, it has at most 90 characters, all
   printable, and no letters of both cases. The decoder checks none of the latter.
   */
  lemma StandardExactly(fold: Folding, s: string, w: Witness)
    requires LowersAscii(fold) && Ascii(s)
    ensures IsStandard(s, w) <==>
            && Accepts(fold(s), w) && |s| <= MAX_LENGTH && Printable(s) && !(HasUpper(s) && HasLower(s))
  {
    assert fold(s) == Lower(s);
    if IsStandard(s, w) {
      var t :| StandardForm(s, w, t);
      LowerHasNoUpper(t);
      UpperHasNoLower(t);
      LowerOfUpper(t);
      EncodedIsAccepted(t, w);
    }
    if Accepts(Lower(s), w) && |s| <= MAX_LENGTH && Printable(s) && !(HasUpper(s) && HasLower(s)) {
      AcceptedIsEncoded(Lower(s), w);
      LowerTwice(s);
      OneCase(s);
      assert StandardForm(s, w, Lower(s));
    }
  }

  // ----- accepted strings that are not

  /** The shape of the string for a program under "bc". */
  lemma Shape(s: string, w: Witness)
    requires Written(s, w) && w.hrp == "bc"
    ensures "bc1" <= s && Ascii(s) && Lower(s) == s && 5 * (|s| - 10) >= 8 * |w.program| && Accepts(s, w)
  {
    EncodedIsAccepted(s, w);
    var symbols := Split(s).value.1;
    Address.WitnessString(s, symbols);
    assert Lower(s) == s;
    var groups := symbols[..|symbols| - 6][1..];
    var padding :| Regroups(groups, w.program, padding);
    BitsProduct(5, |groups|);
    BitsProduct(8, |w.program|);
  }

  /** Raise the first letter of the string for any program: it is decoded to that program all the same. */
  method MixedCaseDecodes(fold: Folding, program: Bytes) returns (s: string, r: Option<Witness>)
    requires LowersAscii(fold)
    ensures r == Some(Witness("bc", 0, program)) && HasUpper(s) && HasLower(s) && !IsStandard(s, r.value)
  {
    var t := Address.WitnessAddress(0, program);
    ghost var w := Witness("bc", 0, program);
    Shape(t, w);
    s := "B" + t[1..];
    Raised(fold, s, t);
    r := Decode(fold, s);
    StandardExactly(fold, s, w);
  }

  lemma Raised(fold: Folding, s: string, t: string)
    requires LowersAscii(fold) && "bc1" <= t && Ascii(t) && Lower(t) == t && s == "B" + t[1..]
    ensures Ascii(s) && fold(s) == t && HasUpper(s) && HasLower(s)
  {
    assert IsUpper(s[0]) && IsLower(s[1]);
    forall i | 0 <= i < |s| ensures s[i] <= '~' && Lower(s)[i] == t[i] {
      if i > 0 {
        assert s[i] == t[i] && Lower(t)[i] == t[i];
      }
    }
    assert Lower(s) == t;
  }

  /** The string for any program of more than 50 bytes is longer than the standard allows, and is decoded. */
  method LongDecodes(fold: Folding, program: Bytes) returns (s: string, r: Option<Witness>)
    requires LowersAscii(fold) && |program| > 50
    ensures r == Some(Witness("bc", 0, program)) && |s| > MAX_LENGTH && !IsStandard(s, r.value)
  {
    s := Address.WitnessAddress(0, program);
    ghost var w := Witness("bc", 0, program);
    Shape(s, w);
    r := Decode(fold, s);
    StandardExactly(fold, s, w);
  }

  /** The checksum of version 0 is that of BIP-173, and of any other version that of BIP-350. */
  lemma {:induction false} ChecksumByVersion(s: string, w: Witness)
    requires Accepts(s, w)
    ensures var symbols := Split(s).value.1;
            && s == w.hrp + "1" + Alphabet.Chars(BECH32_CHARSET, symbols) && symbols[0] == w.version
            && Fold(1, Expand(w.hrp) + symbols) == if w.version == 0 then 1 else 0x2bc830a3
  {
  }
}
