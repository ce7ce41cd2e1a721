/** What the checksum is for: a mistyped character in an address does not go unnoticed. */
module Bech32Typos {
  import opened Horner
  import opened Alphabet
  import opened Bech32Checksum
  import opened Bech32Field
  import opened Bech32

  /** The two strings differ in one character and no other. */
  ghost predicate OneTypo(s: string, t: string, i: nat) {
    i < |s| == |t| && s[i] != t[i] && forall k | 0 <= k < |s| && k != i :: s[k] == t[k]
  }

  lemma ExpandDigital(hrp: string, symbols: seq<nat>)
    requires Ascii(hrp) && Digital(symbols, 32)
    ensures Digital(Expand(hrp) + symbols, 32)
  {
  }

  /** In strings of one prefix, over an alphabet without repeats, the digits differ where the strings do. */
  lemma {:induction false} TypoInDigits(s: string, t: string, i: nat, prefix: string, alphabet: string, a: seq<nat>,
                                        b: seq<nat>)
    requires Distinct(alphabet) && Digital(a, |alphabet|) && Digital(b, |alphabet|)
    requires s == prefix + Chars(alphabet, a) && t == prefix + Chars(alphabet, b) && OneTypo(s, t, i)
    ensures i >= |prefix| && DifferAt(a, b, i - |prefix|)
  {
    var skip := |prefix|;
    assert forall k | 0 <= k < skip :: s[k] == t[k] == prefix[k];
    forall k | 0 <= k < |a| ensures a[k] == b[k] <==> s[skip + k] == t[skip + k] {
      assert s[skip + k] == alphabet[a[k]] && t[skip + k] == alphabet[b[k]];
    }
  }

  lemma ChecksumsDiffer(hrp: string, a: seq<nat>, b: seq<nat>, k: nat)
    requires Ascii(hrp) && Digital(a, 32) && Digital(b, 32) && DifferAt(a, b, k)
    ensures Fold(1, Expand(hrp) + a) != Fold(1, Expand(hrp) + b)
  {
    var prefix := Expand(hrp);
    ExpandDigital(hrp, a);
    ExpandDigital(hrp, b);
    assert DifferAt(prefix + a, prefix + b, |prefix| + k);
    WrongSymbolNoticed(prefix + a, prefix + b, |prefix| + k);
  }

  lemma {:induction false} TypoInSymbols(s: string, t: string, i: nat, hrp: string, a: seq<nat>, b: seq<nat>)
    requires Spelled(s, hrp, a) && Spelled(t, hrp, b) && Ascii(hrp) && OneTypo(s, t, i)
    ensures i > |hrp| && DifferAt(a, b, i - |hrp| - 1)
    ensures Fold(1, Expand(hrp) + a) != Fold(1, Expand(hrp) + b)
  {
    Charset();
    TypoInDigits(s, t, i, hrp + "1", BECH32_CHARSET, a, b);
    ChecksumsDiffer(hrp, a, b, i - |hrp| - 1);
  }

  /**
   Of two strings with one ASCII prefix that differ in one character, the
   decoder accepts both only if it is the version that differs, and the two
   versions ask for different checksums.
   */
  lemma {:induction false} TypoNoticed(s: string, t: string, i: nat, v: Witness, w: Witness)
    requires Accepts(s, v) && Accepts(t, w) && v.hrp == w.hrp && Ascii(v.hrp) && OneTypo(s, t, i)
    ensures i == |v.hrp| + 1 && (v.version == 0 <==> w.version != 0)
  {
    var a, b := Split(s).value.1, Split(t).value.1;
    TypoInSymbols(s, t, i, v.hrp, a, b);
    assert a[0] == v.version && b[0] == w.version;
  }
}
