/** Bitcoin addresses: decoding the address of a script gives the script back. */
module Address {
  import opened Wrappers
  import opened Arithmetic
  import opened Horner
  import opened Alphabet
  import opened Hex
  import opened BitRegroup
  import opened Base58
  import Bech32

  /** The hash function, of 32-byte digests. */
  type Sha = Bytes -> Bytes

  ghost predicate Digests(sha: Sha) {
    forall x :: |sha(x)| == 32
  }

  // ----- Base58Check

  /** A payload and the first four bytes of its double hash. */
  function Checked(sha: Sha, payload: Bytes): Bytes
    requires Digests(sha)
  {
    payload + sha(sha(payload))[..4]
  }

  method Base58Check(sha: Sha, payload: Bytes) returns (s: string)
    requires Digests(sha)
    ensures s == Encoded(Checked(sha, payload))
  {
    var hash1 := sha(payload);
    var hash2 := sha(hash1);
    s := Base58.Encode(payload + hash2[..4]);
  }

  function CheckDecoded(sha: Sha, s: string): Option<Bytes>
    requires Digests(sha)
  {
    var raw := Decoded(s);
    if raw.None? || |raw.value| < 5 then None
    else
      var payload := raw.value[..|raw.value| - 4];
      if raw.value == Checked(sha, payload) then Some(payload) else None
  }

  method Base58CheckDecode(sha: Sha, s: string) returns (r: Option<Bytes>)
    requires Digests(sha)
    ensures r == CheckDecoded(sha, s)
  {
    var raw := Base58.Decode(s);
    if raw.None? || |raw.value| < 5 {
      return None;
    }
    var n := |raw.value| - 4;
    var payload, checksum := raw.value[..n], raw.value[n..];
    var hash1 := sha(payload);
    var hash2 := sha(hash1);
    assert raw.value == payload + checksum;
    SameTail(payload, checksum, hash2[..4]);
    var ok := SameFour(hash2, checksum);
    return if ok then Some(payload) else None;
  }

  method SameFour(a: Bytes, b: Bytes) returns (ok: bool)
    requires |a| >= 4 && |b| == 4
    ensures ok <==> b == a[..4]
  {
    for i := 0 to 4
      invariant forall j | 0 <= j < i :: a[j] == b[j]
    {
      if a[i] != b[i] {
        assert b[i] != a[..4][i];
        return false;
      }
    }
    assert b == a[..4];
    return true;
  }

  lemma SameTail(payload: Bytes, a: Bytes, b: Bytes)
    ensures payload + a == payload + b <==> a == b
  {
    assert (payload + a)[|payload|..] == a && (payload + b)[|payload|..] == b;
  }

  /** Every payload but the empty one survives. */
  lemma CheckRoundTrip(sha: Sha, payload: Bytes)
    requires Digests(sha)
    ensures CheckDecoded(sha, Encoded(Checked(sha, payload))) == Some(payload) <==> payload != []
  {
    Base58RoundTrip(Checked(sha, payload));
    assert Checked(sha, payload)[..|payload|] == payload;
  }

  // ----- script templates

  datatype Kind = P2pkh | P2sh | P2wpkh | P2wsh | P2tr

  function Size(kind: Kind): nat {
    match kind
    case P2pkh => 20
    case P2sh => 20
    case P2wpkh => 20
    case P2wsh => 32
    case P2tr => 32
  }

  function Prefix(kind: Kind): string {
    match kind
    case P2pkh => "76a914"
    case P2sh => "a914"
    case P2wpkh => "0014"
    case P2wsh => "0020"
    case P2tr => "5120"
  }

  function Suffix(kind: Kind): string {
    match kind
    case P2pkh => "88ac"
    case P2sh => "87"
    case _ => ""
  }

  /** The script of a kind that pays to a hash. */
  function ScriptFor(kind: Kind, hash: Bytes): string {
    Prefix(kind) + BytesToHex(hash) + Suffix(kind)
  }

  /** A script has the shape of a kind. */
  predicate HasShape(spk: string, kind: Kind) {
    && |spk| == |Prefix(kind)| + 2 * Size(kind) + |Suffix(kind)|
    && Prefix(kind) <= spk && spk[|spk| - |Suffix(kind)|..] == Suffix(kind)
  }

  /** The hash in a script of that shape. */
  function HashIn(spk: string, kind: Kind): Bytes
    requires HasShape(spk, kind)
  {
    Pairs(spk[|Prefix(kind)|..|spk| - |Suffix(kind)|])
  }

  /** A script has at most one shape. */
  lemma OneShape(spk: string, a: Kind, b: Kind)
    requires HasShape(spk, a) && HasShape(spk, b)
    ensures a == b
  {
    assert spk[0] == Prefix(a)[0] == Prefix(b)[0];
  }

  lemma ScriptShape(kind: Kind, hash: Bytes)
    requires |hash| == Size(kind)
    ensures HasShape(ScriptFor(kind, hash), kind) && HashIn(ScriptFor(kind, hash), kind) == hash
  {
    var spk := ScriptFor(kind, hash);
    assert spk[|Prefix(kind)|..|spk| - |Suffix(kind)|] == BytesToHex(hash);
    HexRoundTrip(hash);
  }

  // ----- script to address

  predicate IsWitness(kind: Kind) { kind.P2wpkh? || kind.P2wsh? || kind.P2tr? }

  function Version(kind: Kind): Byte {
    match kind
    case P2sh => 5
    case P2tr => 1
    case _ => 0
  }

  /** The address of a kind and hash: Base58Check of version and hash, or the program's string with prefix "bc". */
  ghost predicate IsAddressOf(sha: Sha, kind: Kind, hash: Bytes, address: string)
    requires Digests(sha)
  {
    if IsWitness(kind) then
      Bech32.Written(address, Bech32.Witness("bc", Version(kind), hash))
    else
      address == Encoded(Checked(sha, [Version(kind)] + hash))
  }

  method WitnessAddress(version: Byte, program: Bytes) returns (s: string)
    requires version < 32
    ensures Bech32.Written(s, Bech32.Witness("bc", version, program))
  {
    assert Pow2(5) == 32 && Pow2(8) == 256;
    var groups;
    ghost var padding;
    groups, padding := ConvertBits(program, 8, 5, true);
    assert Bech32.Regroups(groups, program, padding);
    assert ([version] + groups)[1..] == groups;
    s := Bech32.Encode("bc", [version] + groups, if version == 0 then Bech32.BECH32 else Bech32.BECH32M);
    assert Bech32.Spells([version] + groups, version, program);
  }

  method AddressFor(sha: Sha, kind: Kind, hash: Bytes) returns (s: string)
    requires Digests(sha)
    ensures IsAddressOf(sha, kind, hash, s)
  {
    if IsWitness(kind) {
      s := WitnessAddress(Version(kind), hash);
    } else {
      s := Base58Check(sha, [Version(kind)] + hash);
    }
  }

  /** A script of one of the five shapes gets the address of its kind and hash; any other gets none. */
  method ScriptPubKeyToAddress(sha: Sha, spk: string) returns (r: Option<string>)
    requires Digests(sha)
    ensures forall kind | HasShape(spk, kind) :: r.Some? && IsAddressOf(sha, kind, HashIn(spk, kind), r.value)
    ensures (forall kind :: !HasShape(spk, kind)) ==> r.None?
  {
    r := None;
    if |spk| == 50 && "76a914" <= spk && spk[46..] == "88ac" {
      r := AddressOfShape(sha, spk, P2pkh);
    } else if |spk| == 46 && "a914" <= spk && spk[44..] == "87" {
      r := AddressOfShape(sha, spk, P2sh);
    } else if |spk| == 44 && "0014" <= spk {
      r := AddressOfShape(sha, spk, P2wpkh);
    } else if |spk| == 68 && "0020" <= spk {
      r := AddressOfShape(sha, spk, P2wsh);
    } else if |spk| == 68 && "5120" <= spk {
      r := AddressOfShape(sha, spk, P2tr);
    }
  }

  method AddressOfShape(sha: Sha, spk: string, kind: Kind) returns (r: Option<string>)
    requires Digests(sha) && HasShape(spk, kind)
    ensures r.Some? && HasShape(spk, kind)
            && forall k | HasShape(spk, k) :: IsAddressOf(sha, k, HashIn(spk, k), r.value)
  {
    var hash := HexToBytes(spk[|Prefix(kind)|..|spk| - |Suffix(kind)|]);
    var s := AddressFor(sha, kind, hash.value);
    forall k | HasShape(spk, k) ensures k == kind {
      OneShape(spk, k, kind);
    }
    return Some(s);
  }

  // ----- address to script

  function Trim(s: string): string {
    if s != [] && IsSpace(s[0]) then Trim(s[1..])
    else if s != [] && IsSpace(s[|s| - 1]) then Trim(s[..|s| - 1])
    else s
  }

  /** The script of a decoded witness program, if it is of a known kind. */
  function ScriptOfWitness(w: Bech32.Witness): Option<string> {
    if w.hrp != "bc" then None
    else if w.version == 0 && |w.program| == 20 then Some("0014" + BytesToHex(w.program))
    else if w.version == 0 && |w.program| == 32 then Some("0020" + BytesToHex(w.program))
    else if w.version == 1 && |w.program| == 32 then Some("5120" + BytesToHex(w.program))
    else None
  }

  function ScriptOfPayload(payload: Option<Bytes>): Option<string> {
    if payload.None? || |payload.value| != 21 then None
    else if payload.value[0] == 0 then Some("76a914" + BytesToHex(payload.value[1..]) + "88ac")
    else if payload.value[0] == 5 then Some("a914" + BytesToHex(payload.value[1..]) + "87")
    else None
  }

  predicate LooksBech32(fold: Bech32.Folding, t: string) { "bc1" <= fold(t) }

  /** `r` is what a trimmed address decodes to. */
  ghost predicate DecodesTo(sha: Sha, fold: Bech32.Folding, t: string, r: Option<string>)
    requires Digests(sha)
  {
    if t == [] then r == None
    else if LooksBech32(fold, t) then
      && (forall w | Bech32.Accepts(fold(t), w) :: r == ScriptOfWitness(w))
      && ((forall w :: !Bech32.Accepts(fold(t), w)) ==> r == None)
    else r == ScriptOfPayload(CheckDecoded(sha, t))
  }

  method AddressToScriptPubKey(sha: Sha, fold: Bech32.Folding, address: string) returns (r: Option<string>)
    requires Digests(sha)
    ensures DecodesTo(sha, fold, Trim(address), r)
  {
    var trimmed := Trim(address);
    if trimmed == [] {
      return None;
    }
    if "bc1" <= fold(trimmed) {
      var decoded := Bech32.Decode(fold, trimmed);
      return if decoded.None? then None else ScriptOfWitness(decoded.value);
    }
    var payload := Base58CheckDecode(sha, trimmed);
    return ScriptOfPayload(payload);
  }

  // ----- the round trip

  /** Visible first and last characters. */
  ghost predicate Framed(s: string) {
    s != [] && '0' <= s[0] <= 'z' && '0' <= s[|s| - 1] <= 'z'
  }

  lemma TrimFramed(s: string)
    requires Framed(s)
    ensures Trim(s) == s
  {
  }

  lemma WitnessString(address: string, symbols: seq<nat>)
    requires Bech32.Spelled(address, "bc", symbols) && symbols != []
    ensures Framed(address) && "bc1" <= address && Bech32.Ascii(address)
    ensures forall i | 0 <= i < |address| :: !('A' <= address[i] <= 'Z')
  {
    Bech32.CharsetPlain();
    var chars := Chars(Bech32.BECH32_CHARSET, symbols);
    assert address == "bc1" + chars;
    forall i | 0 <= i < |address| ensures '0' <= address[i] <= 'z' && !('A' <= address[i] <= 'Z') {
      if i >= 3 {
        assert address[i] == chars[i - 3];
      }
    }
  }

  lemma WitnessScript(kind: Kind, hash: Bytes)
    requires IsWitness(kind) && |hash| == Size(kind)
    ensures ScriptOfWitness(Bech32.Witness("bc", Version(kind), hash)) == Some(ScriptFor(kind, hash))
  {
    assert ScriptFor(kind, hash) == Prefix(kind) + BytesToHex(hash);
  }

  lemma WitnessAccepted(sha: Sha, fold: Bech32.Folding, kind: Kind, hash: Bytes, address: string)
    requires Digests(sha) && Bech32.LowersAscii(fold) && IsWitness(kind) && IsAddressOf(sha, kind, hash, address)
    ensures Framed(address) && LooksBech32(fold, address) && fold(address) == address
    ensures Bech32.Accepts(address, Bech32.Witness("bc", Version(kind), hash))
  {
    var w := Bech32.Witness("bc", Version(kind), hash);
    Bech32.EncodedIsAccepted(address, w);
    WitnessString(address, Bech32.Split(address).value.1);
    Bech32.FoldedPlain(fold, address);
  }

  // ----- the first character of a Base58 address

  lemma PowersOf256()
    ensures Pow(256, 24) == 0x1_0000_0000_0000_0000_0000_0000_0000_0000_0000_0000_0000_0000
  {
    assert Pow(256, 3) == 0x100_0000;
    PowAdd(256, 3, 3);
    PowAdd(256, 6, 6);
    PowAdd(256, 12, 12);
  }

  lemma PowersOf58()
    ensures Pow(58, 33) == 15599970876632771988160814054146447252125923204784443097088
  {
    assert Pow(58, 4) == 11316496;
    PowAdd(58, 4, 4);
    PowAdd(58, 8, 8);
    PowAdd(58, 16, 16);
    PowAdd(58, 32, 1);
    assert Pow(58, 1) == 58;
  }

  /** A 25-byte number that starts with 5 lies between 2 and 3 times 58^33. */
  lemma VersionFive(data: Bytes)
    requires |data| == 25 && data[0] == 5
    ensures 2 * Pow(58, 33) <= Number(data, 256) < 3 * Pow(58, 33)
  {
    var rest := data[1..];
    assert data == [5] + rest;
    NumberCons(5, rest, 256);
    NumberBound(rest, 256);
    PowersOf256();
    PowersOf58();
  }

  /** Base58 text is made of its alphabet. */
  lemma EncodedPlain(data: Bytes)
    ensures forall i | 0 <= i < |Encoded(data)| :: '1' <= Encoded(data)[i] <= 'z'
  {
    BaseSize();
    Base58Distinct();
    var z, chars := Leading(data, 0), Chars(BASE58_CHARS, Digits(Number(data, 256), 58));
    forall i | 0 <= i < |Encoded(data)| ensures '1' <= Encoded(data)[i] <= 'z' {
      if i >= z {
        assert Encoded(data)[i] == chars[i - z];
      }
    }
  }

  /** Pay-to-key-hash addresses start with '1', pay-to-script-hash addresses with '3'. */
  lemma FirstCharacter(data: Bytes)
    requires |data| == 25 && (data[0] == 0 || data[0] == 5)
    ensures Encoded(data) != [] && Encoded(data)[0] == if data[0] == 0 then '1' else '3'
  {
    BaseSize();
    if data[0] == 5 {
      var v := Number(data, 256);
      VersionFive(data);
      FirstDigit(v, 2, 33, 58);
      assert Leading(data, 0) == 0;
      assert Encoded(data) == Chars(BASE58_CHARS, Digits(v, 58));
    } else {
      assert Leading(data, 0) > 0;
    }
  }

  lemma PayloadScript(kind: Kind, hash: Bytes)
    requires !IsWitness(kind) && |hash| == Size(kind)
    ensures ScriptOfPayload(Some([Version(kind)] + hash)) == Some(ScriptFor(kind, hash))
  {
    assert ([Version(kind)] + hash)[1..] == hash;
  }

  lemma PayloadAddress(sha: Sha, fold: Bech32.Folding, kind: Kind, hash: Bytes, address: string)
    requires Digests(sha) && Bech32.LowersAscii(fold)
    requires !IsWitness(kind) && |hash| == Size(kind) && IsAddressOf(sha, kind, hash, address)
    ensures Framed(address) && !LooksBech32(fold, address) && CheckDecoded(sha, address) == Some([Version(kind)] + hash)
  {
    var data := Checked(sha, [Version(kind)] + hash);
    FirstCharacter(data);
    EncodedPlain(data);
    Bech32.FoldedAt(fold, address, 0);
    CheckRoundTrip(sha, [Version(kind)] + hash);
  }

  /** Any result that decoding promises, for an address that encoding promises, is the script. */
  lemma AddressRoundTrip(sha: Sha, fold: Bech32.Folding, kind: Kind, hash: Bytes, address: string, r: Option<string>)
    requires Digests(sha) && Bech32.LowersAscii(fold) && |hash| == Size(kind) && IsAddressOf(sha, kind, hash, address)
    requires DecodesTo(sha, fold, Trim(address), r)
    ensures r == Some(ScriptFor(kind, hash))
  {
    if IsWitness(kind) {
      WitnessAccepted(sha, fold, kind, hash, address);
      WitnessScript(kind, hash);
    } else {
      PayloadAddress(sha, fold, kind, hash, address);
      PayloadScript(kind, hash);
    }
    TrimFramed(address);
  }

  /** Every script of the five kinds has an address, and decoding that address returns the same script. */
  method ThereAndBack(sha: Sha, fold: Bech32.Folding, kind: Kind, hash: Bytes)
    returns (address: Option<string>, script: Option<string>)
    requires Digests(sha) && Bech32.LowersAscii(fold) && |hash| == Size(kind)
    ensures address.Some? && script == Some(ScriptFor(kind, hash))
  {
    ScriptShape(kind, hash);
    address := ScriptPubKeyToAddress(sha, ScriptFor(kind, hash));
    script := AddressToScriptPubKey(sha, fold, address.value);
    AddressRoundTrip(sha, fold, kind, hash, address.value, script);
  }

  ghost predicate Blank(s: string) {
    forall i | 0 <= i < |s| :: IsSpace(s[i])
  }

  /** Trimming takes away the blanks in front and behind, and nothing else. */
  lemma {:induction false} TrimBlanks(a: string, s: string, b: string)
    requires Blank(a) && Blank(b) && Framed(s)
    ensures Trim(a + s + b) == s
    decreases |a| + |b|
  {
    var t := a + s + b;
    if a != [] {
      assert t[1..] == a[1..] + s + b && t[0] == a[0];
      TrimBlanks(a[1..], s, b);
    } else if b != [] {
      var n := |b| - 1;
      assert t[0] == s[0] && t[|t| - 1] == b[n] && t[..|t| - 1] == a + s + b[..n];
      TrimBlanks(a, s, b[..n]);
    } else {
      assert t == s;
      TrimFramed(s);
    }
  }
}
