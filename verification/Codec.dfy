/** Decoders of UTXO and delta records, against the encoders their formats describe. */
module Codec {
  import opened Wrappers
  import opened Arithmetic

  datatype DecodeError = UnexpectedEnd | VarIntTooLarge

  datatype Utxo = Utxo(txid: Bytes, vout: nat, amount: nat)

  datatype SpentRef = SpentRef(txid: Bytes, vout: nat)

  datatype Delta = Delta(spent: seq<SpentRef>, newUtxos: seq<Utxo>)

  // ----- varints

  /** Little-endian base 128, the top bit set on all bytes but the last. */
  function Leb(v: nat): Bytes {
    if v < 128 then [v] else [v % 128 + 128] + Leb(v / 128)
  }

  /** A varint's value and length, `k` bytes of it having been read; an eleventh byte is refused. */
  function Varint(data: Bytes, offset: nat, k: nat): Result<(nat, nat), DecodeError>
    decreases |data| - offset
  {
    if offset >= |data| then Err(UnexpectedEnd)
    else if data[offset] < 128 then Ok((data[offset], 1))
    else if 7 * (k + 1) >= 64 then Err(VarIntTooLarge)
    else
      match Varint(data, offset + 1, k + 1)
      case Err(e) => Err(e)
      case Ok((v, n)) => Ok((data[offset] - 128 + 128 * v, n + 1))
  }

  /** The rest of a varint placed above the bits already read. */
  function Above(result: nat, k: nat, rest: Result<(nat, nat), DecodeError>): Result<(nat, nat), DecodeError> {
    match rest
    case Err(e) => Err(e)
    case Ok((v, n)) => Ok((result + Shl(v, 7 * k), k + n))
  }

  lemma AboveStep(result: nat, k: nat, low: nat, rest: Result<(nat, nat), DecodeError>)
    ensures Above(result + Shl(low, 7 * k), k + 1, rest)
         == Above(result, k, match rest case Err(e) => Err(e) case Ok((v, n)) => Ok((low + 128 * v, n + 1)))
  {
    if rest.Ok? {
      var v := rest.value.0;
      assert Pow2(7) == 128;
      ShlProduct(v, 7);
      StackShift(low, v, 7, 7 * k);
      assert 7 + 7 * k == 7 * (k + 1);
    }
  }

  /** The varint at `offset` is `result` and, above it, what stands after its first `k` bytes. */
  ghost predicate Reading(data: Bytes, offset: nat, result: nat, k: nat) {
    Varint(data, offset, 0) == Above(result, k, Varint(data, offset + k, k))
  }

  lemma ReadStep(data: Bytes, offset: nat, result: nat, k: nat, shift: nat, next: nat)
    requires Reading(data, offset, result, k) && offset + k < |data| && shift == 7 * k
    requires next == result + Shl(data[offset + k] % 128, shift)
    ensures data[offset + k] < 128 ==> Varint(data, offset, 0) == Ok((next, k + 1))
    ensures data[offset + k] >= 128 && shift + 7 >= 64 ==> Varint(data, offset, 0) == Err(VarIntTooLarge)
    ensures data[offset + k] >= 128 && shift + 7 < 64 ==> Reading(data, offset, next, k + 1)
  {
    if data[offset + k] >= 128 && shift + 7 < 64 {
      AboveStep(result, k, data[offset + k] - 128, Varint(data, offset + k + 1, k + 1));
    }
  }

  /** Accumulates seven bits per byte; `result` stays below `2^shift`, so adding a byte's bits is the bitwise or. */
  method ReadVarint(data: Bytes, offset: nat) returns (r: Result<(nat, nat), DecodeError>)
    ensures r == Varint(data, offset, 0)
  {
    var result: nat, shift: nat, bytesRead: nat := 0, 0, 0;
    assert Reading(data, offset, 0, 0) by {
      StartsReading(data, offset);
    }
    while true
      invariant shift == 7 * bytesRead < 64 && result < Pow2(shift)
      invariant Reading(data, offset, result, bytesRead)
      decreases 64 - shift
    {
      if offset + bytesRead >= |data| {
        return Err(UnexpectedEnd);
      }
      var byte := data[offset + bytesRead];
      var next: nat := result + Shl(byte % 128, shift);
      ReadStep(data, offset, result, bytesRead, shift, next);
      LowBits(result, byte % 128, shift);
      bytesRead, result := bytesRead + 1, next;
      if byte < 128 {
        return Ok((result, bytesRead));
      }
      shift := shift + 7;
      if shift >= 64 {
        return Err(VarIntTooLarge);
      }
    }
  }

  lemma StartsReading(data: Bytes, offset: nat)
    ensures Reading(data, offset, 0, 0)
  {
    var v := Varint(data, offset, 0);
    if v.Ok? {
      assert Shl(v.value.0, 0) == v.value.0;
    }
  }

  lemma LowBits(result: nat, low: nat, shift: nat)
    requires result < Pow2(shift) && low < 128
    ensures result + Shl(low, shift) < Pow2(shift + 7)
  {
    assert Pow2(7) == 128;
    StackBound(result, shift, low, 7);
  }

  /** Reading back a written varint, wherever it stands, as long as it fits ten bytes. */
  lemma {:induction false} VarintRoundTrip(data: Bytes, pos: nat, v: nat, k: nat)
    requires k < 10 && v < Pow2(7 * (10 - k)) && At(data, pos, Leb(v))
    ensures Varint(data, pos, k) == Ok((v, |Leb(v)|))
    decreases v
  {
    assert data[pos] == data[pos..pos + |Leb(v)|][0] == Leb(v)[0];
    if v >= 128 {
      assert Pow2(7) == 128;
      Pow2Add(7 * (9 - k), 7);
      AtSplit(data, pos, [v % 128 + 128], Leb(v / 128));
      assert k < 9;
      VarintRoundTrip(data, pos + 1, v / 128, k + 1);
    }
  }

  const VARINT_LIMIT: nat := 0x40_0000_0000_0000_0000

  lemma VarintLimit()
    ensures Pow2(70) == VARINT_LIMIT
  {
    assert Pow2(7) == 0x80;
    Pow2Double(7, 0x80);
    Pow2Double(14, 0x4000);
    Pow2Add(28, 7);
    Pow2Double(35, 0x8_0000_0000);
  }

  lemma ReadsBack(data: Bytes, pos: nat, v: nat)
    requires v < VARINT_LIMIT && At(data, pos, Leb(v))
    ensures ReadsNumber(data, pos, v, |Leb(v)|)
  {
    VarintLimit();
    VarintRoundTrip(data, pos, v, 0);
  }

  // ----- numbers

  /** Halvings until a value has at most 53 bits. */
  function Excess(v: nat): nat {
    if v < 0x20_0000_0000_0000 then 0 else 1 + Excess(v / 2)
  }

  /** `Number(v)`: exact up to 53 bits, rounded to the nearest even double above. */
  function ToNumber(v: nat): nat {
    var unit := Pow2(Excess(v));
    var q, rest := v / unit, v % unit;
    if 2 * rest > unit || (2 * rest == unit && unit > 1 && q % 2 == 1) then (q + 1) * unit else q * unit
  }

  lemma NumberExact(v: nat)
    requires v < 0x20_0000_0000_0000
    ensures ToNumber(v) == v
  {
  }

  // ----- records

  function EncodeSpent(s: SpentRef): Bytes { s.txid + Leb(s.vout) }

  function EncodeUtxo(u: Utxo): Bytes { u.txid + Leb(u.vout) + Leb(u.amount) }

  function EncodeSpents(ss: seq<SpentRef>): Bytes {
    if ss == [] then [] else EncodeSpent(ss[0]) + EncodeSpents(ss[1..])
  }

  function EncodeUtxos(us: seq<Utxo>): Bytes {
    if us == [] then [] else EncodeUtxo(us[0]) + EncodeUtxos(us[1..])
  }

  /** A count, then the spent outpoints; a count, then the new outputs. */
  function EncodeDelta(d: Delta): Bytes {
    Leb(|d.spent|) + EncodeSpents(d.spent) + Leb(|d.newUtxos|) + EncodeUtxos(d.newUtxos)
  }

  function EncodeUtxoData(us: seq<Utxo>): Bytes { Leb(|us|) + EncodeUtxos(us) }

  /** What the chain guarantees of an outpoint: a 32-byte txid and an output index that a double holds. */
  predicate Encodable(txid: Bytes, vout: nat) { |txid| == 32 && vout < 0x20_0000_0000_0000 }

  predicate SpentEncodable(ss: seq<SpentRef>) {
    forall i | 0 <= i < |ss| :: Encodable(ss[i].txid, ss[i].vout)
  }

  predicate UtxosEncodable(us: seq<Utxo>) {
    forall i | 0 <= i < |us| :: Encodable(us[i].txid, us[i].vout) && us[i].amount < VARINT_LIMIT
  }

  /** One spent outpoint and where it ends. */
  function OneSpent(data: Bytes, pos: nat): Result<(SpentRef, nat), DecodeError>
    requires pos + 32 <= |data|
  {
    match Varint(data, pos + 32, 0)
    case Err(e) => Err(e)
    case Ok((vout, vr)) => Ok((SpentRef(data[pos..pos + 32], ToNumber(vout)), pos + 32 + vr))
  }

  /** One output and where it ends. */
  function OneUtxo(data: Bytes, pos: nat): Result<(Utxo, nat), DecodeError>
    requires pos + 32 <= |data|
  {
    match Varint(data, pos + 32, 0)
    case Err(e) => Err(e)
    case Ok((vout, vr)) =>
      match Varint(data, pos + 32 + vr, 0)
      case Err(e) => Err(e)
      case Ok((amount, ar)) => Ok((Utxo(data[pos..pos + 32], ToNumber(vout), amount), pos + 32 + vr + ar))
  }

  /** Up to `n` spent outpoints from `pos`; a missing txid ends the list, a broken varint fails. */
  function Spents(data: Bytes, pos: nat, n: nat): Result<(seq<SpentRef>, nat), DecodeError>
    decreases n
  {
    if n == 0 || pos + 32 > |data| then Ok(([], pos))
    else
      match OneSpent(data, pos)
      case Err(e) => Err(e)
      case Ok((s, next)) => Prepend([s], Spents(data, next, n - 1))
  }

  function Utxos(data: Bytes, pos: nat, n: nat): Result<(seq<Utxo>, nat), DecodeError>
    decreases n
  {
    if n == 0 || pos + 32 > |data| then Ok(([], pos))
    else
      match OneUtxo(data, pos)
      case Err(e) => Err(e)
      case Ok((u, next)) => Prepend([u], Utxos(data, next, n - 1))
  }

  function TotalSats(us: seq<Utxo>): nat {
    if us == [] then 0 else TotalSats(us[..|us| - 1]) + us[|us| - 1].amount
  }

  /** The loop over spent outpoints. */
  method ReadSpents(data: Bytes, start: nat, n: nat) returns (r: Result<(seq<SpentRef>, nat), DecodeError>)
    ensures r == Spents(data, start, n)
  {
    var pos: nat, spent: seq<SpentRef> := start, [];
    PrependNothing(Spents(data, start, n));
    for i := 0 to n
      invariant Spents(data, start, n) == Prepend(spent, Spents(data, pos, n - i))
    {
      if pos + 32 > |data| {
        break;
      }
      var v := ReadVarint(data, pos + 32);
      if v.Err? {
        return Err(v.error);
      }
      var s := SpentRef(data[pos..pos + 32], ToNumber(v.value.0));
      PrependOne(spent, s, Spents(data, pos + 32 + v.value.1, n - i - 1));
      spent, pos := spent + [s], pos + 32 + v.value.1;
    }
    assert spent + [] == spent;
    return Ok((spent, pos));
  }

  /** The body of the loop over outputs. */
  method ReadUtxo(data: Bytes, pos: nat) returns (r: Result<(Utxo, nat), DecodeError>)
    requires pos + 32 <= |data|
    ensures r == OneUtxo(data, pos)
  {
    var v := ReadVarint(data, pos + 32);
    if v.Err? {
      return Err(v.error);
    }
    var a := ReadVarint(data, pos + 32 + v.value.1);
    if a.Err? {
      return Err(a.error);
    }
    return Ok((Utxo(data[pos..pos + 32], ToNumber(v.value.0), a.value.0), pos + 32 + v.value.1 + a.value.1));
  }

  /** The loop over outputs. */
  method ReadUtxos(data: Bytes, start: nat, n: nat) returns (r: Result<(seq<Utxo>, nat), DecodeError>, total: nat)
    ensures r == Utxos(data, start, n)
    ensures r.Ok? ==> total == TotalSats(r.value.0)
  {
    var pos: nat, entries: seq<Utxo> := start, [];
    total := 0;
    PrependNothing(Utxos(data, start, n));
    for i := 0 to n
      invariant Utxos(data, start, n) == Prepend(entries, Utxos(data, pos, n - i))
      invariant total == TotalSats(entries)
    {
      if pos + 32 > |data| {
        break;
      }
      var one := ReadUtxo(data, pos);
      if one.Err? {
        return Err(one.error), total;
      }
      var u := one.value.0;
      PrependOne(entries, u, Utxos(data, one.value.1, n - i - 1));
      assert (entries + [u])[..|entries|] == entries;
      entries, total, pos := entries + [u], total + u.amount, one.value.1;
    }
    assert entries + [] == entries;
    return Ok((entries, pos)), total;
  }

  function Prepend<T>(xs: seq<T>, r: Result<(seq<T>, nat), DecodeError>): Result<(seq<T>, nat), DecodeError> {
    match r
    case Err(e) => Err(e)
    case Ok((ys, end)) => Ok((xs + ys, end))
  }

  lemma PrependNothing<T>(r: Result<(seq<T>, nat), DecodeError>)
    ensures Prepend([], r) == r
  {
    if r.Ok? { assert [] + r.value.0 == r.value.0; }
  }

  lemma PrependOne<T>(xs: seq<T>, x: T, r: Result<(seq<T>, nat), DecodeError>)
    ensures Prepend(xs, Prepend([x], r)) == Prepend(xs + [x], r)
  {
    if r.Ok? { assert xs + ([x] + r.value.0) == (xs + [x]) + r.value.0; }
  }

  function DecodedDelta(data: Bytes): Result<Delta, DecodeError> {
    match Varint(data, 0, 0)
    case Err(e) => Err(e)
    case Ok((numSpent, n0)) =>
      match Spents(data, n0, numSpent)
      case Err(e) => Err(e)
      case Ok((spent, p1)) =>
        match Varint(data, p1, 0)
        case Err(e) => Err(e)
        case Ok((numNew, n1)) =>
          match Utxos(data, p1 + n1, numNew)
          case Err(e) => Err(e)
          case Ok((utxos, _)) => Ok(Delta(spent, utxos))
  }

  method DecodeDeltaData(data: Bytes) returns (r: Result<Delta, DecodeError>)
    ensures r == DecodedDelta(data)
  {
    var count := ReadVarint(data, 0);
    if count.Err? {
      return Err(count.error);
    }
    var spent := ReadSpents(data, count.value.1, count.value.0);
    if spent.Err? {
      return Err(spent.error);
    }
    var count' := ReadVarint(data, spent.value.1);
    if count'.Err? {
      return Err(count'.error);
    }
    var utxos, _ := ReadUtxos(data, spent.value.1 + count'.value.1, count'.value.0);
    if utxos.Err? {
      return Err(utxos.error);
    }
    return Ok(Delta(spent.value.0, utxos.value.0));
  }

  function DecodedUtxos(data: Bytes): Result<seq<Utxo>, DecodeError> {
    match Varint(data, 0, 0)
    case Err(e) => Err(e)
    case Ok((n, n0)) =>
      match Utxos(data, n0, n)
      case Err(e) => Err(e)
      case Ok((utxos, _)) => Ok(utxos)
  }

  method DecodeUtxoData(data: Bytes) returns (r: Result<seq<Utxo>, DecodeError>, total: nat)
    ensures r == DecodedUtxos(data)
    ensures r.Ok? ==> total == TotalSats(r.value)
  {
    total := 0;
    var count := ReadVarint(data, 0);
    if count.Err? {
      return Err(count.error), total;
    }
    var utxos;
    utxos, total := ReadUtxos(data, count.value.1, count.value.0);
    if utxos.Err? {
      return Err(utxos.error), total;
    }
    return Ok(utxos.value.0), total;
  }

  // ----- round trips, with any padding behind the record

  lemma SpentRoundTrip(data: Bytes, pos: nat, s: SpentRef)
    requires Encodable(s.txid, s.vout) && At(data, pos, EncodeSpent(s))
    ensures pos + 32 <= |data| && OneSpent(data, pos) == Ok((s, pos + |EncodeSpent(s)|))
  {
    AtSplit(data, pos, s.txid, Leb(s.vout));
    ReadsBack(data, pos + 32, s.vout);
    NumberExact(s.vout);
  }

  lemma UtxoRoundTrip(data: Bytes, pos: nat, u: Utxo)
    requires Encodable(u.txid, u.vout) && u.amount < VARINT_LIMIT && At(data, pos, EncodeUtxo(u))
    ensures pos + 32 <= |data| && OneUtxo(data, pos) == Ok((u, pos + |EncodeUtxo(u)|))
  {
    AtSplit(data, pos, u.txid + Leb(u.vout), Leb(u.amount));
    AtSplit(data, pos, u.txid, Leb(u.vout));
    ReadsBack(data, pos + 32, u.vout);
    ReadsBack(data, pos + 32 + |Leb(u.vout)|, u.amount);
    NumberExact(u.vout);
  }

  /** The next `|ss|` spent outpoints from `pos` are `ss`, up to `end`. */
  predicate ReadsSpents(data: Bytes, pos: nat, ss: seq<SpentRef>, end: nat) {
    Spents(data, pos, |ss|) == Ok((ss, end))
  }

  predicate ReadsUtxos(data: Bytes, pos: nat, us: seq<Utxo>, end: nat) {
    Utxos(data, pos, |us|) == Ok((us, end))
  }

  predicate ReadsNumber(data: Bytes, pos: nat, v: nat, length: nat) {
    Varint(data, pos, 0) == Ok((v, length))
  }

  lemma SpentsCons(data: Bytes, pos: nat, ss: seq<SpentRef>, next: nat, end: nat)
    requires ss != [] && pos + 32 <= |data|
    requires OneSpent(data, pos) == Ok((ss[0], next)) && ReadsSpents(data, next, ss[1..], end)
    ensures ReadsSpents(data, pos, ss, end)
  {
    assert [ss[0]] + ss[1..] == ss;
  }

  lemma {:induction false} SpentsRoundTrip(data: Bytes, pos: nat, ss: seq<SpentRef>, end: nat)
    requires SpentEncodable(ss) && At(data, pos, EncodeSpents(ss)) && end == pos + |EncodeSpents(ss)|
    ensures ReadsSpents(data, pos, ss, end)
    decreases |ss|
  {
    if ss != [] {
      var next := pos + |EncodeSpent(ss[0])|;
      AtSplit(data, pos, EncodeSpent(ss[0]), EncodeSpents(ss[1..]));
      SpentRoundTrip(data, pos, ss[0]);
      assert next + |EncodeSpents(ss[1..])| == end;
      SpentsRoundTrip(data, next, ss[1..], end);
      SpentsCons(data, pos, ss, next, end);
    }
  }

  lemma UtxosCons(data: Bytes, pos: nat, us: seq<Utxo>, next: nat, end: nat)
    requires us != [] && pos + 32 <= |data|
    requires OneUtxo(data, pos) == Ok((us[0], next)) && ReadsUtxos(data, next, us[1..], end)
    ensures ReadsUtxos(data, pos, us, end)
  {
    assert [us[0]] + us[1..] == us;
  }

  lemma {:induction false} UtxosRoundTrip(data: Bytes, pos: nat, us: seq<Utxo>, end: nat)
    requires UtxosEncodable(us) && At(data, pos, EncodeUtxos(us)) && end == pos + |EncodeUtxos(us)|
    ensures ReadsUtxos(data, pos, us, end)
    decreases |us|
  {
    if us != [] {
      var next := pos + |EncodeUtxo(us[0])|;
      AtSplit(data, pos, EncodeUtxo(us[0]), EncodeUtxos(us[1..]));
      UtxoRoundTrip(data, pos, us[0]);
      assert next + |EncodeUtxos(us[1..])| == end;
      UtxosRoundTrip(data, next, us[1..], end);
      UtxosCons(data, pos, us, next, end);
    }
  }

  lemma AtStart(bytes: Bytes, padding: Bytes)
    ensures At(bytes + padding, 0, bytes)
  {
    assert (bytes + padding)[0..|bytes|] == bytes;
  }

  lemma Layout(data: Bytes, a: Bytes, b: Bytes, c: Bytes, e: Bytes)
    requires At(data, 0, a + b + c + e)
    ensures At(data, 0, a) && At(data, |a|, b) && At(data, |a| + |b|, c) && At(data, |a| + |b| + |c|, e)
  {
    AtSplit(data, 0, a + b + c, e);
    AtSplit(data, 0, a + b, c);
    AtSplit(data, 0, a, b);
  }

  /** A delta record decodes to the delta it encodes, whatever padding follows it. */
  lemma DeltaRoundTrip(d: Delta, padding: Bytes)
    requires SpentEncodable(d.spent) && UtxosEncodable(d.newUtxos)
    requires |d.spent| < VARINT_LIMIT && |d.newUtxos| < VARINT_LIMIT
    ensures DecodedDelta(EncodeDelta(d) + padding) == Ok(d)
  {
    var a, b, c, e := Leb(|d.spent|), EncodeSpents(d.spent), Leb(|d.newUtxos|), EncodeUtxos(d.newUtxos);
    var data, p1 := EncodeDelta(d) + padding, |a| + |b|;
    var p2, end := p1 + |c|, p1 + |c| + |e|;
    AtStart(EncodeDelta(d), padding);
    Layout(data, a, b, c, e);
    ReadsBack(data, 0, |d.spent|);
    SpentsRoundTrip(data, |a|, d.spent, p1);
    ReadsBack(data, p1, |d.newUtxos|);
    UtxosRoundTrip(data, p2, d.newUtxos, end);
    DeltaParts(data, d, |a|, p1, |c|, p2, end);
  }

  lemma DeltaParts(data: Bytes, d: Delta, n0: nat, p1: nat, n1: nat, p2: nat, end: nat)
    requires ReadsNumber(data, 0, |d.spent|, n0) && ReadsSpents(data, n0, d.spent, p1)
    requires ReadsNumber(data, p1, |d.newUtxos|, n1) && p2 == p1 + n1 && ReadsUtxos(data, p2, d.newUtxos, end)
    ensures DecodedDelta(data) == Ok(d)
  {
  }

  /** A UTXO record decodes to the list it encodes, whatever padding follows it. */
  lemma UtxoDataRoundTrip(us: seq<Utxo>, padding: Bytes)
    requires UtxosEncodable(us) && |us| < VARINT_LIMIT
    ensures DecodedUtxos(EncodeUtxoData(us) + padding) == Ok(us)
  {
    var a, b, data := Leb(|us|), EncodeUtxos(us), EncodeUtxoData(us) + padding;
    AtStart(EncodeUtxoData(us), padding);
    AtSplit(data, 0, a, b);
    ReadsBack(data, 0, |us|);
    UtxosRoundTrip(data, |a|, us, |a| + |b|);
  }
}
