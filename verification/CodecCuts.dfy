/** What the decoders make of data that ends too early: which cuts are an error, and which go unnoticed. */
module CodecCuts {
  import opened Wrappers
  import opened Arithmetic
  import opened Codec

  // ----- varints

  /** `n` bytes from `pos` on, all of them with the top bit set. */
  ghost predicate Continued(data: Bytes, pos: nat, n: nat) {
    pos + n <= |data| && forall i | pos <= i < pos + n :: data[i] >= 128
  }

  /** The first byte without it is the `n`-th. */
  ghost predicate EndsAfter(data: Bytes, pos: nat, n: nat) {
    Continued(data, pos, n) && pos + n < |data| && data[pos + n] < 128
  }

  ghost predicate EndsWithin(data: Bytes, pos: nat, m: nat) {
    exists n: nat | n < m :: EndsAfter(data, pos, n)
  }

  lemma EndsNext(data: Bytes, pos: nat, m: nat)
    requires pos < |data|
    ensures EndsWithin(data, pos, m + 1) <==> data[pos] < 128 || EndsWithin(data, pos + 1, m)
    ensures Continued(data, pos, m + 1) <==> data[pos] >= 128 && Continued(data, pos + 1, m)
  {
    if data[pos] < 128 {
      assert EndsAfter(data, pos, 0);
    } else if EndsWithin(data, pos + 1, m) {
      var n: nat :| n < m && EndsAfter(data, pos + 1, n);
      assert EndsAfter(data, pos, n + 1);
    } else if EndsWithin(data, pos, m + 1) {
      var n: nat :| n < m + 1 && EndsAfter(data, pos, n);
      assert EndsAfter(data, pos + 1, n - 1);
    }
  }

  lemma {:induction false} VarintAfter(data: Bytes, pos: nat, k: nat)
    requires k < 10
    ensures Varint(data, pos, k).Ok? <==> EndsWithin(data, pos, 10 - k)
    ensures Varint(data, pos, k) == Err(VarIntTooLarge) <==> Continued(data, pos, 10 - k)
    decreases 10 - k
  {
    if pos < |data| {
      EndsNext(data, pos, 9 - k);
      if k < 9 {
        VarintAfter(data, pos + 1, k + 1);
      }
    }
  }

  /** A varint is read if it ends within ten bytes; otherwise it is too large, or the data ends first. */
  lemma VarintExactly(data: Bytes, pos: nat)
    ensures Varint(data, pos, 0).Ok? <==> EndsWithin(data, pos, 10)
    ensures Varint(data, pos, 0) == Err(VarIntTooLarge) <==> Continued(data, pos, 10)
    ensures Varint(data, pos, 0) == Err(UnexpectedEnd) <==>
            |data| < pos + 10 && (pos <= |data| ==> Continued(data, pos, |data| - pos))
  {
    var v := Varint(data, pos, 0);
    VarintAfter(data, pos, 0);
    assert v.Err? ==> v.error == VarIntTooLarge || v.error == UnexpectedEnd;
    var end := if pos + 10 <= |data| then pos + 10 else |data|;
    if pos < end && !Continued(data, pos, end - pos) {
      var n := FirstEnd(data, pos, end);
      assert EndsWithin(data, pos, 10);
    }
  }

  lemma {:induction false} FirstEnd(data: Bytes, pos: nat, end: nat) returns (n: nat)
    requires pos <= end <= |data| && !Continued(data, pos, end - pos)
    ensures EndsAfter(data, pos, n) && pos + n < end
    decreases end - pos
  {
    if data[pos] < 128 {
      n := 0;
    } else {
      n := FirstEnd(data, pos + 1, end);
      n := n + 1;
    }
  }

  /** All bytes of a written number but its last have the top bit set, and there are ten at most. */
  lemma {:induction false} LebContinues(v: nat, m: nat)
    requires m > 0 && v < Pow2(7 * m)
    ensures 0 < |Leb(v)| <= m && Continued(Leb(v), 0, |Leb(v)| - 1)
    decreases m
  {
    assert Pow2(7) == 128;
    if v >= 128 {
      Pow2Add(7 * (m - 1), 7);
      LebContinues(v / 128, m - 1);
      var rest := Leb(v / 128);
      forall i | 0 <= i < |Leb(v)| - 1 ensures Leb(v)[i] >= 128 {
        if i > 0 { assert Leb(v)[i] == rest[i - 1]; }
      }
    }
  }

  /** The data ends within the bytes. */
  ghost predicate CutIn(data: Bytes, pos: nat, bytes: Bytes) {
    pos <= |data| < pos + |bytes| && data[pos..] == bytes[..|data| - pos]
  }

  /** A number cut off is an error. */
  lemma CutNumber(data: Bytes, pos: nat, v: nat)
    requires v < VARINT_LIMIT && CutIn(data, pos, Leb(v))
    ensures Varint(data, pos, 0) == Err(UnexpectedEnd)
  {
    VarintLimit();
    LebContinues(v, 10);
    forall i | pos <= i < |data| ensures data[i] >= 128 {
      assert data[i] == data[pos..][i - pos] == Leb(v)[i - pos];
    }
    VarintExactly(data, pos);
  }

  // ----- records

  /** What follows a first part is cut if the data ends behind that part. */
  lemma CutSplit(data: Bytes, pos: nat, a: Bytes, b: Bytes)
    requires CutIn(data, pos, a + b)
    ensures if |data| < pos + |a| then CutIn(data, pos, a) else At(data, pos, a) && CutIn(data, pos + |a|, b)
  {
    var tail := data[pos..];
    if |data| < pos + |a| {
      assert tail == a[..|tail|];
    } else {
      assert data[pos..pos + |a|] == tail[..|a|] == a;
      assert data[pos + |a|..] == tail[|a|..] == b[..|tail| - |a|];
    }
  }

  /** A record cut off behind its txid is an error. */
  lemma CutUtxo(data: Bytes, pos: nat, u: Utxo)
    requires Encodable(u.txid, u.vout) && u.amount < VARINT_LIMIT && CutIn(data, pos, EncodeUtxo(u))
             && pos + 32 <= |data|
    ensures OneUtxo(data, pos) == Err(UnexpectedEnd)
  {
    CutSplit(data, pos, u.txid + Leb(u.vout), Leb(u.amount));
    if |data| < pos + |u.txid + Leb(u.vout)| {
      CutSplit(data, pos, u.txid, Leb(u.vout));
      CutNumber(data, pos + 32, u.vout);
    } else {
      AtSplit(data, pos, u.txid, Leb(u.vout));
      ReadsBack(data, pos + 32, u.vout);
      CutNumber(data, pos + 32 + |Leb(u.vout)|, u.amount);
    }
  }

  lemma CutSpent(data: Bytes, pos: nat, s: SpentRef)
    requires Encodable(s.txid, s.vout) && CutIn(data, pos, EncodeSpent(s)) && pos + 32 <= |data|
    ensures OneSpent(data, pos) == Err(UnexpectedEnd)
  {
    CutSplit(data, pos, s.txid, Leb(s.vout));
    CutNumber(data, pos + 32, s.vout);
  }

  lemma UtxosStep(data: Bytes, pos: nat, n: nat, us: seq<Utxo>, next: nat, end: nat)
    requires us != [] && n > 0 && pos + 32 <= |data| && OneUtxo(data, pos) == Ok((us[0], next))
    ensures Utxos(data, next, n - 1) == Ok((us[1..], end)) ==> Utxos(data, pos, n) == Ok((us, end))
    ensures Utxos(data, next, n - 1).Err? ==> Utxos(data, pos, n) == Utxos(data, next, n - 1)
  {
    assert [us[0]] + us[1..] == us;
  }

  lemma FirstOfUtxos(data: Bytes, pos: nat, us: seq<Utxo>, next: nat)
    requires us != [] && UtxosEncodable(us) && At(data, pos, EncodeUtxos(us)) && next == pos + |EncodeUtxo(us[0])|
    ensures pos + 32 <= |data| && OneUtxo(data, pos) == Ok((us[0], next))
    ensures At(data, next, EncodeUtxos(us[1..])) && next + |EncodeUtxos(us[1..])| == pos + |EncodeUtxos(us)|
  {
    AtSplit(data, pos, EncodeUtxo(us[0]), EncodeUtxos(us[1..]));
    UtxoRoundTrip(data, pos, us[0]);
  }

  lemma CutFirstUtxo(data: Bytes, pos: nat, last: Utxo, n: nat)
    requires UtxosEncodable([last]) && n > 0 && CutIn(data, pos, EncodeUtxo(last))
    ensures Utxos(data, pos, n) == if pos + 32 <= |data| then Err(UnexpectedEnd) else Ok(([], pos))
  {
    if pos + 32 <= |data| {
      assert [last][0] == last;
      CutUtxo(data, pos, last);
    }
  }

  /**
   The data ends within the record behind `us`: if 32 bytes of that are left
   the decoder fails, otherwise it returns `us` as if there were no more.
   */
  lemma {:induction false} CutUtxos(data: Bytes, pos: nat, us: seq<Utxo>, last: Utxo, n: nat, end: nat)
    requires UtxosEncodable(us) && UtxosEncodable([last]) && n > |us| && end == pos + |EncodeUtxos(us)|
    requires At(data, pos, EncodeUtxos(us)) && CutIn(data, end, EncodeUtxo(last))
    ensures Utxos(data, pos, n) == if end + 32 <= |data| then Err(UnexpectedEnd) else Ok((us, end))
    decreases |us|
  {
    if us == [] {
      CutFirstUtxo(data, pos, last, n);
    } else {
      var next := pos + |EncodeUtxo(us[0])|;
      FirstOfUtxos(data, pos, us, next);
      CutUtxos(data, next, us[1..], last, n - 1, end);
      UtxosStep(data, pos, n, us, next, end);
    }
  }

  /**
   A record of outputs cut off: an error if the cut is in the count or behind
   the txid of an output; otherwise the outputs before the cut, and no error.
   */
  lemma CutUtxoData(us: seq<Utxo>, k: nat, cut: nat, data: Bytes)
    requires UtxosEncodable(us) && k < |us| < VARINT_LIMIT && cut < |EncodeUtxo(us[k])|
    requires data == Leb(|us|) + EncodeUtxos(us[..k]) + EncodeUtxo(us[k])[..cut]
    ensures DecodedUtxos(data) == if cut >= 32 then Err(UnexpectedEnd) else Ok(us[..k])
  {
    var pos := |Leb(|us|)|;
    assert At(data, 0, Leb(|us|)) && At(data, pos, EncodeUtxos(us[..k]));
    assert CutIn(data, pos + |EncodeUtxos(us[..k])|, EncodeUtxo(us[k]));
    ReadsBack(data, 0, |us|);
    CutUtxos(data, pos, us[..k], us[k], |us|, pos + |EncodeUtxos(us[..k])|);
  }

  lemma CutCount(us: seq<Utxo>, cut: nat)
    requires |us| < VARINT_LIMIT && cut < |Leb(|us|)|
    ensures DecodedUtxos(Leb(|us|)[..cut]) == Err(UnexpectedEnd)
  {
    CutNumber(Leb(|us|)[..cut], 0, |us|);
  }

  lemma SpentsStep(data: Bytes, pos: nat, n: nat, ss: seq<SpentRef>, next: nat, end: nat)
    requires ss != [] && n > 0 && pos + 32 <= |data| && OneSpent(data, pos) == Ok((ss[0], next))
    ensures Spents(data, next, n - 1) == Ok((ss[1..], end)) ==> Spents(data, pos, n) == Ok((ss, end))
    ensures Spents(data, next, n - 1).Err? ==> Spents(data, pos, n) == Spents(data, next, n - 1)
  {
    assert [ss[0]] + ss[1..] == ss;
  }

  /** The same of the spent outpoints of a delta. */
  lemma {:induction false} CutSpents(data: Bytes, pos: nat, ss: seq<SpentRef>, last: SpentRef, n: nat, end: nat)
    requires SpentEncodable(ss) && SpentEncodable([last]) && n > |ss| && end == pos + |EncodeSpents(ss)|
    requires At(data, pos, EncodeSpents(ss)) && CutIn(data, end, EncodeSpent(last))
    ensures Spents(data, pos, n) == if end + 32 <= |data| then Err(UnexpectedEnd) else Ok((ss, end))
    decreases |ss|
  {
    if ss == [] {
      if pos + 32 <= |data| {
        assert [last][0] == last;
        CutSpent(data, pos, last);
      }
    } else {
      var next := pos + |EncodeSpent(ss[0])|;
      AtSplit(data, pos, EncodeSpent(ss[0]), EncodeSpents(ss[1..]));
      SpentRoundTrip(data, pos, ss[0]);
      CutSpents(data, next, ss[1..], last, n - 1, end);
      SpentsStep(data, pos, n, ss, next, end);
    }
  }
}
