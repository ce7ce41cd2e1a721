/** OnionPIR request frames: the web client encodes and prices them, the server decodes and meters them. */
module OnionFrames {
  import opened Wrappers
  import opened Arithmetic
  import opened Radix

  const REQ_REGISTER_KEYS: Byte := 0x50
  const REQ_INDEX_QUERY: Byte := 0x51
  const REQ_CHUNK_QUERY: Byte := 0x52
  const REQ_MERKLE_INDEX_SIBLING: Byte := 0x53
  const REQ_MERKLE_INDEX_TREE_TOP: Byte := 0x54
  const REQ_MERKLE_DATA_SIBLING: Byte := 0x55
  const REQ_MERKLE_DATA_TREE_TOP: Byte := 0x56

  datatype Keys = Keys(galois: Bytes, gsw: Bytes, dbId: nat)

  datatype BatchQuery = BatchQuery(roundId: nat, queries: seq<Bytes>, dbId: nat)

  datatype Table = IndexTable | ChunkTable

  /** What the server meters. */
  datatype Op = RegisterKeys | IndexQuery | ChunkQuery | SiblingQuery(table: Table) | TreeTops

  /** What the client prices: the price of a sibling query does not depend on its table. */
  datatype Kind = KeysKind | IndexKind | ChunkKind | SiblingKind | TopsKind

  function KindOf(op: Op): Kind {
    match op
    case RegisterKeys => KeysKind
    case IndexQuery => IndexKind
    case ChunkQuery => ChunkKind
    case SiblingQuery(_) => SiblingKind
    case TreeTops => TopsKind
  }

  // ----- length-prefixed blobs

  /** The blob at `pos` and the position after it. */
  function ReadBlob(data: Bytes, pos: nat): (r: Option<(Bytes, nat)>)
    ensures r.Some? ==> pos + 4 <= r.value.1 <= |data| && |r.value.0| == r.value.1 - pos - 4
  {
    if pos + 4 > |data| || pos + 4 + Read32(data, pos) > |data| then None
    else Some((data[pos + 4..pos + 4 + Read32(data, pos)], pos + 4 + Read32(data, pos)))
  }

  /** The `n` blobs from `pos` on, and the position after them. */
  function ReadBlobs(data: Bytes, pos: nat, n: nat): (r: Option<(seq<Bytes>, nat)>)
    requires pos <= |data|
    ensures r.Some? ==> pos <= r.value.1 <= |data| && |r.value.0| == n
    decreases n
  {
    if n == 0 then Some(([], pos)) else AndBlob(ReadBlobs(data, pos, n - 1), data)
  }

  /** One more blob. */
  function AndBlob(before: Option<(seq<Bytes>, nat)>, data: Bytes): Option<(seq<Bytes>, nat)> {
    if before.None? then None
    else
      var next := ReadBlob(data, before.value.1);
      if next.None? then None else Some((before.value.0 + [next.value.0], next.value.1))
  }

  // ----- what the server decodes

  /** The blobs of a key registration: Galois keys and GSW keys. */
  const KEY_BLOBS: nat := 2

  /** The optional database byte. */
  function DbByte(data: Bytes, pos: nat): nat {
    if pos < |data| then data[pos] else 0
  }

  /** A key registration, after its variant byte. */
  function KeysOf(data: Bytes): Option<Keys> {
    match ReadBlobs(data, 0, KEY_BLOBS)
    case None => None
    case Some((bs, end)) => Some(Keys(bs[0], bs[1], DbByte(data, end)))
  }

  method DecodeRegisterKeys(data: Bytes) returns (r: Option<Keys>)
    ensures r == KeysOf(data)
  {
    TwoBlobs(data);
    if |data| < 8 {
      return None;
    }
    var galoisLen := Read32(data, 0);
    if 4 + galoisLen + 4 > |data| {
      return None;
    }
    var galois, pos := data[4..4 + galoisLen], 4 + galoisLen;
    var gswLen := Read32(data, pos);
    pos := pos + 4;
    if pos + gswLen > |data| {
      return None;
    }
    var gsw := data[pos..pos + gswLen];
    pos := pos + gswLen;
    return Some(Keys(galois, gsw, DbByte(data, pos)));
  }

  lemma TwoBlobs(data: Bytes)
    ensures ReadBlob(data, 0).None? ==> ReadBlobs(data, 0, KEY_BLOBS).None?
    ensures ReadBlob(data, 0).Some? ==>
              var second := ReadBlob(data, ReadBlob(data, 0).value.1);
              ReadBlobs(data, 0, KEY_BLOBS)
              == if second.None? then None else Some(([ReadBlob(data, 0).value.0, second.value.0], second.value.1))
  {
    var first := ReadBlob(data, 0);
    assert ReadBlobs(data, 0, 0) == Some(([], 0));
    if first.Some? {
      assert [] + [first.value.0] == [first.value.0];
      assert ReadBlobs(data, 0, 1) == Some(([first.value.0], first.value.1));
      var second := ReadBlob(data, first.value.1);
      if second.Some? {
        assert [first.value.0] + [second.value.0] == [first.value.0, second.value.0];
      }
    } else {
      assert ReadBlobs(data, 0, 1) == None;
    }
  }

  /** A batch of queries, after its variant byte. */
  function BatchOf(data: Bytes): Option<BatchQuery> {
    if |data| < 3 then None
    else
      match ReadBlobs(data, 3, data[2])
      case None => None
      case Some((bs, end)) => Some(BatchQuery(Value(data[..2], 8), bs, DbByte(data, end)))
  }

  method DecodeBatchQuery(data: Bytes) returns (r: Option<BatchQuery>)
    ensures r == BatchOf(data)
  {
    if |data| < 3 {
      return None;
    }
    var roundId, numGroups: nat := Value(data[..2], 8), data[2];
    var queries := TakeBlobs(data, 3, numGroups);
    if queries.None? {
      return None;
    }
    return Some(BatchQuery(roundId, queries.value.0, DbByte(data, queries.value.1)));
  }

  /** The loop over the groups of a batch. */
  method TakeBlobs(data: Bytes, start: nat, n: nat) returns (r: Option<(seq<Bytes>, nat)>)
    requires start <= |data|
    ensures r == ReadBlobs(data, start, n)
  {
    var blobs: seq<Bytes>, pos: nat := [], start;
    for i := 0 to n
      invariant ReadBlobs(data, start, i) == Some((blobs, pos))
    {
      var next := TakeBlob(data, pos);
      if next.None? {
        NoMoreBlobs(data, start, i + 1, n);
        return None;
      }
      blobs, pos := blobs + [next.value.0], next.value.1;
    }
    return Some((blobs, pos));
  }

  method TakeBlob(data: Bytes, start: nat) returns (r: Option<(Bytes, nat)>)
    requires start <= |data|
    ensures r == ReadBlob(data, start)
  {
    if start + 4 > |data| {
      return None;
    }
    var len := Read32(data, start);
    var pos := start + 4;
    if pos + len > |data| {
      return None;
    }
    return Some((data[pos..pos + len], pos + len));
  }

  lemma {:induction false} NoMoreBlobs(data: Bytes, pos: nat, m: nat, n: nat)
    requires pos <= |data| && m <= n && ReadBlobs(data, pos, m).None?
    ensures ReadBlobs(data, pos, n).None?
  {
    if m < n {
      NoMoreBlobs(data, pos, m, n - 1);
    }
  }

  // ----- metering and pricing

  predicate IsBatch(variant: Byte) {
    variant == REQ_INDEX_QUERY || variant == REQ_CHUNK_QUERY || variant == REQ_MERKLE_INDEX_SIBLING
    || variant == REQ_MERKLE_DATA_SIBLING
  }

  predicate IsTreeTop(variant: Byte) {
    variant == REQ_MERKLE_INDEX_TREE_TOP || variant == REQ_MERKLE_DATA_TREE_TOP
  }

  function BatchOp(variant: Byte): Op {
    if variant == REQ_INDEX_QUERY then IndexQuery
    else if variant == REQ_CHUNK_QUERY then ChunkQuery
    else SiblingQuery(if variant == REQ_MERKLE_INDEX_SIBLING then IndexTable else ChunkTable)
  }

  function BatchKind(variant: Byte): Kind {
    if variant == REQ_INDEX_QUERY then IndexKind else if variant == REQ_CHUNK_QUERY then ChunkKind else SiblingKind
  }

  /** The operation and database the server meters for a payload, when it decodes. */
  function ServerOp(payload: Bytes): Option<(Op, nat)> {
    if payload == [] then None
    else if payload[0] == REQ_REGISTER_KEYS then
      match KeysOf(payload[1..])
      case None => None
      case Some(keys) => Some((RegisterKeys, keys.dbId))
    else if IsBatch(payload[0]) then
      match BatchOf(payload[1..])
      case None => None
      case Some(batch) => Some((BatchOp(payload[0]), batch.dbId))
    else if IsTreeTop(payload[0]) then Some((TreeTops, DbByte(payload, 1)))
    else None
  }

  /** How many bytes a decodable payload has after its last blob. */
  function Trailing(payload: Bytes): nat
    requires ServerOp(payload).Some?
  {
    var body := payload[1..];
    if payload[0] == REQ_REGISTER_KEYS then |body| - ReadBlobs(body, 0, KEY_BLOBS).value.1
    else if IsBatch(payload[0]) then |body| - ReadBlobs(body, 3, body[2]).value.1
    else |body|
  }

  /** A parse result, its end moved by `k`. */
  function Moved<T>(r: Option<(T, nat)>, k: nat): Option<(T, nat)> {
    if r.None? then None else Some((r.value.0, k + r.value.1))
  }

  lemma ShiftBlob(data: Bytes, tail: Bytes, k: nat, pos: nat, at: nat)
    requires k + pos == at <= |data| && tail == data[k..]
    ensures ReadBlob(data, at) == Moved(ReadBlob(tail, pos), k)
  {
    if at + 4 <= |data| {
      assert tail[pos..pos + 4] == data[at..at + 4];
      var len := Read32(data, at);
      if at + 4 + len <= |data| {
        assert tail[pos + 4..pos + 4 + len] == data[at + 4..at + 4 + len];
      }
    }
  }

  lemma ShiftOneMore(data: Bytes, tail: Bytes, k: nat, before: Option<(seq<Bytes>, nat)>)
    requires k <= |data| && tail == data[k..] && (before.Some? ==> before.value.1 <= |tail|)
    ensures AndBlob(Moved(before, k), data) == Moved(AndBlob(before, tail), k)
  {
    if before.Some? {
      ShiftBlob(data, tail, k, before.value.1, k + before.value.1);
    }
  }

  lemma {:induction false} ShiftBlobs(data: Bytes, tail: Bytes, k: nat, pos: nat, at: nat, n: nat)
    requires k + pos == at <= |data| && tail == data[k..]
    ensures ReadBlobs(data, at, n) == Moved(ReadBlobs(tail, pos, n), k)
  {
    if n > 0 {
      ShiftBlobs(data, tail, k, pos, at, n - 1);
      ShiftOneMore(data, tail, k, ReadBlobs(tail, pos, n - 1));
    }
  }

  /** `op` is metered on the payload of the frame, whose blobs end at `end`. */
  ghost predicate Metered(frame: Bytes, op: Op, end: nat)
    requires |frame| >= 5
  {
    && ServerOp(frame[4..]) == Some((op, DbByte(frame, end)))
    && Trailing(frame[4..]) == |frame| - end
  }

  lemma MeteredKeys(frame: Bytes)
    requires |frame| >= 5 && frame[4] == REQ_REGISTER_KEYS
    ensures ReadBlobs(frame, 5, KEY_BLOBS).None? ==> ServerOp(frame[4..]).None?
    ensures ReadBlobs(frame, 5, KEY_BLOBS).Some? ==>
            Metered(frame, RegisterKeys, ReadBlobs(frame, 5, KEY_BLOBS).value.1)
  {
    var body := frame[4..][1..];
    assert body == frame[5..];
    ShiftBlobs(frame, body, 5, 0, 5, KEY_BLOBS);
  }

  lemma MeteredBatch(frame: Bytes)
    requires |frame| >= 8 && IsBatch(frame[4])
    ensures ReadBlobs(frame, 8, frame[7]).None? ==> ServerOp(frame[4..]).None?
    ensures ReadBlobs(frame, 8, frame[7]).Some? ==>
            Metered(frame, BatchOp(frame[4]), ReadBlobs(frame, 8, frame[7]).value.1)
  {
    var payload := frame[4..];
    assert payload[1..] == frame[5..];
    ShiftBlobs(frame, frame[5..], 5, 3, 8, frame[7]);
    MeteredBody(payload, frame[5..]);
  }

  /** A batch payload is metered exactly if the blobs of its body can be read. */
  lemma MeteredBody(payload: Bytes, body: Bytes)
    requires |payload| >= 4 && IsBatch(payload[0]) && body == payload[1..]
    ensures var blobs := ReadBlobs(body, 3, body[2]);
            if blobs.None? then ServerOp(payload).None?
            else && ServerOp(payload) == Some((BatchOp(payload[0]), DbByte(body, blobs.value.1)))
                 && Trailing(payload) == |body| - blobs.value.1
  {
  }

  /** Moves the cursor over `n` blobs. */
  method SkipBlobs(frame: Bytes, start: nat, n: nat) returns (end: Option<nat>)
    requires start <= |frame|
    ensures end.Some? <==> ReadBlobs(frame, start, n).Some?
    ensures end.Some? ==> end.value == ReadBlobs(frame, start, n).value.1
  {
    var pos: nat := start;
    for i := 0 to n
      invariant ReadBlobs(frame, start, i).Some? && ReadBlobs(frame, start, i).value.1 == pos
    {
      var next := SkipBlob(frame, pos);
      if next.None? {
        NoMoreBlobs(frame, start, i + 1, n);
        return None;
      }
      pos := next.value;
    }
    return Some(pos);
  }

  method SkipBlob(frame: Bytes, start: nat) returns (end: Option<nat>)
    requires start <= |frame|
    ensures end == if ReadBlob(frame, start).None? then None else Some(ReadBlob(frame, start).value.1)
  {
    if start + 4 > |frame| {
      return None;
    }
    var pos := start + 4 + Read32(frame, start);
    return if pos > |frame| then None else Some(pos);
  }

  function TrailingDbId(frame: Bytes, pos: nat): Option<nat>
    requires pos <= |frame|
  {
    if pos == |frame| then Some(0) else if pos + 1 == |frame| then Some(frame[pos]) else None
  }

  /** The price class of a frame: exactly what the server meters, unless more than the database byte trails. */
  method ClassifyOnionFrame(frame: Bytes) returns (r: Option<(Kind, nat)>)
    ensures r.Some? <==>
            |frame| >= 5 && Read32(frame, 0) == |frame| - 4 && ServerOp(frame[4..]).Some? && Trailing(frame[4..]) <= 1
    ensures r.Some? ==> r.value == (KindOf(ServerOp(frame[4..]).value.0), ServerOp(frame[4..]).value.1)
  {
    if |frame| < 5 {
      return None;
    }
    if Read32(frame, 0) != |frame| - 4 {
      return None;
    }
    var variant := frame[4];
    if variant == REQ_REGISTER_KEYS {
      MeteredKeys(frame);
      var end := SkipBlobs(frame, 5, KEY_BLOBS);
      if end.None? { return None; }
      var dbId := TrailingDbId(frame, end.value);
      return if dbId.None? then None else Some((KeysKind, dbId.value));
    } else if IsBatch(variant) {
      if 5 + 3 > |frame| { return None; }
      MeteredBatch(frame);
      var end := SkipBlobs(frame, 8, frame[7]);
      if end.None? { return None; }
      var dbId := TrailingDbId(frame, end.value);
      return if dbId.None? then None else Some((BatchKind(variant), dbId.value));
    } else if IsTreeTop(variant) {
      var dbId := TrailingDbId(frame, 5);
      return if dbId.None? then None else Some((TopsKind, dbId.value));
    } else {
      return None;
    }
  }

  /** What the server takes for an operation, and which, by the first byte of a payload. */
  lemma OpsByCode(payload: Bytes)
    requires payload != []
    ensures ServerOp(payload).Some? ==> 0x50 <= payload[0] <= 0x56
    ensures ServerOp(payload).Some? ==>
            var op := ServerOp(payload).value.0;
            && (op == RegisterKeys <==> payload[0] == 0x50)
            && (op == IndexQuery <==> payload[0] == 0x51) && (op == ChunkQuery <==> payload[0] == 0x52)
            && (op == SiblingQuery(IndexTable) <==> payload[0] == 0x53)
            && (op == SiblingQuery(ChunkTable) <==> payload[0] == 0x55)
            && (op == TreeTops <==> payload[0] == 0x54 || payload[0] == 0x56)
  {
  }

  /**
   A frame for the INDEX tree tops with two bytes behind its variant is
   metered, for the first of them, and not priced.
   */
  lemma MeteredUnpriced()
    ensures var frame := [3, 0, 0, 0, REQ_MERKLE_INDEX_TREE_TOP, 1, 2];
            && |frame| >= 5 && Read32(frame, 0) == |frame| - 4
            && ServerOp(frame[4..]) == Some((TreeTops, 1)) && Trailing(frame[4..]) == 2
  {
    var frame := [3, 0, 0, 0, REQ_MERKLE_INDEX_TREE_TOP, 1, 2];
    assert frame[4..] == [REQ_MERKLE_INDEX_TREE_TOP, 1, 2];
    var head: Bytes := [3, 0, 0, 0];
    assert frame[0..4] == head;
    assert Pow2(8) == 256;
    WordValue(3);
    assert LittleEndian(3, WORD) == head;
  }

  // ----- encoding

  /** The bytes behind a 32-bit length. */
  function Blob(b: Bytes): (r: Bytes)
    ensures |r| == 4 + |b|
  {
    LittleEndian(|b|, WORD) + b
  }

  function Blobs(bs: seq<Bytes>): Bytes {
    if bs == [] then [] else Blobs(bs[..|bs| - 1]) + Blob(bs[|bs| - 1])
  }

  /** The database byte, left out for database 0. */
  function DbTail(dbId: nat): Bytes {
    if dbId == 0 then [] else [dbId % 256]
  }

  function KeysPayload(k: Keys): Bytes {
    [REQ_REGISTER_KEYS] + (Blob(k.galois) + Blob(k.gsw) + DbTail(k.dbId))
  }

  function BatchPayload(variant: Byte, m: BatchQuery): Bytes {
    [variant] + (LittleEndian(m.roundId, HALF_WORD) + [|m.queries| % 256] + Blobs(m.queries) + DbTail(m.dbId))
  }

  /** A payload as sent. */
  function Framed(payload: Bytes): Bytes { Blob(payload) }

  /** Writes bytes at the cursor. */
  method Put(msg: array<Byte>, pos: nat, bytes: Bytes) returns (next: nat)
    requires pos + |bytes| <= msg.Length
    modifies msg
    ensures next == pos + |bytes| && msg[..next] == old(msg[..pos]) + bytes
  {
    for i := 0 to |bytes|
      invariant msg[..pos + i] == old(msg[..pos]) + bytes[..i]
    {
      msg[pos + i] := bytes[i];
    }
    next := pos + |bytes|;
  }

  /** Writes a length and the bytes. */
  method PutBlob(msg: array<Byte>, pos: nat, bytes: Bytes) returns (next: nat)
    requires pos + 4 + |bytes| <= msg.Length
    modifies msg
    ensures next == pos + 4 + |bytes| && msg[..next] == old(msg[..pos]) + Blob(bytes)
  {
    next := Put(msg, pos, LittleEndian(|bytes|, WORD));
    next := Put(msg, next, bytes);
  }

  method PutDbTail(msg: array<Byte>, pos: nat, dbId: nat) returns (next: nat)
    requires pos + |DbTail(dbId)| <= msg.Length
    modifies msg
    ensures next == pos + |DbTail(dbId)| && msg[..next] == old(msg[..pos]) + DbTail(dbId)
  {
    next := pos;
    if dbId != 0 {
      next := Put(msg, pos, [dbId % 256]);
    }
  }

  /** Starts a frame: its length and variant, and room for the rest. */
  method StartFrame(payloadLen: nat, variant: Byte) returns (msg: array<Byte>, pos: nat)
    requires payloadLen >= 1
    ensures fresh(msg) && msg.Length == 4 + payloadLen && pos == 5
            && msg[..pos] == LittleEndian(payloadLen, WORD) + [variant]
  {
    msg := new Byte[4 + payloadLen];
    pos := Put(msg, 0, LittleEndian(payloadLen, WORD));
    pos := Put(msg, pos, [variant]);
  }

  lemma FrameLayout(payloadLen: nat, variant: Byte, body: Bytes)
    requires payloadLen == 1 + |body|
    ensures LittleEndian(payloadLen, WORD) + [variant] + body == Framed([variant] + body)
  {
  }

  /** The precomputed size is exactly filled. */
  method EncodeRegisterKeys(k: Keys) returns (frame: Bytes)
    ensures frame == Framed(KeysPayload(k))
  {
    var payloadLen := 1 + 4 + |k.galois| + 4 + |k.gsw| + (if k.dbId != 0 then 1 else 0);
    ghost var a, b, c := Blob(k.galois), Blob(k.gsw), DbTail(k.dbId);
    FrameLayout(payloadLen, REQ_REGISTER_KEYS, a + b + c);
    var msg, pos := StartFrame(payloadLen, REQ_REGISTER_KEYS);
    ghost var head := msg[..pos];
    pos := PutBlob(msg, pos, k.galois);
    pos := PutBlob(msg, pos, k.gsw);
    pos := PutDbTail(msg, pos, k.dbId);
    frame := msg[..];
    assert frame == msg[..pos] == head + a + b + c;
    Regroup(head, a, b, c);
  }

  lemma Regroup(head: Bytes, a: Bytes, b: Bytes, c: Bytes)
    ensures head + a + b + c == head + (a + b + c)
  {
  }

  /** The precomputed size is exactly filled, whatever the number of queries; the count is cut to a byte. */
  method EncodeBatchQuery(variant: Byte, m: BatchQuery) returns (frame: Bytes)
    ensures frame == Framed(BatchPayload(variant, m))
  {
    var payloadSize: nat := 1 + 2 + 1;
    for i := 0 to |m.queries|
      invariant payloadSize == 4 + |Blobs(m.queries[..i])|
    {
      assert m.queries[..i + 1][..i] == m.queries[..i];
      payloadSize := payloadSize + 4 + |m.queries[i]|;
    }
    assert m.queries[..|m.queries|] == m.queries;
    if m.dbId != 0 { payloadSize := payloadSize + 1; }
    ghost var a, b, c := LittleEndian(m.roundId, HALF_WORD) + [|m.queries| % 256], Blobs(m.queries), DbTail(m.dbId);
    FrameLayout(payloadSize, variant, a + b + c);
    var msg, pos := StartFrame(payloadSize, variant);
    ghost var head := msg[..pos];
    pos := Put(msg, pos, LittleEndian(m.roundId, HALF_WORD) + [|m.queries| % 256]);
    pos := PutBlobs(msg, pos, m.queries);
    pos := PutDbTail(msg, pos, m.dbId);
    frame := msg[..];
    assert frame == msg[..pos] == head + a + b + c;
    Regroup(head, a, b, c);
  }

  lemma {:induction false} BlobsGrow(bs: seq<Bytes>, i: nat)
    requires i <= |bs|
    ensures |Blobs(bs[..i])| <= |Blobs(bs)|
  {
    if i == |bs| {
      assert bs[..i] == bs;
    } else {
      BlobsGrow(bs[..|bs| - 1], i);
      assert bs[..|bs| - 1][..i] == bs[..i];
    }
  }

  lemma BlobsNext(bs: seq<Bytes>, i: nat)
    requires i < |bs|
    ensures Blobs(bs[..i + 1]) == Blobs(bs[..i]) + Blob(bs[i]) && |Blobs(bs[..i])| + |Blob(bs[i])| <= |Blobs(bs)|
  {
    assert bs[..i + 1][..i] == bs[..i];
    BlobsGrow(bs, i + 1);
  }

  method PutBlobs(msg: array<Byte>, pos: nat, bs: seq<Bytes>) returns (next: nat)
    requires pos + |Blobs(bs)| <= msg.Length
    modifies msg
    ensures next == pos + |Blobs(bs)| && msg[..next] == old(msg[..pos]) + Blobs(bs)
  {
    next := pos;
    for i := 0 to |bs|
      invariant next == pos + |Blobs(bs[..i])| <= msg.Length && msg[..next] == old(msg[..pos]) + Blobs(bs[..i])
    {
      BlobsNext(bs, i);
      next := PutBlob(msg, next, bs[i]);
    }
    assert bs[..|bs|] == bs;
  }

  // ----- round trips

  /** Every length fits its field. */
  ghost predicate Fit(bs: seq<Bytes>) {
    forall i | 0 <= i < |bs| :: |bs[i]| < 0x1_0000_0000
  }

  lemma BlobRoundTrip(data: Bytes, pos: nat, b: Bytes)
    requires At(data, pos, Blob(b)) && |b| < 0x1_0000_0000
    ensures ReadBlob(data, pos) == Some((b, pos + |Blob(b)|))
  {
    AtSplit(data, pos, LittleEndian(|b|, WORD), b);
    WordValue(|b|);
  }

  lemma AndBlobRoundTrip(data: Bytes, pos: nat, before: seq<Bytes>, b: Bytes, end: nat)
    requires At(data, pos, Blob(b)) && |b| < 0x1_0000_0000 && end == pos + |Blob(b)|
    ensures AndBlob(Some((before, pos)), data) == Some((before + [b], end))
  {
    BlobRoundTrip(data, pos, b);
  }

  lemma {:induction false} BlobsRoundTrip(data: Bytes, pos: nat, bs: seq<Bytes>)
    requires At(data, pos, Blobs(bs)) && Fit(bs)
    ensures ReadBlobs(data, pos, |bs|) == Some((bs, pos + |Blobs(bs)|))
  {
    if bs != [] {
      var n := |bs| - 1;
      var before := Blobs(bs[..n]);
      AtSplit(data, pos, before, Blob(bs[n]));
      BlobsRoundTrip(data, pos, bs[..n]);
      assert bs == bs[..n] + [bs[n]];
      AndBlobRoundTrip(data, pos + |before|, bs[..n], bs[n], pos + |Blobs(bs)|);
    }
  }

  /** The database byte read after everything else is the one written, or 0 when it was left out. */
  lemma DbTailRoundTrip(data: Bytes, pos: nat, dbId: nat)
    requires dbId < 256 && pos <= |data| && data[pos..] == DbTail(dbId)
    ensures DbByte(data, pos) == dbId && |data| - pos <= 1
  {
    if dbId != 0 {
      assert data[pos] == data[pos..][0];
    }
  }

  /** What was encoded is decoded; a frame below 4 GiB is priced as what the server meters. */
  lemma KeysRoundTrip(k: Keys)
    requires k.dbId < 256 && Fit([k.galois, k.gsw])
    ensures KeysOf(KeysPayload(k)[1..]) == Some(k)
    ensures ServerOp(KeysPayload(k)) == Some((RegisterKeys, k.dbId)) && Trailing(KeysPayload(k)) <= 1
  {
    var bs := [k.galois, k.gsw];
    var data, tail := KeysPayload(k)[1..], DbTail(k.dbId);
    assert Blobs(bs) == Blob(k.galois) + Blob(k.gsw) by {
      assert bs[..1] == [k.galois];
      assert Blobs(bs[..1]) == Blob(k.galois);
    }
    assert data == Blobs(bs) + tail;
    assert At(data, 0, Blobs(bs));
    BlobsRoundTrip(data, 0, bs);
    DbTailRoundTrip(data, |Blobs(bs)|, k.dbId);
  }

  /** The parts of an encoded batch, after its variant byte. */
  lemma BatchParts(m: BatchQuery, data: Bytes)
    requires data == LittleEndian(m.roundId, HALF_WORD) + [|m.queries| % 256] + Blobs(m.queries) + DbTail(m.dbId)
    ensures |data| >= 3 && data[..2] == LittleEndian(m.roundId, HALF_WORD) && data[2] == |m.queries| % 256
    ensures At(data, 3, Blobs(m.queries)) && data[3 + |Blobs(m.queries)|..] == DbTail(m.dbId)
  {
  }

  lemma BatchBody(m: BatchQuery, data: Bytes, end: nat)
    requires m.dbId < 256 && m.roundId < 0x1_0000 && Fit(m.queries)
    requires |data| >= 3 && data[..2] == LittleEndian(m.roundId, HALF_WORD) && data[2] == |m.queries|
    requires At(data, 3, Blobs(m.queries)) && end == 3 + |Blobs(m.queries)| && data[end..] == DbTail(m.dbId)
    ensures BatchOf(data) == Some(m) && ReadBlobs(data, 3, data[2]).value.1 == end && |data| - end <= 1
  {
    BlobsRoundTrip(data, 3, m.queries);
    DbTailRoundTrip(data, end, m.dbId);
    HalfWordValue(m.roundId);
  }

  /** Up to 255 queries decode to themselves; more do not, for their count is cut to a byte. */
  lemma BatchRoundTrip(variant: Byte, m: BatchQuery)
    requires m.dbId < 256 && m.roundId < 0x1_0000 && Fit(m.queries)
    ensures BatchOf(BatchPayload(variant, m)[1..]) == Some(m) <==> |m.queries| <= 255
    ensures |m.queries| <= 255 && IsBatch(variant) ==>
              ServerOp(BatchPayload(variant, m)) == Some((BatchOp(variant), m.dbId))
              && Trailing(BatchPayload(variant, m)) <= 1
  {
    var data := LittleEndian(m.roundId, HALF_WORD) + [|m.queries| % 256] + Blobs(m.queries) + DbTail(m.dbId);
    assert BatchPayload(variant, m)[1..] == data;
    BatchParts(m, data);
    if |m.queries| <= 255 {
      BatchBody(m, data, 3 + |Blobs(m.queries)|);
      if IsBatch(variant) {
        MeteredBody(BatchPayload(variant, m), data);
      }
    } else {
      TooMany(m, data);
    }
  }

  /** A count cut to a byte does not read back as more than 255. */
  lemma TooMany(m: BatchQuery, data: Bytes)
    requires |m.queries| > 255 && |data| >= 3
    ensures BatchOf(data) != Some(m)
  {
  }

  /** The length in front of a payload below 4 GiB is its length, so the frame's price is the payload's. */
  lemma FramedRoundTrip(payload: Bytes)
    requires 1 <= |payload| < 0x1_0000_0000
    ensures |Framed(payload)| >= 5 && Read32(Framed(payload), 0) == |Framed(payload)| - 4
            && Framed(payload)[4..] == payload
  {
    WordValue(|payload|);
    assert Framed(payload)[0..4] == LittleEndian(|payload|, WORD);
  }

  // ----- batch results

  /** The client takes a batch result only if round, group count and every length agree, with nothing left over. */
  method DecodeBatchResult(data: Bytes, start: int, expectedRound: nat, expectedGroups: nat)
    returns (r: Option<seq<Bytes>>)
    ensures r.Some? <==> && 0 <= start && start + 3 <= |data|
                         && Value(data[start..start + 2], 8) == expectedRound && data[start + 2] == expectedGroups
                         && ReadBlobs(data, start + 3, expectedGroups).Some?
                         && ReadBlobs(data, start + 3, expectedGroups).value.1 == |data|
    ensures r.Some? ==> r.value == ReadBlobs(data, start + 3, expectedGroups).value.0
  {
    if start < 0 || start + 3 > |data| {
      return None;
    }
    if Value(data[start..start + 2], 8) != expectedRound || data[start + 2] != expectedGroups {
      return None;
    }
    var results := TakeBlobs(data, start + 3, expectedGroups);
    if results.None? || results.value.1 != |data| {
      return None;
    }
    return Some(results.value.0);
  }

  /** The client takes the batch in `data`, after its variant byte. */
  ghost predicate Taken(data: Bytes, roundId: nat, results: seq<Bytes>) {
    && 4 <= |data| && Value(data[1..3], 8) == roundId && data[3] == |results|
    && ReadBlobs(data, 4, |results|) == Some((results, |data|))
  }

  lemma TakenBody(m: BatchQuery, data: Bytes, body: Bytes)
    requires m.roundId < 0x1_0000 && Fit(m.queries) && |data| >= 4 && body == data[1..]
    requires |body| == 3 + |Blobs(m.queries)| && body[..2] == LittleEndian(m.roundId, HALF_WORD)
             && At(body, 3, Blobs(m.queries))
    requires body[2] == |m.queries|
    ensures Taken(data, m.roundId, m.queries)
  {
    ResultBody(m, body);
    assert data[1..3] == body[..2] && data[3] == body[2];
    ShiftedAll(data, body, m.queries, 3);
  }

  /** Every result batch the server encodes, of up to 255 groups, is one the client takes, unchanged. */
  lemma ResultRoundTrip(variant: Byte, roundId: nat, results: seq<Bytes>)
    requires roundId < 0x1_0000 && |results| <= 255 && Fit(results)
    ensures Taken(BatchPayload(variant, BatchQuery(roundId, results, 0)), roundId, results)
  {
    var m := BatchQuery(roundId, results, 0);
    var data := BatchPayload(variant, m);
    BatchParts(m, data[1..]);
    TakenBody(m, data, data[1..]);
  }

  lemma ShiftedAll(data: Bytes, body: Bytes, bs: seq<Bytes>, from: nat)
    requires from + 1 <= |data| && body == data[1..] && ReadBlobs(body, from, |bs|) == Some((bs, |body|))
    ensures ReadBlobs(data, from + 1, |bs|) == Some((bs, |data|))
  {
    ShiftBlobs(data, body, 1, from, from + 1, |bs|);
    assert Moved(Some((bs, |body|)), 1) == Some((bs, |data|));
  }

  lemma ResultBody(m: BatchQuery, body: Bytes)
    requires m.roundId < 0x1_0000 && Fit(m.queries)
    requires |body| == 3 + |Blobs(m.queries)| && body[..2] == LittleEndian(m.roundId, HALF_WORD)
             && At(body, 3, Blobs(m.queries))
    ensures Value(body[..2], 8) == m.roundId && ReadBlobs(body, 3, |m.queries|) == Some((m.queries, |body|))
  {
    HalfWordValue(m.roundId);
    BlobsRoundTrip(body, 3, m.queries);
  }
}
