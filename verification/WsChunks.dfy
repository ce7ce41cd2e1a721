/** WebSocket chunking: splitting large messages and reassembling them. */
module WsChunks {
  import opened Wrappers
  import opened Arithmetic

  const CHUNK_MAGIC: Byte := 0xc7
  const CHUNK_SIZE: nat := 256 * 1024
  const CHUNK_HDR: nat := 5
  const MAX_REASSEMBLED: nat := 64 * 1024 * 1024

  // ----- sending

  /** The bytes of a number at two byte positions, as `& 0xff` and `>>> 8` give them. */
  function U16(v: nat): (r: Bytes)
    ensures |r| == 2
  {
    [v % 256, v / 256 % 256]
  }

  function U32(v: nat): (r: Bytes)
    ensures |r| == 4
  {
    [v % 256, v / 256 % 256, v / 0x1_0000 % 256, v / 0x100_0000 % 256]
  }

  function Frame(seqNo: nat, total: nat, piece: Bytes): (f: Bytes)
    ensures |f| == 4 + CHUNK_HDR + |piece|
  {
    U32(CHUNK_HDR + |piece|) + [CHUNK_MAGIC] + U16(seqNo) + U16(total) + piece
  }

  /** Where chunk `i` starts. */
  function Start(i: nat): (p: nat)
    ensures p == i * CHUNK_SIZE
  {
    i * 0x4_0000
  }

  /** How many chunks hold a number of bytes: the quotient by `CHUNK_SIZE`, rounded up. */
  function Ceiling(length: nat): (t: nat)
    ensures length <= Start(t) < length + 0x4_0000
  {
    if length == 0 then 0 else if length <= CHUNK_SIZE then 1 else 1 + Ceiling(length - CHUNK_SIZE)
  }

  function Chunks(msg: Bytes): nat { Ceiling(|msg|) }

  function Piece(msg: Bytes, i: nat): Bytes
    requires i < Chunks(msg)
  {
    msg[Start(i)..Smaller(Start(i + 1), |msg|)]
  }

  function Pieces(msg: Bytes, n: nat): (r: seq<Bytes>)
    requires n <= Chunks(msg)
    ensures |r| == n
  {
    if n == 0 then [] else Pieces(msg, n - 1) + [Piece(msg, n - 1)]
  }

  /** The first `n` chunk frames of a message. */
  function Frames(msg: Bytes, n: nat): (r: seq<Bytes>)
    requires n <= Chunks(msg)
    ensures |r| == n
  {
    if n == 0 then [] else Frames(msg, n - 1) + [Frame(n - 1, Chunks(msg), Piece(msg, n - 1))]
  }

  /** The WebSocket messages that go out; no frame carries more than `CHUNK_SIZE` bytes of the message. */
  method SendChunked(msg: Bytes) returns (sent: Option<seq<Bytes>>)
    ensures sent.None? <==> Chunks(msg) > 0xffff
    ensures sent.Some? ==> sent.value == (if |msg| <= CHUNK_SIZE then [msg] else Frames(msg, Chunks(msg)))
    ensures sent.Some? ==> forall i | 0 <= i < |sent.value| :: |sent.value[i]| <= 4 + CHUNK_HDR + CHUNK_SIZE
  {
    if |msg| <= CHUNK_SIZE {
      return Some([msg]);
    }
    var total := (|msg| + CHUNK_SIZE - 1) / CHUNK_SIZE;
    assert total == Chunks(msg);
    if total > 0xffff {
      return None;
    }
    var frames: seq<Bytes> := [];
    for i := 0 to total
      invariant frames == Frames(msg, i)
    {
      frames := frames + [Frame(i, total, Piece(msg, i))];
    }
    FramesSmall(msg, total);
    return Some(frames);
  }

  lemma {:induction false} FramesSmall(msg: Bytes, n: nat)
    requires n <= Chunks(msg)
    ensures forall i | 0 <= i < n :: |Frames(msg, n)[i]| <= 4 + CHUNK_HDR + CHUNK_SIZE
  {
    if n > 0 {
      FramesSmall(msg, n - 1);
    }
  }

  lemma {:induction false} PiecesTogether(msg: Bytes, n: nat)
    requires n <= Chunks(msg)
    ensures Concat(Pieces(msg, n)) == msg[..Smaller(Start(n), |msg|)]
  {
    if n > 0 {
      PiecesTogether(msg, n - 1);
      assert Pieces(msg, n)[..n - 1] == Pieces(msg, n - 1);
    }
  }

  // ----- receiving

  /** The reassembly fields: the pieces so far, the next sequence number, the announced total. */
  datatype Assembly = Assembly(acc: seq<Bytes>, expected: nat, total: nat)

  predicate IsChunk(data: Bytes) {
    |data| >= 4 + CHUNK_HDR && data[4] == CHUNK_MAGIC
  }

  function Read16(low: Byte, high: Byte): nat { low + 256 * high }

  /** One chunk: the new reassembly state, and the message it completes, if any. */
  function Accumulate(a: Assembly, seqNo: nat, total: nat, piece: Bytes): (Assembly, seq<Bytes>) {
    var sofar := if seqNo == 0 then [] else a.acc;
    if total == 0 || seqNo != a.expected || (seqNo != 0 && total != a.total) then (Assembly([], 0, a.total), [])
    else if |Concat(sofar)| + |piece| > MAX_REASSEMBLED then (Assembly([], 0, total), [])
    else if seqNo + 1 < total then (Assembly(sofar + [piece], seqNo + 1, total), [])
    else (Assembly([], 0, total), [Concat(sofar) + piece])
  }

  /** One WebSocket message: the new reassembly state, and what goes to `deliver`. */
  function Step(a: Assembly, data: Bytes): (Assembly, seq<Bytes>) {
    if IsChunk(data) then
      Accumulate(a, Read16(data[5], data[6]), Read16(data[7], data[8]), data[4 + CHUNK_HDR..])
    else (a, [data])
  }

  /** One outcome after another: the later state, and all that was delivered. */
  function Then(x: (Assembly, seq<Bytes>), y: (Assembly, seq<Bytes>)): (Assembly, seq<Bytes>) {
    (y.0, x.1 + y.1)
  }

  function Receive(a: Assembly, messages: seq<Bytes>): (Assembly, seq<Bytes>) {
    if messages == [] then (a, [])
    else
      var before := Receive(a, messages[..|messages| - 1]);
      Then(before, Step(before.0, messages[|messages| - 1]))
  }

  lemma Read16U16(v: nat)
    requires v < 0x1_0000
    ensures Read16(U16(v)[0], U16(v)[1]) == v
  {
    assert v / 256 < 256;
  }

  /** A frame is parsed into the fields it was built from. */
  lemma StepFrame(a: Assembly, i: nat, total: nat, piece: Bytes)
    requires i < 0x1_0000 && total < 0x1_0000
    ensures Step(a, Frame(i, total, piece)) == Accumulate(a, i, total, piece)
  {
    var f := Frame(i, total, piece);
    assert f[4] == CHUNK_MAGIC && f[5] == U16(i)[0] && f[6] == U16(i)[1];
    assert f[7] == U16(total)[0] && f[8] == U16(total)[1] && f[4 + CHUNK_HDR..] == piece;
    Read16U16(i);
    Read16U16(total);
  }

  lemma ReceiveSnoc(a: Assembly, ms: seq<Bytes>, m: Bytes)
    ensures Receive(a, ms + [m]) == Then(Receive(a, ms), Step(Receive(a, ms).0, m))
  {
    assert (ms + [m])[..|ms|] == ms;
  }

  /** The receiver after the first `n` frames of a message, started with any leftovers but no chunk expected. */
  function AfterFrames(a: Assembly, msg: Bytes, n: nat): (Assembly, seq<Bytes>)
    requires n <= Chunks(msg)
  {
    if n == 0 then (a, [])
    else if Smaller(Start(n), |msg|) > MAX_REASSEMBLED then (Assembly([], 0, Chunks(msg)), [])
    else if n < Chunks(msg) then (Assembly(Pieces(msg, n), n, Chunks(msg)), [])
    else (Assembly([], 0, Chunks(msg)), [msg])
  }

  lemma PiecesSize(msg: Bytes, n: nat)
    requires n < Chunks(msg)
    ensures |Concat(Pieces(msg, n))| + |Piece(msg, n)| == Smaller(Start(n + 1), |msg|)
  {
    PiecesTogether(msg, n);
  }

  lemma LastPiece(msg: Bytes, n: nat)
    requires n + 1 == Chunks(msg)
    ensures Concat(Pieces(msg, n)) + Piece(msg, n) == msg
  {
    PiecesTogether(msg, n + 1);
    assert Pieces(msg, n + 1)[..n] == Pieces(msg, n);
    assert msg[..|msg|] == msg;
  }

  lemma OneFrame(a: Assembly, msg: Bytes, n: nat)
    requires n < Chunks(msg) <= 0xffff && a.expected == 0
    ensures Accumulate(AfterFrames(a, msg, n).0, n, Chunks(msg), Piece(msg, n)) == AfterFrames(a, msg, n + 1)
  {
    PiecesSize(msg, n);
    if n + 1 == Chunks(msg) {
      LastPiece(msg, n);
    }
  }

  lemma FrameReceived(a: Assembly, msg: Bytes, n: nat)
    requires n < Chunks(msg) <= 0xffff && a.expected == 0
    ensures Step(AfterFrames(a, msg, n).0, Frame(n, Chunks(msg), Piece(msg, n))) == AfterFrames(a, msg, n + 1)
    ensures Then(AfterFrames(a, msg, n), AfterFrames(a, msg, n + 1)) == AfterFrames(a, msg, n + 1)
  {
    OneFrame(a, msg, n);
    StepFrame(AfterFrames(a, msg, n).0, n, Chunks(msg), Piece(msg, n));
    NothingYet(AfterFrames(a, msg, n), AfterFrames(a, msg, n + 1));
  }

  lemma NothingYet(x: (Assembly, seq<Bytes>), y: (Assembly, seq<Bytes>))
    requires x.1 == []
    ensures Then(x, y) == y
  {
    assert x.1 + y.1 == y.1;
  }

  lemma {:induction false} ReceiveFrames(a: Assembly, msg: Bytes, n: nat)
    requires n <= Chunks(msg) <= 0xffff && a.expected == 0
    ensures Receive(a, Frames(msg, n)) == AfterFrames(a, msg, n)
  {
    if n > 0 {
      ReceiveFrames(a, msg, n - 1);
      FrameReceived(a, msg, n - 1);
      ReceiveSnoc(a, Frames(msg, n - 1), Frame(n - 1, Chunks(msg), Piece(msg, n - 1)));
    }
  }

  /** What `SendChunked` sends for a message it accepts. */
  function Sent(msg: Bytes): seq<Bytes> {
    if |msg| <= CHUNK_SIZE then [msg] else Frames(msg, Chunks(msg))
  }

  /**
   A message the receiver gets as it was sent: a short one that does not look
   like a chunk, or a long one below the cap.
   */
  predicate Carried(msg: Bytes) {
    if |msg| <= 0x4_0000 then !(|msg| >= 9 && msg[4] == 0xc7) else |msg| <= 0x400_0000
  }

  /**
   With no chunk expected, a sent message is delivered exactly once, whole,
   if and only if it is carried; one over the cap is dropped. Either way the
   receiver again expects no chunk.
   */
  lemma SentIsReceived(a: Assembly, msg: Bytes)
    requires a.expected == 0 && Chunks(msg) <= 0xffff
    ensures Receive(a, Sent(msg)).1 == [msg] <==> Carried(msg)
    ensures |msg| > MAX_REASSEMBLED ==> Receive(a, Sent(msg)).1 == []
    ensures Carried(msg) || |msg| > CHUNK_SIZE ==> Receive(a, Sent(msg)).0.expected == 0
  {
    if |msg| > CHUNK_SIZE {
      ReceiveFrames(a, msg, Chunks(msg));
    } else {
      ReceiveSnoc(a, [], msg);
      assert [] + [msg] == [msg];
      assert Receive(a, [msg]).1 == Step(a, msg).1;
      if IsChunk(msg) {
        ShorterThanFrame(a, msg);
      }
    }
  }

  /** A short message that looks like a chunk loses its header. */
  lemma ShorterThanFrame(a: Assembly, msg: Bytes)
    requires a.expected == 0 && IsChunk(msg)
    ensures Step(a, msg).1 != [msg]
  {
    assert Concat([]) == [];
    assert |msg[4 + CHUNK_HDR..]| < |msg|;
  }

  lemma ThenAssociates(x: (Assembly, seq<Bytes>), y: (Assembly, seq<Bytes>), z: (Assembly, seq<Bytes>))
    ensures Then(Then(x, y), z) == Then(x, Then(y, z))
  {
    assert x.1 + y.1 + z.1 == x.1 + (y.1 + z.1);
  }

  lemma {:induction false} ReceiveAppend(a: Assembly, x: seq<Bytes>, y: seq<Bytes>)
    ensures Receive(a, x + y) == Then(Receive(a, x), Receive(Receive(a, x).0, y))
  {
    var mid := Receive(a, x);
    if y == [] {
      assert x + y == x;
      assert mid.1 + [] == mid.1;
    } else {
      var n := |y| - 1;
      ReceiveAppend(a, x, y[..n]);
      ReceiveSnoc(a, x + y[..n], y[n]);
      assert x + y == x + y[..n] + [y[n]];
      var last := Receive(mid.0, y[..n]);
      ThenAssociates(mid, last, Step(last.0, y[n]));
    }
  }

  function SentAll(msgs: seq<Bytes>): seq<Bytes> {
    if msgs == [] then [] else SentAll(msgs[..|msgs| - 1]) + Sent(msgs[|msgs| - 1])
  }

  /** Everything below the cap can be split. */
  lemma FewChunks(msg: Bytes)
    requires |msg| <= MAX_REASSEMBLED
    ensures Chunks(msg) <= 0xffff
  {
    assert Start(Chunks(msg)) < |msg| + 0x4_0000;
  }

  /** Of the messages `sent`, the receiver has got `msgs`, and it expects no chunk. */
  ghost predicate Got(a: Assembly, sent: seq<Bytes>, msgs: seq<Bytes>) {
    Receive(a, sent).1 == msgs && Receive(a, sent).0.expected == 0
  }

  lemma OneMore(a: Assembly, sent: seq<Bytes>, msgs: seq<Bytes>, msg: Bytes)
    requires Got(a, sent, msgs) && Carried(msg)
    ensures Got(a, sent + Sent(msg), msgs + [msg])
  {
    ReceiveAppend(a, sent, Sent(msg));
    FewChunks(msg);
    SentIsReceived(Receive(a, sent).0, msg);
  }

  /** Any conversation of carried messages arrives in order, each once. */
  lemma {:induction false} ConversationReceived(a: Assembly, msgs: seq<Bytes>)
    requires a.expected == 0 && forall i | 0 <= i < |msgs| :: Carried(msgs[i])
    ensures Got(a, SentAll(msgs), msgs)
  {
    if msgs != [] {
      var n := |msgs| - 1;
      ConversationReceived(a, msgs[..n]);
      OneMore(a, SentAll(msgs[..n]), msgs[..n], msgs[n]);
      assert msgs == msgs[..n] + [msgs[n]];
    }
  }
}
