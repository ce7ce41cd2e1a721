/**
 Peeling length-prefixed records off a WebSocket message: where every turn of
 the loop goes, and when the loop ends.
 */
module WsRecords {
  import opened Wrappers
  import opened Arithmetic
  import opened Turns
  import opened WsChunks

  const PREFIX_LIMIT: nat := 0x8000_0000

  function Word(b0: int, b1: int, b2: int, b3: int): int {
    b0 + 0x100 * b1 + 0x1_0000 * b2 + 0x100_0000 * b3
  }

  /** A byte outside the array reads as `undefined`, which `|` and `<<` take for 0. */
  function ByteAt(data: Bytes, i: int): Byte {
    if 0 <= i < |data| then data[i] else 0
  }

  /** The length prefix as the client reads it: `|` and `<< 24` make it a signed 32-bit number. */
  function Prefix(data: Bytes, off: int): (len: int)
    ensures 0 - PREFIX_LIMIT <= len < PREFIX_LIMIT
  {
    var v := Word(ByteAt(data, off), ByteAt(data, off + 1), ByteAt(data, off + 2), ByteAt(data, off + 3));
    if ByteAt(data, off + 3) >= 128 then v - 2 * PREFIX_LIMIT else v
  }

  /** The length read at each position. */
  type Lengths = int -> int

  function LengthsIn(data: Bytes): Lengths {
    off => Prefix(data, off)
  }

  /** One turn at `off`, where `len` is read: the next position, or nothing if the loop ends there. */
  function Turn(size: nat, off: int, len: int): Option<int> {
    if off + 4 > size || off + 4 + len > size then None else Some(off + 4 + len)
  }

  function Loop(size: nat, lens: Lengths): Move {
    off => Turn(size, off, lens(off))
  }

  /** The loop over a message. */
  function LoopOver(data: Bytes): Move {
    Loop(|data|, LengthsIn(data))
  }

  // ----- when the loop ends

  /** Lengths are 32-bit numbers, and 0 where the whole prefix lies before the message. */
  ghost predicate Bounded(lens: Lengths) {
    forall off :: 0 - PREFIX_LIMIT <= lens(off) && (off <= -4 ==> lens(off) == 0)
  }

  lemma LengthsBounded(data: Bytes)
    ensures Bounded(LengthsIn(data))
  {
    forall off | off <= -4 ensures Prefix(data, off) == 0 {
      PrefixBefore(data, off);
    }
  }

  lemma PrefixBefore(data: Bytes, off: int)
    requires off <= -4
    ensures Prefix(data, off) == 0
  {
    assert ByteAt(data, off) == ByteAt(data, off + 1) == ByteAt(data, off + 2) == ByteAt(data, off + 3) == 0;
  }

  /** How many positions the loop can reach. */
  function Positions(size: nat): nat { size + PREFIX_LIMIT }

  lemma LoopWithin(size: nat, lens: Lengths)
    requires Bounded(lens)
    ensures Within(Loop(size, lens), 1 - PREFIX_LIMIT, Positions(size))
  {
  }

  lemma LoopEnds(size: nat, lens: Lengths)
    requires Bounded(lens)
    ensures Ends(Loop(size, lens)) <==> !MeetsTwice(Loop(size, lens))
    ensures Ends(Loop(size, lens)) <==> After(Loop(size, lens), Positions(size)).None?
  {
    LoopWithin(size, lens);
    EndsExactly(Loop(size, lens), 1 - PREFIX_LIMIT, Positions(size));
  }

  /**
   The loop over a message ends if and only if no turn starts where another
   did, and then within as many turns as it can reach positions.
   */
  lemma ReadingEnds(data: Bytes)
    ensures Ends(LoopOver(data)) <==> !MeetsTwice(LoopOver(data))
    ensures Ends(LoopOver(data)) <==> After(LoopOver(data), Positions(|data|)).None?
  {
    LengthsBounded(data);
    LoopEnds(|data|, LengthsIn(data));
  }

  /** Turn `n` reads the length `len`. */
  ghost predicate Reads(size: nat, lens: Lengths, n: nat, len: int) {
    var at := After(Loop(size, lens), n);
    at.Some? && at.value + 4 <= size && lens(at.value) == len
  }

  lemma ReadsLength(size: nat, lens: Lengths, n: nat)
    requires After(Loop(size, lens), n + 1).Some?
    ensures After(Loop(size, lens), n).Some?
    ensures Reads(size, lens, n, After(Loop(size, lens), n + 1).value - After(Loop(size, lens), n).value - 4)
  {
  }

  /** A turn stays put exactly if it reads the length -4. */
  lemma StayingRead(size: nat, lens: Lengths, n: nat)
    requires Bounded(lens)
    ensures StaysPut(Loop(size, lens), n) <==> Reads(size, lens, n, -4)
  {
    if StaysPut(Loop(size, lens), n) {
      ReadsLength(size, lens, n);
    } else if Reads(size, lens, n, -4) {
      LoopWithin(size, lens);
      AfterWithin(Loop(size, lens), 1 - PREFIX_LIMIT, Positions(size), n);
    }
  }

  lemma ForwardLoopEnds(size: nat, lens: Lengths)
    requires Bounded(lens) && forall n: nat, len: int | Reads(size, lens, n, len) :: len >= -4
    ensures Ends(Loop(size, lens)) <==> forall n: nat :: !Reads(size, lens, n, -4)
  {
    var move := Loop(size, lens);
    forall n: nat | After(move, n).Some? && After(move, n + 1).Some?
      ensures After(move, n).value <= After(move, n + 1).value
    {
      ReadsLength(size, lens, n);
    }
    LoopWithin(size, lens);
    EndsForward(move, 1 - PREFIX_LIMIT, Positions(size));
    forall n: nat ensures StaysPut(move, n) <==> Reads(size, lens, n, -4) {
      StayingRead(size, lens, n);
    }
  }

  /**
   A message in which no prefix met is below -4 is read to its end if and only
   if none is -4: the prefixes -1, -2 and -3, though negative, move on.
   */
  lemma ForwardReadingEnds(data: Bytes)
    requires forall n: nat, len: int | Reads(|data|, LengthsIn(data), n, len) :: len >= -4
    ensures Ends(LoopOver(data)) <==> forall n: nat :: !Reads(|data|, LengthsIn(data), n, -4)
  {
    LengthsBounded(data);
    ForwardLoopEnds(|data|, LengthsIn(data));
  }

  /** The one prefix that keeps a turn where it is. */
  lemma StayingPrefix(data: Bytes, off: nat)
    requires off + 4 <= |data|
    ensures Turn(|data|, off, Prefix(data, off)) == Some(off as int) <==> data[off..off + 4] == [0xfc, 0xff, 0xff, 0xff]
  {
    assert data[off..off + 4] == [data[off], data[off + 1], data[off + 2], data[off + 3]];
  }

  /** A message that begins with that prefix is at its beginning after every number of turns. */
  lemma StallsForever(data: Bytes, n: nat)
    requires |data| >= 4 && data[0..4] == [0xfc, 0xff, 0xff, 0xff]
    ensures After(LoopOver(data), n) == Some(0)
  {
    StayingPrefix(data, 0);
    FixedPoint(LoopOver(data), n);
  }

  /** Yet a negative prefix need not keep the loop from ending. */
  lemma NegativeCanEnd()
    ensures var data := [0xfe, 0xff, 0xff, 0xff]; Prefix(data, 0) == -2 && Ends(LoopOver(data))
  {
    var data := [0xfe, 0xff, 0xff, 0xff];
    assert After(LoopOver(data), 1) == Turn(|data|, 0, Prefix(data, 0)) == Some(2);
    assert After(LoopOver(data), 2).None?;
  }

  // ----- the records

  /** A record and the length that its prefix stated. */
  datatype Peel = Peel(length: int, record: Bytes)

  /** An index of `subarray`: a negative one counts from the end, and all are kept inside the array. */
  function Index(i: int, n: nat): (k: nat)
    ensures k <= n
  {
    if i >= 0 then Smaller(i, n) else if i + n >= 0 then i + n else 0
  }

  function Subarray(data: Bytes, begin: int, end: int): Bytes {
    var b, e := Index(begin, |data|), Index(end, |data|);
    if b <= e then data[b..e] else []
  }

  function PeelAt(data: Bytes, off: int, len: int): Peel {
    Peel(len, Subarray(data, off, off + 4 + len))
  }

  function Peeler(data: Bytes, lens: Lengths): int -> Peel {
    off => PeelAt(data, off, lens(off))
  }

  /** The records of the first `n` turns. */
  function Peeled(data: Bytes, lens: Lengths, n: nat): seq<Peel>
    requires After(Loop(|data|, lens), n).Some?
  {
    Yield(Loop(|data|, lens), Peeler(data, lens), n)
  }

  lemma PeeledNext(data: Bytes, lens: Lengths, n: nat, off: int, len: int)
    requires After(Loop(|data|, lens), n) == Some(off) && len == lens(off) && Turn(|data|, off, len).Some?
    ensures After(Loop(|data|, lens), n + 1) == Turn(|data|, off, len)
    ensures Peeled(data, lens, n + 1) == Peeled(data, lens, n) + [PeelAt(data, off, len)]
  {
    YieldNext(Loop(|data|, lens), Peeler(data, lens), n, off);
  }

  /** All records of a message on which the loop ends. */
  function Records(data: Bytes, lens: Lengths): seq<Peel> {
    Peeled(data, lens, Done(Loop(|data|, lens), Positions(|data|)))
  }

  lemma AllPeeled(data: Bytes, lens: Lengths, n: nat, off: int)
    requires Bounded(lens) && After(Loop(|data|, lens), n) == Some(off) && Turn(|data|, off, lens(off)).None?
    ensures Ends(Loop(|data|, lens)) && Records(data, lens) == Peeled(data, lens, n)
  {
    assert After(Loop(|data|, lens), n + 1).None?;
    LoopEnds(|data|, lens);
    DoneIs(Loop(|data|, lens), Positions(|data|), n);
  }

  // ----- peeling undoes concatenation

  /** A record as servers write it: its own payload length, below 2^31, in front. */
  predicate IsRecord(r: Bytes) {
    4 <= |r| < 4 + PREFIX_LIMIT && r[..4] == U32(|r| - 4)
  }

  function Whole(rs: seq<Bytes>): (ps: seq<Peel>)
    ensures |ps| == |rs|
  {
    seq(|rs|, i requires 0 <= i < |rs| => Peel(|rs[i]| - 4, rs[i]))
  }

  lemma U32Value(n: nat, b: Bytes)
    requires n < PREFIX_LIMIT && b == U32(n)
    ensures b[3] < 128 && Word(b[0], b[1], b[2], b[3]) == n
  {
    var q := n / 256;
    var r := q / 256;
    assert n / 0x1_0000 == r && n / 0x100_0000 == r / 256;
    assert r / 256 < 128;
  }

  lemma RecordPrefix(data: Bytes, off: nat, r: Bytes)
    requires IsRecord(r) && At(data, off, r)
    ensures Prefix(data, off) == |r| - 4
  {
    U32Value(|r| - 4, r[..4]);
    var d := data[off..off + |r|];
    assert d[0] == r[..4][0] && d[1] == r[..4][1] && d[2] == r[..4][2] && d[3] == r[..4][3];
  }

  lemma SubarrayAt(data: Bytes, off: nat, r: Bytes, end: int)
    requires At(data, off, r) && end == off + |r|
    ensures Subarray(data, off, end) == r
  {
  }

  /** A record with its own length in front is peeled off whole. */
  lemma RecordAt(data: Bytes, lens: Lengths, off: nat, r: Bytes, end: int)
    requires |r| >= 4 && At(data, off, r) && lens(off) == |r| - 4 && end == off + |r|
    ensures Loop(|data|, lens)(off) == Some(end) && Peeler(data, lens)(off) == Peel(|r| - 4, r)
  {
    SubarrayAt(data, off, r, end);
  }

  /** Where record `i` begins. */
  function Offset(rs: seq<Bytes>, i: nat): int
    requires i <= |rs|
  {
    |Concat(rs[..i])|
  }

  function Offsets(rs: seq<Bytes>): (r: seq<int>)
    ensures |r| == |rs| + 1
  {
    seq(|rs| + 1, i requires 0 <= i <= |rs| => Offset(rs, i))
  }

  /** Every record stands at its offset, with its own length read there. */
  ghost predicate InPlace(data: Bytes, lens: Lengths, rs: seq<Bytes>, i: nat)
    requires i < |rs|
  {
    && |rs[i]| >= 4 && Offset(rs, i) >= 0 && Offset(rs, i + 1) == Offset(rs, i) + |rs[i]|
    && At(data, Offset(rs, i), rs[i]) && lens(Offset(rs, i)) == |rs[i]| - 4
  }

  lemma OneInPlace(rs: seq<Bytes>, i: nat)
    requires i < |rs| && IsRecord(rs[i])
    ensures InPlace(Concat(rs), LengthsIn(Concat(rs)), rs, i)
  {
    ConcatPrefix(rs, i);
    RecordPrefix(Concat(rs), Offset(rs, i), rs[i]);
  }

  lemma OneStep(data: Bytes, lens: Lengths, rs: seq<Bytes>, i: nat)
    requires i < |rs| && InPlace(data, lens, rs, i)
    ensures StepAlong(Loop(|data|, lens), Peeler(data, lens), Offsets(rs), Whole(rs), i)
  {
    RecordAt(data, lens, Offset(rs, i), rs[i], Offset(rs, i + 1));
    assert Offsets(rs)[i] == Offset(rs, i) && Offsets(rs)[i + 1] == Offset(rs, i + 1)
           && Whole(rs)[i] == Peel(|rs[i]| - 4, rs[i]);
  }

  lemma RecordsFollow(data: Bytes, lens: Lengths, rs: seq<Bytes>)
    requires forall i | 0 <= i < |rs| :: StepAlong(Loop(|data|, lens), Peeler(data, lens), Offsets(rs), Whole(rs), i)
    ensures After(Loop(|data|, lens), |rs|) == Some(|Concat(rs)|) && Peeled(data, lens, |rs|) == Whole(rs)
  {
    assert rs[..0] == [];
    Follows(Loop(|data|, lens), Peeler(data, lens), Offsets(rs), Whole(rs), |rs|);
    assert rs[..|rs|] == rs;
  }

  lemma AllFollowed(data: Bytes, lens: Lengths, rs: seq<Bytes>)
    requires Bounded(lens) && data == Concat(rs) && forall i | 0 <= i < |rs| :: InPlace(data, lens, rs, i)
    ensures Ends(Loop(|data|, lens)) && Records(data, lens) == Whole(rs)
  {
    forall i | 0 <= i < |rs| ensures StepAlong(Loop(|data|, lens), Peeler(data, lens), Offsets(rs), Whole(rs), i) {
      OneStep(data, lens, rs, i);
    }
    RecordsFollow(data, lens, rs);
    AllPeeled(data, lens, |rs|, |data|);
  }

  /** On any concatenation of records the loop ends, and peels the same records off in order. */
  lemma PeelUndoesConcat(rs: seq<Bytes>)
    requires forall j | 0 <= j < |rs| :: IsRecord(rs[j])
    ensures Ends(LoopOver(Concat(rs))) && Records(Concat(rs), LengthsIn(Concat(rs))) == Whole(rs)
  {
    LengthsBounded(Concat(rs));
    forall i | 0 <= i < |rs| ensures InPlace(Concat(rs), LengthsIn(Concat(rs)), rs, i) {
      OneInPlace(rs, i);
    }
    AllFollowed(Concat(rs), LengthsIn(Concat(rs)), rs);
  }
}
