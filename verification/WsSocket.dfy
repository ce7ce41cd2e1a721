/** The receiving side of the managed WebSocket: records peeled off a message go to the waiting callers in order. */
module WsSocket {
  import opened Wrappers
  import opened Arithmetic
  import opened Turns
  import opened WsChunks
  import opened WsRecords

  // ----- first in, first out

  predicate IsPong(p: Peel) { p.length == 1 && |p.record| > 4 && p.record[4] == 0 }

  /** The records that answer a request. */
  ghost function Answers(ps: seq<Peel>): seq<Bytes> {
    if ps == [] then []
    else
      var n := |ps| - 1;
      if IsPong(ps[n]) then Answers(ps[..n]) else Answers(ps[..n]) + [ps[n].record]
  }

  lemma AnswersSnoc(ps: seq<Peel>, p: Peel)
    ensures Answers(ps + [p]) == if IsPong(p) then Answers(ps) else Answers(ps) + [p.record]
  {
    assert (ps + [p])[..|ps|] == ps;
  }

  /** The `k`-th answer went to the `k`-th waiting caller; answers beyond the callers were dropped. */
  ghost predicate Handed(waiting: seq<nat>, before: seq<(nat, Bytes)>, answers: seq<Bytes>, left: seq<nat>,
                         resolved: seq<(nat, Bytes)>)
  {
    var k := Smaller(|answers|, |waiting|);
    left == waiting[k..] && resolved == before + seq(k, i requires 0 <= i < k => (waiting[i], answers[i]))
  }

  lemma HandOne(waiting: seq<nat>, before: seq<(nat, Bytes)>, answers: seq<Bytes>, r: Bytes, left: seq<nat>,
                resolved: seq<(nat, Bytes)>)
    requires Handed(waiting, before, answers, left, resolved)
    ensures left == [] ==> Handed(waiting, before, answers + [r], left, resolved)
    ensures left != [] ==> Handed(waiting, before, answers + [r], left[1..], resolved + [(left[0], r)])
  {
    var k := Smaller(|answers|, |waiting|);
    var handed := seq(k, i requires 0 <= i < k => (waiting[i], answers[i]));
    if left != [] {
      assert k == |answers|;
      assert seq(k + 1, i requires 0 <= i < k + 1 => (waiting[i], (answers + [r])[i])) == handed + [(left[0], r)];
    } else {
      assert seq(k, i requires 0 <= i < k => (waiting[i], (answers + [r])[i])) == handed;
    }
  }

  lemma TurnsLeft(size: nat, lens: Lengths, n: nat)
    requires Bounded(lens) && Ends(Loop(size, lens)) && After(Loop(size, lens), n).Some?
    ensures n < Positions(size)
  {
    LoopEnds(size, lens);
    if n >= Positions(size) {
      StaysEnded(Loop(size, lens), Positions(size), n);
    }
  }

  /** Before turn `n`, at `off`: the answers of the earlier turns went to the first callers that were waiting. */
  ghost predicate Progress(data: Bytes, lens: Lengths, n: nat, off: int, waiting: seq<nat>, before: seq<(nat, Bytes)>,
                           left: seq<nat>, resolved: seq<(nat, Bytes)>) {
    After(Loop(|data|, lens), n) == Some(off) && Handed(waiting, before, Answers(Peeled(data, lens, n)), left, resolved)
  }

  /** A turn of the loop hands out its record, unless that is a pong. */
  lemma ReadOne(data: Bytes, lens: Lengths, n: nat, off: int, len: int, p: Peel)
    requires After(Loop(|data|, lens), n) == Some(off) && len == lens(off)
    requires Turn(|data|, off, len).Some? && p == PeelAt(data, off, len)
    ensures After(Loop(|data|, lens), n + 1) == Turn(|data|, off, len)
    ensures Answers(Peeled(data, lens, n + 1)) ==
            if IsPong(p) then Answers(Peeled(data, lens, n)) else Answers(Peeled(data, lens, n)) + [p.record]
  {
    PeeledNext(data, lens, n, off, len);
    AnswersSnoc(Peeled(data, lens, n), p);
  }

  lemma Started(data: Bytes, lens: Lengths, waiting: seq<nat>, before: seq<(nat, Bytes)>)
    ensures Progress(data, lens, 0, 0, waiting, before, waiting, before)
  {
  }

  lemma Finished(data: Bytes, lens: Lengths, n: nat, off: int, waiting: seq<nat>, before: seq<(nat, Bytes)>,
                 left: seq<nat>, resolved: seq<(nat, Bytes)>)
    requires Bounded(lens) && Progress(data, lens, n, off, waiting, before, left, resolved)
    requires Turn(|data|, off, lens(off)).None?
    ensures Handed(waiting, before, Answers(Records(data, lens)), left, resolved)
  {
    AllPeeled(data, lens, n, off);
  }

  class ManagedWebSocket {
    var pending: seq<nat>
    var resolved: seq<(nat, Bytes)>
    var chunkAcc: seq<Bytes>
    var chunkExpected: nat
    var chunkTotal: nat

    function Reassembly(): Assembly
      reads this
    {
      Assembly(chunkAcc, chunkExpected, chunkTotal)
    }

    /** Every complete record that is not a pong resolves the caller that has waited longest. */
    method Deliver(data: Bytes)
      requires Ends(LoopOver(data))
      modifies this`pending, this`resolved
      ensures Handed(old(pending), old(resolved), AnswersOf(data), pending, resolved)
    {
      LengthsBounded(data);
      DeliverAll(data, LengthsIn(data));
    }

    method DeliverAll(data: Bytes, lens: Lengths)
      requires Bounded(lens) && Ends(Loop(|data|, lens))
      modifies this`pending, this`resolved
      ensures Handed(old(pending), old(resolved), Answers(Records(data, lens)), pending, resolved)
    {
      var off := 0;
      var recordEnd := Turn(|data|, off, lens(off));
      ghost var n: nat := 0;
      Started(data, lens, pending, resolved);
      while recordEnd.Some?
        invariant Progress(data, lens, n, off, old(pending), old(resolved), pending, resolved)
        invariant recordEnd == Turn(|data|, off, lens(off))
        decreases Positions(|data|) - n
      {
        TurnsLeft(|data|, lens, n);
        DeliverOne(data, lens, n, off, lens(off), old(pending), old(resolved));
        off, n := recordEnd.value, n + 1;
        recordEnd := Turn(|data|, off, lens(off));
      }
      Finished(data, lens, n, off, old(pending), old(resolved), pending, resolved);
    }

    /** The record of one turn: a pong is discarded. */
    method DeliverOne(data: Bytes, ghost lens: Lengths, ghost n: nat, off: int, len: int,
                      ghost waiting: seq<nat>, ghost before: seq<(nat, Bytes)>)
      requires Progress(data, lens, n, off, waiting, before, pending, resolved) && len == lens(off)
               && Turn(|data|, off, len).Some?
      modifies this`pending, this`resolved
      ensures Progress(data, lens, n + 1, Turn(|data|, off, len).value, waiting, before, pending, resolved)
    {
      var p := PeelAt(data, off, len);
      ReadOne(data, lens, n, off, len, p);
      if !IsPong(p) {
        Shift(p.record, waiting, before, Answers(Peeled(data, lens, n)));
      }
    }

    /** Resolves the first caller in line, or drops the record. */
    method Shift(record: Bytes, ghost waiting: seq<nat>, ghost before: seq<(nat, Bytes)>, ghost given: seq<Bytes>)
      requires Handed(waiting, before, given, pending, resolved)
      modifies this`pending, this`resolved
      ensures Handed(waiting, before, given + [record], pending, resolved)
    {
      HandOne(waiting, before, given, record, pending, resolved);
      if pending != [] {
        resolved := resolved + [(pending[0], record)];
        pending := pending[1..];
      }
    }

    /**
     A frame out of turn, of a changed total or over the cap resets reassembly;
     the last frame delivers the whole message.
     */
    method HandleChunkFrame(data: Bytes)
      requires IsChunk(data) && Readable(Step(Reassembly(), data).1)
      modifies this
      ensures Reassembly() == Step(old(Reassembly()), data).0
      ensures Handed(old(pending), old(resolved), AnswersIn(Step(old(Reassembly()), data).1), pending, resolved)
    {
      var seqNo, total := Read16(data[5], data[6]), Read16(data[7], data[8]);
      if total == 0 || seqNo != chunkExpected {
        chunkAcc, chunkExpected := [], 0;
        return;
      }
      if seqNo == 0 {
        chunkTotal, chunkAcc := total, [];
      } else if total != chunkTotal {
        chunkAcc, chunkExpected := [], 0;
        return;
      }
      var piece := data[4 + CHUNK_HDR..];
      var out := Assemble(chunkAcc);
      if |out| + |piece| > MAX_REASSEMBLED {
        chunkAcc, chunkExpected := [], 0;
        return;
      }
      chunkAcc, chunkExpected := chunkAcc + [piece], chunkExpected + 1;
      if chunkExpected < chunkTotal {
        return;
      }
      chunkAcc, chunkExpected := [], 0;
      assert Step(old(Reassembly()), data).1[0] == out + piece;
      Deliver(out + piece);
    }

    /** Every message changes reassembly by `Step`, and hands over the answers in what `Step` delivers. */
    method OnMessage(data: Bytes)
      requires Readable(Step(Reassembly(), data).1)
      modifies this
      ensures Reassembly() == Step(old(Reassembly()), data).0
      ensures Handed(old(pending), old(resolved), AnswersIn(Step(old(Reassembly()), data).1), pending, resolved)
    {
      if |data| >= 4 + CHUNK_HDR && data[4] == CHUNK_MAGIC {
        HandleChunkFrame(data);
        return;
      }
      assert Step(Reassembly(), data).1[0] == data;
      Deliver(data);
    }
  }

  method Assemble(parts: seq<Bytes>) returns (out: Bytes)
    ensures out == Concat(parts)
  {
    out := [];
    for i := 0 to |parts|
      invariant out == Concat(parts[..i])
    {
      assert parts[..i + 1][..i] == parts[..i];
      out := out + parts[i];
    }
    assert parts[..|parts|] == parts;
  }

  /** The answers in a message. */
  ghost function AnswersOf(data: Bytes): seq<Bytes> {
    Answers(Records(data, LengthsIn(data)))
  }

  /** Reading what a message delivers comes to an end. */
  ghost predicate Readable(delivered: seq<Bytes>) {
    |delivered| <= 1 && forall i | 0 <= i < |delivered| :: Ends(LoopOver(delivered[i]))
  }

  ghost function AnswersIn(delivered: seq<Bytes>): seq<Bytes>
    requires Readable(delivered)
  {
    if delivered == [] then [] else AnswersOf(delivered[0])
  }

  /** A payload of one zero byte. */
  ghost predicate Pong(r: Bytes) { |r| == 5 && r[4] == 0 }

  ghost function AnswersAmong(rs: seq<Bytes>): seq<Bytes> {
    if rs == [] then []
    else
      var n := |rs| - 1;
      if Pong(rs[n]) then AnswersAmong(rs[..n]) else AnswersAmong(rs[..n]) + [rs[n]]
  }

  lemma {:induction false} WholeAnswers(rs: seq<Bytes>)
    requires forall j | 0 <= j < |rs| :: |rs[j]| >= 4
    ensures Answers(Whole(rs)) == AnswersAmong(rs)
  {
    if rs != [] {
      var n := |rs| - 1;
      WholeAnswers(rs[..n]);
      assert Whole(rs)[..n] == Whole(rs[..n]);
    }
  }

  lemma RecordsAnswer(rs: seq<Bytes>)
    requires forall j | 0 <= j < |rs| :: IsRecord(rs[j])
    ensures Ends(LoopOver(Concat(rs))) && AnswersOf(Concat(rs)) == AnswersAmong(rs)
  {
    PeelUndoesConcat(rs);
    WholeAnswers(rs);
  }

  lemma MessageArrives(a: Assembly, msg: Bytes)
    requires a.expected == 0 && Carried(msg)
    ensures Got(a, Sent(msg), [msg])
  {
    FewChunks(msg);
    SentIsReceived(a, msg);
  }

  /** Records sent together, split or not, reach the peer's callers as the same records. */
  lemma RecordsArrive(a: Assembly, rs: seq<Bytes>, msg: Bytes)
    requires a.expected == 0 && (forall j | 0 <= j < |rs| :: IsRecord(rs[j])) && msg == Concat(rs) && Carried(msg)
    ensures Got(a, Sent(msg), [msg]) && Ends(LoopOver(msg)) && AnswersOf(msg) == AnswersAmong(rs)
  {
    MessageArrives(a, msg);
    RecordsAnswer(rs);
  }
}
