/** The rounds of one OnionPIR batch: how many queries leave the client, and what each address and chunk gets back. */
module OnionBatch {
  import opened Wrappers
  import opened Arithmetic
  import opened Cuckoo
  import opened Pbc
  import opened NaryMerkle
  import opened OnionAnchor
  import opened OnionTops
  import opened OnionVerify

  /** The position of a group's `h`-th query in a message of `per` queries per group. */
  function Slot(per: nat, g: nat, h: nat): (i: nat)
    ensures i == g * per + h
  {
    MulMonotone(0, g, per);
    g * per + h
  }

  /** Every item of the round is asked for in its own group, with its own bins. */
  ghost predicate Carries(round: seq<Entry>, per: nat, binOf: (nat, nat, nat) -> nat, bins: seq<nat>) {
    forall k, h: nat | 0 <= k < |round| && h < per ::
      Slot(per, round[k].1, h) < |bins| && bins[Slot(per, round[k].1, h)] == binOf(round[k].0, round[k].1, h)
  }

  /** The query bins of one round: `per` for every one of the `k` groups, random where the group has no item. */
  method PaddedQueries(round: seq<Entry>, k: nat, per: nat, binOf: (nat, nat, nat) -> nat, dummy: (nat, nat) -> nat)
    returns (bins: seq<nat>)
    requires forall i | 0 <= i < |round| :: round[i].1 < k
    requires forall i, j | 0 <= i < j < |round| :: round[i].1 < round[j].1
    ensures |bins| == k * per && Carries(round, per, binOf, bins)
  {
    var groupMap: map<nat, nat> := map[];
    for i := 0 to |round|
      invariant forall j | 0 <= j < i :: round[j].1 in groupMap && groupMap[round[j].1] == round[j].0
    {
      groupMap := groupMap[round[i].1 := round[i].0];
    }
    bins := [];
    for g := 0 to k
      invariant |bins| == Slot(per, g, 0)
      invariant forall i, h: nat | 0 <= i < |round| && round[i].1 < g && h < per ::
                  Slot(per, round[i].1, h) < |bins|
                  && bins[Slot(per, round[i].1, h)] == binOf(round[i].0, round[i].1, h)
    {
      Distribute(g, 1, per);
      ghost var start := bins;
      for h := 0 to per
        invariant |bins| == |start| + h && start <= bins
        invariant g in groupMap ==> forall j: nat | j < h :: bins[Slot(per, g, j)] == binOf(groupMap[g], g, j)
      {
        bins := bins + [if g in groupMap then binOf(groupMap[g], g, h) else dummy(g, h)];
      }
      forall i, h: nat | 0 <= i < |round| && round[i].1 < g + 1 && h < per
        ensures Slot(per, round[i].1, h) < |bins| && bins[Slot(per, round[i].1, h)] == binOf(round[i].0, round[i].1, h)
      {
        if round[i].1 < g {
          assert start[Slot(per, round[i].1, h)] == binOf(round[i].0, round[i].1, h);
        }
      }
    }
  }

  /**
   Where items stand and what the server answers. An item may be unknown to
   its group's table, the response to a round may not decode, and the answer at
   a slot of a round may not unpack.
   */
  datatype Backend = Backend(binOf: (nat, nat, nat) -> nat, known: (nat, nat) -> bool, dummy: (nat, nat, nat) -> nat,
                             hashOf: (nat, nat) -> Digest, framed: nat -> bool, readable: (nat, nat) -> bool)

  /** The leaves decrypted for one item of a round: its bins with the hashes of the answers at its slots. */
  function LeavesOf(e: Entry, per: nat, bins: seq<nat>, hashOf: nat -> Digest): (r: seq<Leaf>)
    requires forall h: nat | h < per :: Slot(per, e.1, h) < |bins|
    ensures |r| == per
  {
    seq(per, h requires 0 <= h < per => Leaf(hashOf(Slot(per, e.1, h)), e.1, bins[Slot(per, e.1, h)]))
  }

  /** The item was asked for in exactly its own slots of round `r`, and its leaves are the answers to those. */
  ghost predicate Answered(item: nat, groups: seq<nat>, per: nat, b: Backend, sent: seq<seq<nat>>, leaves: seq<Leaf>,
                           r: nat, g: nat)
  {
    && g in groups && r < |sent| && |leaves| == per
    && forall h: nat | h < per ::
         && Slot(per, g, h) < |sent[r]| && sent[r][Slot(per, g, h)] == b.binOf(item, g, h)
         && leaves[h] == Leaf(b.hashOf(r, Slot(per, g, h)), g, b.binOf(item, g, h))
  }

  ghost predicate GotLeaves(item: nat, groups: seq<nat>, per: nat, b: Backend, sent: seq<seq<nat>>, leaves: seq<Leaf>) {
    exists r: nat, g: nat :: Answered(item, groups, per, b, sent, leaves, r, g)
  }

  /** Every item of a level's leaves is one of its items, with its own answers. */
  ghost predicate AllGot(itemGroups: seq<seq<nat>>, per: nat, b: Backend, sent: seq<seq<nat>>,
                         leaves: map<nat, seq<Leaf>>)
  {
    forall i: nat | i in leaves :: i < |itemGroups| && GotLeaves(i, itemGroups[i], per, b, sent, leaves[i])
  }

  ghost predicate EntryReads(b: Backend, e: Entry, r: nat, per: nat) {
    forall h: nat | h < per :: b.readable(r, Slot(per, e.1, h))
  }

  ghost predicate Known(b: Backend, round: seq<Entry>) {
    forall e | e in round :: b.known(e.0, e.1)
  }

  /** Every item of the round is known, the response decodes, and the items' answers unpack. */
  ghost predicate RoundReads(b: Backend, round: seq<Entry>, r: nat, per: nat) {
    Known(b, round) && b.framed(r) && forall e | e in round :: EntryReads(b, e, r, per)
  }

  /** Nothing in the rounds aborts. */
  ghost predicate AllRead(b: Backend, rounds: seq<seq<Entry>>, per: nat) {
    forall r | 0 <= r < |rounds| :: RoundReads(b, rounds[r], r, per)
  }

  ghost predicate Padded(sent: seq<seq<nat>>, n: nat) {
    forall r | 0 <= r < |sent| :: |sent[r]| == n
  }

  method AllKnown(b: Backend, round: seq<Entry>) returns (ok: bool)
    ensures ok <==> Known(b, round)
  {
    ok := true;
    for i := 0 to |round|
      invariant ok <==> forall j | 0 <= j < i :: b.known(round[j].0, round[j].1)
    {
      if !b.known(round[i].0, round[i].1) { ok := false; }
    }
  }

  method EntryUnpacks(b: Backend, e: Entry, r: nat, per: nat) returns (ok: bool)
    ensures ok <==> EntryReads(b, e, r, per)
  {
    for h := 0 to per
      invariant forall j: nat | j < h :: b.readable(r, Slot(per, e.1, j))
    {
      if !b.readable(r, Slot(per, e.1, h)) { return false; }
    }
    return true;
  }

  /** Decrypts the answers to one round, which was sent last; an answer that does not unpack aborts. */
  method ReadRound(itemGroups: seq<seq<nat>>, round: seq<Entry>, k: nat, per: nat, b: Backend,
                   sent: seq<seq<nat>>, leaves0: map<nat, seq<Leaf>>)
    returns (ok: bool, leaves: map<nat, seq<Leaf>>)
    requires sent != [] && Carries(round, per, b.binOf, sent[|sent| - 1])
             && (round != [] ==> RoundOk(itemGroups, k, round))
    requires AllGot(itemGroups, per, b, sent, leaves0)
    ensures ok <==> forall e | e in round :: EntryReads(b, e, |sent| - 1, per)
    ensures ok ==> AllGot(itemGroups, per, b, sent, leaves) && leaves.Keys == leaves0.Keys + Items(round)
  {
    leaves := leaves0;
    var r: nat := |sent| - 1;
    for i := 0 to |round|
      invariant AllGot(itemGroups, per, b, sent, leaves) && leaves.Keys == leaves0.Keys + Items(round[..i])
      invariant forall j | 0 <= j < i :: EntryReads(b, round[j], r, per)
    {
      ok := EntryUnpacks(b, round[i], r, per);
      if !ok {
        assert round[i] in round;
        return;
      }
      var own := LeavesOf(round[i], per, sent[r], s => b.hashOf(r, s));
      assert Answered(round[i].0, itemGroups[round[i].0], per, b, sent, own, r, round[i].1);
      ItemsNext(round, i);
      leaves := leaves[round[i].0 := own];
    }
    assert round[..|round|] == round;
    ok := true;
  }

  lemma ItemsNext(round: seq<Entry>, i: nat)
    requires i < |round|
    ensures Items(round[..i + 1]) == Items(round[..i]) + {round[i].0}
  {
    assert round[..i + 1] == round[..i] + [round[i]];
  }

  lemma StillGot(itemGroups: seq<seq<nat>>, per: nat, b: Backend, sent: seq<seq<nat>>, more: seq<nat>,
                 leaves: map<nat, seq<Leaf>>)
    requires AllGot(itemGroups, per, b, sent, leaves)
    ensures AllGot(itemGroups, per, b, sent + [more], leaves)
  {
    forall i: nat | i in leaves ensures GotLeaves(i, itemGroups[i], per, b, sent + [more], leaves[i]) {
      var r: nat, g: nat :| Answered(i, itemGroups[i], per, b, sent, leaves[i], r, g);
      assert (sent + [more])[r] == sent[r];
      assert Answered(i, itemGroups[i], per, b, sent + [more], leaves[i], r, g);
    }
  }

  /**
   All rounds of a level with `per` queries per group. Every round that is sent
   has `per * k` queries whatever it carries. Unless an item is unknown or a
   response cannot be read, every round is sent and every item ends with exactly
   `per` leaves, answers to its own queries in a candidate group of its own.
   */
  method RunRounds(itemGroups: seq<seq<nat>>, rounds: seq<seq<Entry>>, k: nat, per: nat, b: Backend)
    returns (ok: bool, sent: seq<seq<nat>>, leaves: map<nat, seq<Leaf>>)
    requires forall r | 0 <= r < |rounds| && rounds[r] != [] :: RoundOk(itemGroups, k, rounds[r])
    ensures ok <==> AllRead(b, rounds, per)
    ensures Padded(sent, k * per) && |sent| <= |rounds| && (rounds != [] && Known(b, rounds[0]) ==> sent != [])
    ensures ok ==>
            |sent| == |rounds| && AllGot(itemGroups, per, b, sent, leaves)
            && forall i: nat | InSomeRound(rounds, i) :: i in leaves
  {
    sent, leaves := [], map[];
    for r := 0 to |rounds|
      invariant |sent| == r && Padded(sent, k * per) && AllGot(itemGroups, per, b, sent, leaves)
      invariant forall q | 0 <= q < r :: RoundReads(b, rounds[q], q, per) && Items(rounds[q]) <= leaves.Keys
    {
      ok, sent, leaves := RunRound(itemGroups, rounds[r], k, per, b, sent, leaves);
      if !ok {
        return;
      }
    }
    ok := true;
  }

  /** One round: it is sent when all its items are known, and read when the response decodes and its answers unpack. */
  method RunRound(itemGroups: seq<seq<nat>>, round: seq<Entry>, k: nat, per: nat, b: Backend,
                  sent0: seq<seq<nat>>, leaves0: map<nat, seq<Leaf>>)
    returns (ok: bool, sent: seq<seq<nat>>, leaves: map<nat, seq<Leaf>>)
    requires (round != [] ==> RoundOk(itemGroups, k, round)) && Padded(sent0, k * per)
             && AllGot(itemGroups, per, b, sent0, leaves0)
    ensures ok <==> RoundReads(b, round, |sent0|, per)
    ensures Padded(sent, k * per) && |sent| == |sent0| + if Known(b, round) then 1 else 0
    ensures ok ==> AllGot(itemGroups, per, b, sent, leaves) && leaves.Keys == leaves0.Keys + Items(round)
  {
    sent, leaves := sent0, leaves0;
    ok := AllKnown(b, round);
    if ok {
      var bins := PaddedQueries(round, k, per, b.binOf, (g, h) => b.dummy(|sent0|, g, h));
      StillGot(itemGroups, per, b, sent, bins, leaves);
      sent := sent + [bins];
      if !b.framed(|sent0|) {
        return false, sent, leaves;
      }
      ok, leaves := ReadRound(itemGroups, round, k, per, b, sent, leaves);
    }
  }

  const INDEX_CUCKOO_NUM_HASHES: nat := 2
  const NUM_HASHES: nat := 3

  /**
   The INDEX level: two queries per group. A non-empty batch sends at least one
   round and, unless a response cannot be read, gives every address two leaves.
   */
  method IndexLevel(addressGroups: seq<seq<nat>>, indexK: nat, b: Backend)
    returns (ok: bool, sent: seq<seq<nat>>, leaves: map<nat, seq<Leaf>>, ghost rounds: seq<seq<Entry>>)
    requires InRange(addressGroups, indexK, NUM_HASHES) && forall i, g :: b.known(i, g)
    ensures RoundByRound(addressGroups, indexK, 3, 500, rounds)
    ensures ok <==> AllRead(b, rounds, 2)
    ensures addressGroups != [] ==> sent != []
    ensures Padded(sent, 2 * indexK)
    ensures ok ==>
            forall a: nat | a < |addressGroups| :: a in leaves && GotLeaves(a, addressGroups[a], 2, b, sent, leaves[a])
  {
    var planned := PlanRounds(addressGroups, indexK, NUM_HASHES, MAX_KICKS);
    rounds := planned;
    ok, sent, leaves := RunRounds(addressGroups, planned, indexK, INDEX_CUCKOO_NUM_HASHES, b);
    if addressGroups != [] {
      assert InSomeRound(planned, 0);
    }
  }

  /**
   The CHUNK level: one query per group; even with nothing to fetch, one round
   of dummies goes out. An entry unknown to its table aborts before its round.
   */
  method ChunkLevel(entryGroups: seq<seq<nat>>, chunkK: nat, b: Backend)
    returns (ok: bool, sent: seq<seq<nat>>, leaves: map<nat, seq<Leaf>>, ghost rounds: seq<seq<Entry>>)
    requires InRange(entryGroups, chunkK, NUM_HASHES)
    ensures if entryGroups == [] then rounds == [[]] else RoundByRound(entryGroups, chunkK, 3, 500, rounds)
    ensures ok <==> AllRead(b, rounds, 1)
    ensures (forall i, g :: b.known(i, g)) || ok ==> sent != []
    ensures Padded(sent, chunkK)
    ensures ok ==>
            forall e: nat | e < |entryGroups| :: e in leaves && GotLeaves(e, entryGroups[e], 1, b, sent, leaves[e])
  {
    var planned: seq<seq<Entry>> := [[]];
    if |entryGroups| != 0 {
      planned := PlanRounds(entryGroups, chunkK, NUM_HASHES, MAX_KICKS);
      assert InSomeRound(planned, 0);
    }
    rounds := planned;
    ok, sent, leaves := RunRounds(entryGroups, planned, chunkK, 1, b);
  }

  // ----- verdicts

  /** One result's probed bins. */
  datatype Probed = Probed(index: seq<Leaf>, data: seq<Leaf>)

  datatype Kind = Index | Data

  function Probes(p: Probed, kind: Kind): seq<Leaf> { if kind == Index then p.index else p.data }

  /** The leaves of one kind of all results, in order. */
  function AllProbes(results: seq<Probed>, kind: Kind): seq<Leaf> {
    if results == [] then []
    else AllProbes(results[..|results| - 1], kind) + Probes(results[|results| - 1], kind)
  }

  lemma {:induction false} ProbesAreIn(results: seq<Probed>, kind: Kind, i: nat, l: Leaf)
    requires i < |results| && l in Probes(results[i], kind)
    ensures l in AllProbes(results, kind)
  {
    var n := |results| - 1;
    if i < n {
      ProbesAreIn(results[..n], kind, i, l);
    }
  }

  /** The tops passed their anchor check, and the leaf is one of the sub-tree's distinct leaves whose check passed. */
  ghost predicate Accepted(l: Leaf, b: Batch, tops: Fetched, first: nat)
    requires b.arity > 0
  {
    tops.Tops? && exists j | 0 <= j < |b.us| :: b.us[j] == l && LeafAccepted(b, j, tops.levels, first)
  }

  /** The verdict under a leaf's key is the verdict on that leaf. */
  ghost predicate Decides(verdicts: map<Key, bool>, leaves: seq<Leaf>, b: Batch, tops: Fetched, first: nat)
    requires b.arity > 0
  {
    forall l | l in leaves :: KeyOf(l) in verdicts && (verdicts[KeyOf(l)] <==> Accepted(l, b, tops, first))
  }

  /** The check aborts: the tops do not parse, one bin has two hashes, or a response cannot be read. */
  ghost predicate Aborts(leaves: seq<Leaf>, b: Batch, tops: Fetched) {
    tops.Malformed? || (tops.Tops? && (Conflicting(leaves) || !AllReadable(b)))
  }

  /** What was checked: these leaves, each once, or none when there was nothing to check against. */
  ghost predicate Covers(b: Batch, leaves: seq<Leaf>, tops: Fetched) {
    DistinctKeys(b.us) && (tops.Tops? && !Conflicting(leaves) ==> forall l :: l in b.us <==> l in leaves)
  }

  /**
   A sub-tree's check from its tops on. Tops that do not parse abort it, and
   with tops that miss the anchor every leaf fails and nothing is sent;
   otherwise two hashes for one bin or an unreadable response abort the check,
   and even an empty list costs a full pass.
   */
  method VerifyLeaves(leaves: seq<Leaf>, parent: Parent, arity: nat, k: nat, server: Server,
                      dummy: (nat, nat) -> nat, tops: Fetched, first: nat)
    returns (r: Option<map<Key, bool>>, sent: seq<seq<nat>>, ghost b: Batch)
    requires arity > 0
    ensures b == Batch(parent, b.us, arity, k, server) && Covers(b, leaves, tops)
    ensures r.None? <==> Aborts(leaves, b, tops)
    ensures r.Some? ==> Decides(r.value, leaves, b, tops, first)
    ensures Padded(sent, k) && (!tops.Tops? ==> sent == []) && (tops.Tops? && !Conflicting(leaves) ==> sent != [])
  {
    if tops.Malformed? {
      return None, [], Batch(parent, [], arity, k, server);
    }
    if tops.Mismatch? {
      var keys := set l | l in leaves :: KeyOf(l);
      return Some(map key | key in keys :: false), [], Batch(parent, [], arity, k, server);
    }
    var us := Deduplicate(leaves);
    if us.None? {
      return None, [], Batch(parent, [], arity, k, server);
    }
    b := Batch(parent, us.value, arity, k, server);
    r, sent := VerifySubTree(Batch(parent, us.value, arity, k, server), dummy, tops.levels, first);
    if r.Some? {
      forall l | l in leaves ensures KeyOf(l) in r.value && (r.value[KeyOf(l)] <==> Accepted(l, b, tops, first)) {
        var j :| 0 <= j < |b.us| && b.us[j] == l;
        assert KeyOf(b.us[j]) in r.value;
      }
    }
  }

  /** What the two sub-tree checks worked with. */
  datatype Check = Check(index: Batch, data: Batch, indexTops: Fetched, dataTops: Fetched)

  /** A result has INDEX leaves, and every leaf of it is accepted. */
  ghost predicate Passes(p: Probed, c: Check)
    requires c.index.arity > 0 && c.data.arity > 0
  {
    && p.index != []
    && (forall l | l in p.index :: Accepted(l, c.index, c.indexTops, 0))
    && (forall l | l in p.data :: Accepted(l, c.data, c.dataTops, c.index.k))
  }

  /** No leaf's verdict is negative. */
  method AllTrue(verdicts: map<Key, bool>, leaves: seq<Leaf>) returns (ok: bool)
    requires forall l | l in leaves :: KeyOf(l) in verdicts
    ensures ok <==> forall l | l in leaves :: verdicts[KeyOf(l)]
  {
    ok := true;
    for i := 0 to |leaves|
      invariant ok <==> forall j | 0 <= j < i :: verdicts[KeyOf(leaves[j])]
    {
      if !verdicts[KeyOf(leaves[i])] { ok := false; }
    }
  }

  lemma DecidesOne(results: seq<Probed>, kind: Kind, i: nat, verdicts: map<Key, bool>, b: Batch, tops: Fetched,
                   first: nat)
    requires b.arity > 0 && i < |results| && Decides(verdicts, AllProbes(results, kind), b, tops, first)
    ensures Decides(verdicts, Probes(results[i], kind), b, tops, first)
  {
    forall l | l in Probes(results[i], kind) ensures l in AllProbes(results, kind) {
      ProbesAreIn(results, kind, i, l);
    }
  }

  method JudgeResults(results: seq<Probed>, index: map<Key, bool>, data: map<Key, bool>, ghost c: Check)
    returns (oks: seq<bool>)
    requires c.index.arity > 0 && c.data.arity > 0
    requires Decides(index, AllProbes(results, Index), c.index, c.indexTops, 0)
    requires Decides(data, AllProbes(results, Data), c.data, c.dataTops, c.index.k)
    ensures |oks| == |results| && forall i | 0 <= i < |results| :: oks[i] <==> Passes(results[i], c)
  {
    oks := [];
    for i := 0 to |results|
      invariant |oks| == i && forall j | 0 <= j < i :: oks[j] <==> Passes(results[j], c)
    {
      DecidesOne(results, Index, i, index, c.index, c.indexTops, 0);
      DecidesOne(results, Data, i, data, c.data, c.dataTops, c.index.k);
      var indexOk := AllTrue(index, results[i].index);
      var dataOk := AllTrue(data, results[i].data);
      oks := oks + [results[i].index != [] && indexOk && dataOk];
    }
  }

  /** The check of a batch aborts exactly if one of its sub-trees does; else it says which results pass. */
  ghost predicate Judged(results: seq<Probed>, c: Check, r: Option<seq<bool>>)
    requires c.index.arity > 0 && c.data.arity > 0
  {
    && (r.None? <==>
        Aborts(AllProbes(results, Index), c.index, c.indexTops) || Aborts(AllProbes(results, Data), c.data, c.dataTops))
    && (r.Some? ==> |r.value| == |results| && forall i | 0 <= i < |results| :: r.value[i] <==> Passes(results[i], c))
  }

  /** Both sub-trees are checked over the batch's own leaves; when INDEX aborts, DATA is not reached. */
  ghost predicate CoversBoth(results: seq<Probed>, c: Check) {
    && Covers(c.index, AllProbes(results, Index), c.indexTops)
    && (!Aborts(AllProbes(results, Index), c.index, c.indexTops) ==>
        Covers(c.data, AllProbes(results, Data), c.dataTops))
  }

  /** What the two checks of a batch work with, before its leaves are known. */
  ghost function Blank(parent: Parent, info: Info, index: Server, data: Server, indexTops: Fetched,
                       dataTops: Fetched): Check
  {
    Check(Batch(parent, [], info.arity, info.indexK, index), Batch(parent, [], info.arity, info.dataK, data), indexTops,
          dataTops)
  }

  /** Only the leaves were filled in. */
  ghost predicate FilledIn(blank: Check, c: Check) {
    c == blank.(index := blank.index.(us := c.index.us), data := blank.data.(us := c.data.us))
  }

  /** Fetches and checks INDEX and then DATA, each with at least one full pass. */
  method CheckBoth(results: seq<Probed>, sha: Bytes -> Digest, info: Info, parent: Parent, dummy: (nat, nat) -> nat,
                   index: Server, data: Server, indexBlob: Option<Bytes>, dataBlob: Option<Bytes>)
    returns (r: Option<seq<bool>>, sentIndex: seq<seq<nat>>, sentData: seq<seq<nat>>, ghost c: Check)
    requires info.arity > 0
    ensures FilledIn(Blank(parent, info, index, data, FetchedFrom(sha, info, indexBlob),
                           FetchedFrom(sha, info, dataBlob)), c)
    ensures CoversBoth(results, c) && Judged(results, c, r)
    ensures Padded(sentIndex, info.indexK) && Padded(sentData, info.dataK)
    ensures r.Some? ==> (c.indexTops.Tops? ==> sentIndex != []) && (c.dataTops.Tops? ==> sentData != [])
  {
    sentData := [];
    c := Blank(parent, info, index, data, FetchedFrom(sha, info, indexBlob), FetchedFrom(sha, info, dataBlob));
    var indexVerdicts, dataVerdicts;
    ghost var checked;
    var tops := FetchTreeTops(sha, info, indexBlob);
    indexVerdicts, sentIndex, checked :=
      VerifyLeaves(AllProbes(results, Index), parent, info.arity, info.indexK, index, dummy, tops, 0);
    c := c.(index := checked);
    if indexVerdicts.None? { return None, sentIndex, sentData, c; }
    tops := FetchTreeTops(sha, info, dataBlob);
    dataVerdicts, sentData, checked :=
      VerifyLeaves(AllProbes(results, Data), parent, info.arity, info.dataK, data, dummy, tops, info.indexK);
    c := c.(data := checked);
    if dataVerdicts.None? { return None, sentIndex, sentData, c; }
    var oks := JudgeResults(results, indexVerdicts.value, dataVerdicts.value, c);
    r := Some(oks);
  }

  /**
   Unless there is no leaf at all, both sub-trees are fetched and checked, each
   with at least one full pass even when it has no leaves of its own. A result
   passes exactly when it has INDEX leaves and all its leaves are accepted.
   */
  method VerifyMerkle(results: seq<Probed>, sha: Bytes -> Digest, info: Info, parent: Parent, dummy: (nat, nat) -> nat,
                      index: Server, data: Server, indexBlob: Option<Bytes>, dataBlob: Option<Bytes>)
    returns (r: Option<seq<bool>>, sentIndex: seq<seq<nat>>, sentData: seq<seq<nat>>, ghost c: Check)
    requires info.arity > 0
    ensures if |AllProbes(results, Index)| + |AllProbes(results, Data)| == 0 then
              FilledIn(Blank(parent, info, index, data, Mismatch, Mismatch), c) && sentIndex == sentData == []
            else
              && FilledIn(Blank(parent, info, index, data, FetchedFrom(sha, info, indexBlob),
                                FetchedFrom(sha, info, dataBlob)), c)
              && (r.Some? ==> (c.indexTops.Tops? ==> sentIndex != []) && (c.dataTops.Tops? ==> sentData != []))
    ensures CoversBoth(results, c) && Judged(results, c, r)
    ensures Padded(sentIndex, info.indexK) && Padded(sentData, info.dataK)
  {
    if |AllProbes(results, Index)| + |AllProbes(results, Data)| == 0 {
      NoLeaves(results);
      return Some(seq(|results|, _ => false)), [], [], Blank(parent, info, index, data, Mismatch, Mismatch);
    }
    r, sentIndex, sentData, c := CheckBoth(results, sha, info, parent, dummy, index, data, indexBlob, dataBlob);
  }

  lemma NoLeaves(results: seq<Probed>)
    requires |AllProbes(results, Index)| == 0
    ensures forall i | 0 <= i < |results| :: results[i].index == []
  {
    forall i | 0 <= i < |results| ensures |results[i].index| == 0 {
      ProbesFewer(results, i);
    }
  }

  lemma {:induction false} ProbesFewer(results: seq<Probed>, i: nat)
    requires i < |results|
    ensures |results[i].index| <= |AllProbes(results, Index)|
  {
    var n := |results| - 1;
    if i < n {
      ProbesFewer(results[..n], i);
    }
  }
}
