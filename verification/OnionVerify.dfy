/** One sub-tree's verification: K-padded sibling passes over the distinct leaves, then the walk to each group root. */
module OnionVerify {
  import opened Wrappers
  import opened NaryMerkle

  /** A probed bin: `group` selects the tree, `bin` the leaf in it. */
  datatype Leaf = Leaf(hash: Digest, group: nat, bin: nat)

  type Key = (nat, nat)

  function KeyOf(l: Leaf): Key { (l.group, l.bin) }

  ghost predicate DistinctKeys(ls: seq<Leaf>) {
    forall i, j | 0 <= i < j < |ls| :: KeyOf(ls[i]) != KeyOf(ls[j])
  }

  ghost predicate Conflicting(ls: seq<Leaf>) {
    exists a, b | a in ls && b in ls :: KeyOf(a) == KeyOf(b) && a.hash != b.hash
  }

  /** First occurrences by key; two hashes for one key are an error. */
  method Deduplicate(leaves: seq<Leaf>) returns (r: Option<seq<Leaf>>)
    ensures r.None? <==> Conflicting(leaves)
    ensures r.Some? ==> DistinctKeys(r.value) && forall l :: l in r.value <==> l in leaves
  {
    var unique: seq<Leaf> := [];
    var index: map<Key, nat> := map[];
    for i := 0 to |leaves|
      invariant DistinctKeys(unique) && (forall l :: l in unique <==> l in leaves[..i])
      invariant forall k | k in index :: index[k] < |unique| && KeyOf(unique[index[k]]) == k
      invariant forall j | 0 <= j < |unique| :: KeyOf(unique[j]) in index
    {
      var l := leaves[i];
      assert leaves[..i + 1] == leaves[..i] + [l];
      if KeyOf(l) in index {
        var previous := unique[index[KeyOf(l)]];
        if previous.hash != l.hash {
          assert previous in leaves[..i] && previous in leaves && l in leaves;
          return None;
        }
        assert previous == l;
      } else {
        index := index[KeyOf(l) := |unique|];
        unique := unique + [l];
      }
    }
    assert leaves[..|leaves|] == leaves;
    forall a, b | a in leaves && b in leaves && KeyOf(a) == KeyOf(b) ensures a.hash == b.hash {
      assert a in unique && b in unique;
    }
    return Some(unique);
  }

  /** How many earlier leaves share the group of leaf `i`: the pass that handles it. */
  function PassOf(us: seq<Leaf>, i: nat): nat
    requires i < |us|
  {
    InGroup(us[..i], us[i].group)
  }

  function InGroup(us: seq<Leaf>, g: nat): nat {
    if us == [] then 0 else InGroup(us[..|us| - 1], g) + (if us[|us| - 1].group == g then 1 else 0)
  }

  function Lookup(byGroup: map<nat, seq<nat>>, g: nat): seq<nat> {
    if g in byGroup then byGroup[g] else []
  }

  /** Among the first `n` leaves: each list is as long as its group, and holds at a pass the leaf of that pass. */
  ghost predicate Sizes(us: seq<Leaf>, n: nat, byGroup: map<nat, seq<nat>>)
    requires n <= |us|
  {
    forall g: nat :: |Lookup(byGroup, g)| == InGroup(us[..n], g)
  }

  ghost predicate Members(us: seq<Leaf>, n: nat, byGroup: map<nat, seq<nat>>)
    requires n <= |us|
  {
    forall g: nat, p: nat | p < |Lookup(byGroup, g)| ::
      Lookup(byGroup, g)[p] < n && us[Lookup(byGroup, g)[p]].group == g && PassOf(us, Lookup(byGroup, g)[p]) == p
  }

  /** Leaf `i` is on its group's list, at its pass. */
  ghost predicate Listed(us: seq<Leaf>, i: nat, byGroup: map<nat, seq<nat>>)
    requires i < |us|
  {
    PassOf(us, i) < |Lookup(byGroup, us[i].group)| && Lookup(byGroup, us[i].group)[PassOf(us, i)] == i
  }

  ghost predicate Grouped(us: seq<Leaf>, n: nat, byGroup: map<nat, seq<nat>>)
    requires n <= |us|
  {
    Sizes(us, n, byGroup) && Members(us, n, byGroup) && forall i: nat | i < n :: Listed(us, i, byGroup)
  }

  lemma InGroupNext(us: seq<Leaf>, i: nat, g: nat)
    requires i < |us|
    ensures InGroup(us[..i + 1], g) == InGroup(us[..i], g) + (if us[i].group == g then 1 else 0)
  {
    assert us[..i + 1][..i] == us[..i];
  }

  /** The lists with leaf `i` added to its group. */
  function Extended(us: seq<Leaf>, i: nat, byGroup: map<nat, seq<nat>>): map<nat, seq<nat>>
    requires i < |us|
  {
    byGroup[us[i].group := Lookup(byGroup, us[i].group) + [i]]
  }

  lemma SizesGrow(us: seq<Leaf>, i: nat, byGroup: map<nat, seq<nat>>)
    requires i < |us| && Sizes(us, i, byGroup)
    ensures Sizes(us, i + 1, Extended(us, i, byGroup)) && PassOf(us, i) == |Lookup(byGroup, us[i].group)|
  {
    var more := Extended(us, i, byGroup);
    forall h: nat ensures |Lookup(more, h)| == InGroup(us[..i + 1], h) {
      InGroupNext(us, i, h);
      assert |Lookup(byGroup, h)| == InGroup(us[..i], h);
    }
  }

  lemma MembersGrow(us: seq<Leaf>, i: nat, byGroup: map<nat, seq<nat>>)
    requires i < |us| && Members(us, i, byGroup) && PassOf(us, i) == |Lookup(byGroup, us[i].group)|
    ensures Members(us, i + 1, Extended(us, i, byGroup))
  {
    var more := Extended(us, i, byGroup);
    forall h: nat, p: nat | p < |Lookup(more, h)|
      ensures Lookup(more, h)[p] < i + 1 && us[Lookup(more, h)[p]].group == h && PassOf(us, Lookup(more, h)[p]) == p
    {
      if p < |Lookup(byGroup, h)| { assert Lookup(more, h)[p] == Lookup(byGroup, h)[p]; }
    }
  }

  lemma StaysListed(us: seq<Leaf>, i: nat, byGroup: map<nat, seq<nat>>, j: nat)
    requires j < i < |us| && Listed(us, j, byGroup)
    ensures Listed(us, j, Extended(us, i, byGroup))
  {
  }

  lemma GroupOne(us: seq<Leaf>, i: nat, byGroup: map<nat, seq<nat>>)
    requires i < |us| && Grouped(us, i, byGroup)
    ensures Grouped(us, i + 1, Extended(us, i, byGroup))
  {
    SizesGrow(us, i, byGroup);
    MembersGrow(us, i, byGroup);
    forall j: nat | j < i + 1 ensures Listed(us, j, Extended(us, i, byGroup)) {
      if j < i { StaysListed(us, i, byGroup, j); }
    }
  }

  method GroupLeaves(us: seq<Leaf>) returns (byGroup: map<nat, seq<nat>>)
    ensures Grouped(us, |us|, byGroup)
  {
    byGroup := map[];
    for i := 0 to |us|
      invariant Grouped(us, i, byGroup)
    {
      GroupOne(us, i, byGroup);
      byGroup := Extended(us, i, byGroup);
    }
  }

  /** The number of passes: one at least, and one for every leaf of the fullest group. */
  method CountPasses(byGroup: map<nat, seq<nat>>) returns (passes: nat)
    ensures passes >= 1 && (forall g: nat :: |Lookup(byGroup, g)| <= passes)
    ensures passes == 1 || exists g: nat :: |Lookup(byGroup, g)| == passes
  {
    passes := 1;
    var todo := byGroup.Keys;
    while todo != {}
      invariant todo <= byGroup.Keys && passes >= 1
      invariant forall g: nat | g !in todo :: |Lookup(byGroup, g)| <= passes
      invariant passes == 1 || exists g: nat :: |Lookup(byGroup, g)| == passes
      decreases |todo|
    {
      var g: nat :| g in todo;
      assert Lookup(byGroup, g) == byGroup[g];
      if |byGroup[g]| > passes {
        passes := |byGroup[g]|;
      }
      todo := todo - {g};
    }
  }

  /** The row of the sibling database that holds a bin. */
  function RowIndex(bin: nat, arity: nat): nat
    requires arity > 0
  {
    bin / arity
  }

  /**
   What comes back: whether the response to a pass can be decoded, and the row
   that the query of a pass for a group brings, if it can be unpacked.
   */
  datatype Server = Server(framed: nat -> bool, answers: (nat, nat) -> Option<Level>)

  /** One sub-tree's distinct leaves, its shape, and the server that is asked. */
  datatype Batch = Batch(parent: Parent, us: seq<Leaf>, arity: nat, k: nat, server: Server)

  /** The answer to the one query that is about leaf `i`. */
  function AnswerTo(b: Batch, i: nat): Option<Level>
    requires i < |b.us|
  {
    b.server.answers(PassOf(b.us, i), b.us[i].group)
  }

  function RowFor(b: Batch, i: nat): Level
    requires i < |b.us|
  {
    if AnswerTo(b, i).Some? then AnswerTo(b, i).value else []
  }

  /** Leaf `i` is not asked about, or its answer can be unpacked. */
  predicate Readable(b: Batch, i: nat)
    requires i < |b.us|
  {
    b.us[i].group >= b.k || AnswerTo(b, i).Some?
  }

  /** Every response can be decoded, the first one and those to the passes of the leaves, and every answer unpacked. */
  ghost predicate AllReadable(b: Batch) {
    b.server.framed(0) && forall i | 0 <= i < |b.us| :: Readable(b, i) && b.server.framed(PassOf(b.us, i))
  }

  /** The running state of one leaf. */
  datatype Progress = Progress(hash: Digest, idx: nat, failed: bool)

  function Untouched(b: Batch, i: nat): Progress
    requires i < |b.us|
  {
    Progress(b.us[i].hash, b.us[i].bin, false)
  }

  /** A leaf after its one pass: folded with its own answer, or failed when its group was not queried. */
  function Handled(b: Batch, i: nat): Progress
    requires i < |b.us| && b.arity > 0
  {
    var l := b.us[i];
    if l.group >= b.k then Progress(l.hash, l.bin, true)
    else Progress(Folded(b.parent, RowFor(b, i), b.arity, l.hash, l.bin), RowIndex(l.bin, b.arity), false)
  }

  /** The rows asked for in one pass, one per group: the leaf's own row where there is one, else a random row. */
  ghost predicate AsksFor(us: seq<Leaf>, arity: nat, pass: nat, rows: seq<nat>)
    requires arity > 0
  {
    forall i | 0 <= i < |us| && us[i].group < |rows| && PassOf(us, i) == pass ::
      rows[us[i].group] == RowIndex(us[i].bin, arity)
  }

  method PassQueries(us: seq<Leaf>, byGroup: map<nat, seq<nat>>, pass: nat, k: nat, arity: nat, dummy: nat -> nat)
    returns (rows: seq<nat>)
    requires Grouped(us, |us|, byGroup) && arity > 0
    ensures |rows| == k && AsksFor(us, arity, pass, rows)
  {
    rows := [];
    for g := 0 to k
      invariant |rows| == g && AsksFor(us, arity, pass, rows)
    {
      var list := Lookup(byGroup, g);
      if pass < |list| {
        rows := rows + [RowIndex(us[list[pass]].bin, arity)];
      } else {
        rows := rows + [dummy(g)];
      }
      forall i | 0 <= i < |us| && us[i].group == g && PassOf(us, i) == pass
        ensures rows[g] == RowIndex(us[i].bin, arity)
      {
        assert Listed(us, i, byGroup);
      }
    }
  }

  /** The leaves whose pass is over are handled, the others untouched. */
  ghost predicate InStep(b: Batch, state: seq<Progress>, done: iset<nat>)
    requires b.arity > 0
  {
    |state| == |b.us| && forall i | 0 <= i < |b.us| :: state[i] == if i in done then Handled(b, i) else Untouched(b, i)
  }

  ghost function DoneBefore(b: Batch, pass: nat): iset<nat> {
    iset i: nat | i < |b.us| && PassOf(b.us, i) < pass
  }

  /** The leaves with pass number `pass` whose groups are no longer in `todo`, and all of earlier passes. */
  ghost function DoneIn(b: Batch, pass: nat, todo: set<nat>): iset<nat> {
    iset i: nat | i < |b.us| && (PassOf(b.us, i) < pass || (PassOf(b.us, i) == pass && b.us[i].group !in todo))
  }

  /** Done leaves were readable. */
  ghost predicate ReadIn(b: Batch, done: iset<nat>) {
    forall i: nat | i in done && i < |b.us| :: Readable(b, i)
  }

  /** Folds every group's leaf of this pass; an answer that cannot be unpacked aborts. */
  method FoldPass(b: Batch, byGroup: map<nat, seq<nat>>, pass: nat, state: array<Progress>) returns (ok: bool)
    requires b.arity > 0 && Grouped(b.us, |b.us|, byGroup)
    requires InStep(b, state[..], DoneBefore(b, pass)) && ReadIn(b, DoneBefore(b, pass))
    modifies state
    ensures ok ==> InStep(b, state[..], DoneBefore(b, pass + 1)) && ReadIn(b, DoneBefore(b, pass + 1))
    ensures !ok ==> !AllReadable(b)
  {
    var todo := byGroup.Keys;
    forall i: nat | i < |b.us| ensures b.us[i].group in byGroup {
      assert Listed(b.us, i, byGroup);
    }
    assert DoneIn(b, pass, todo) == DoneBefore(b, pass);
    while todo != {}
      invariant todo <= byGroup.Keys && InStep(b, state[..], DoneIn(b, pass, todo)) && ReadIn(b, DoneIn(b, pass, todo))
      decreases |todo|
    {
      var g: nat :| g in todo;
      ghost var before := todo;
      todo := todo - {g};
      Only(b.us, byGroup, g, pass);
      if pass < |byGroup[g]| {
        var item := byGroup[g][pass];
        assert Lookup(byGroup, g)[pass] == item;
        ok := FoldOne(b, item, pass, state, DoneIn(b, pass, before));
        if !ok {
          return;
        }
        assert DoneIn(b, pass, todo) == DoneIn(b, pass, before) + iset{item};
      } else {
        assert DoneIn(b, pass, todo) == DoneIn(b, pass, before);
      }
    }
    assert DoneIn(b, pass, todo) == DoneBefore(b, pass + 1);
    ok := true;
  }

  /** Folds one leaf with the answer of its pass. */
  method FoldOne(b: Batch, item: nat, pass: nat, state: array<Progress>, ghost done: iset<nat>) returns (ok: bool)
    requires b.arity > 0 && item < |b.us| && PassOf(b.us, item) == pass && item !in done
    requires InStep(b, state[..], done) && ReadIn(b, done)
    modifies state
    ensures ok ==> InStep(b, state[..], done + iset{item}) && ReadIn(b, done + iset{item})
    ensures !ok ==> !AllReadable(b)
  {
    var g := b.us[item].group;
    assert state[..][item] == Untouched(b, item);
    if g >= b.k {
      state[item] := state[item].(failed := true);
      return true;
    }
    var row := b.server.answers(pass, g);
    if row.None? {
      assert !Readable(b, item);
      return false;
    }
    var hash, idx := state[item].hash, state[item].idx;
    state[item] := Progress(Folded(b.parent, row.value, b.arity, hash, idx), RowIndex(idx, b.arity), false);
    return true;
  }

  /** A group has at most one leaf in a pass: the one its list names. */
  lemma Only(us: seq<Leaf>, byGroup: map<nat, seq<nat>>, g: nat, pass: nat)
    requires Grouped(us, |us|, byGroup)
    ensures forall i: nat | i < |us| && us[i].group == g && PassOf(us, i) == pass ::
              pass < |Lookup(byGroup, g)| && i == Lookup(byGroup, g)[pass]
  {
    forall i: nat | i < |us| && us[i].group == g && PassOf(us, i) == pass
      ensures pass < |Lookup(byGroup, g)| && i == Lookup(byGroup, g)[pass]
    {
      assert Listed(us, i, byGroup);
    }
  }

  /** The first `n` passes are over: their responses were read and their leaves are handled. */
  ghost predicate Passed(b: Batch, state: seq<Progress>, n: nat)
    requires b.arity > 0
  {
    InStep(b, state, DoneBefore(b, n)) && ReadIn(b, DoneBefore(b, n)) && forall p: nat | p < n :: b.server.framed(p)
  }

  /** Every pass so far sent one query per group, each leaf's own row in its pass. */
  ghost predicate AllAsked(b: Batch, sent: seq<seq<nat>>)
    requires b.arity > 0
  {
    forall p | 0 <= p < |sent| :: |sent[p]| == b.k && AsksFor(b.us, b.arity, p, sent[p])
  }

  lemma NoneDone(b: Batch, state: seq<Progress>)
    requires b.arity > 0 && |state| == |b.us| && forall i | 0 <= i < |b.us| :: state[i] == Untouched(b, i)
    ensures Passed(b, state, 0)
  {
  }

  lemma AllDone(b: Batch, byGroup: map<nat, seq<nat>>, passes: nat, state: seq<Progress>)
    requires b.arity > 0 && Grouped(b.us, |b.us|, byGroup) && forall g: nat :: |Lookup(byGroup, g)| <= passes
    requires passes > 0 && Passed(b, state, passes)
    ensures AllReadable(b) && forall i | 0 <= i < |b.us| :: state[i] == Handled(b, i) && PassOf(b.us, i) < passes
  {
    forall i: nat | i < |b.us| ensures PassOf(b.us, i) < passes && i in DoneBefore(b, passes) {
      assert Listed(b.us, i, byGroup);
    }
  }

  /** Reads the response to one pass and folds its leaves; a response that cannot be read aborts. */
  method ReadPass(b: Batch, byGroup: map<nat, seq<nat>>, passes: nat, pass: nat, state: array<Progress>)
    returns (ok: bool)
    requires b.arity > 0 && Grouped(b.us, |b.us|, byGroup) && pass < passes && Passed(b, state[..], pass)
    requires passes == 1 || exists g: nat :: |Lookup(byGroup, g)| == passes
    modifies state
    ensures ok ==> Passed(b, state[..], pass + 1)
    ensures !ok ==> !AllReadable(b)
  {
    if !b.server.framed(pass) {
      PassOfSome(b.us, byGroup, passes, pass);
      return false;
    }
    ok := FoldPass(b, byGroup, pass, state);
  }

  /** Every pass but the first is some leaf's. */
  lemma PassOfSome(us: seq<Leaf>, byGroup: map<nat, seq<nat>>, passes: nat, pass: nat)
    requires Grouped(us, |us|, byGroup) && pass < passes
    requires passes == 1 || exists g: nat :: |Lookup(byGroup, g)| == passes
    ensures pass == 0 || exists i | 0 <= i < |us| :: PassOf(us, i) == pass
  {
    if pass > 0 {
      var g: nat :| |Lookup(byGroup, g)| == passes;
      assert PassOf(us, Lookup(byGroup, g)[pass]) == pass;
    }
  }

  /**
   All sibling passes. Every pass sends `k` queries. Unless a response cannot be
   read, there is at least one pass and every leaf is folded exactly once,
   with the answer to the query for its own row in its own group; a leaf
   outside the `k` groups fails.
   */
  method SiblingPasses(b: Batch, dummy: (nat, nat) -> nat) returns (r: Option<seq<Progress>>, sent: seq<seq<nat>>)
    requires b.arity > 0
    ensures r.Some? <==> AllReadable(b)
    ensures r.Some? ==> |r.value| == |b.us| && forall i | 0 <= i < |b.us| :: r.value[i] == Handled(b, i)
    ensures |sent| >= 1 && AllAsked(b, sent)
    ensures r.Some? ==> forall i | 0 <= i < |b.us| :: PassOf(b.us, i) < |sent|
  {
    var n := |b.us|;
    var progress := new Progress[n](i requires 0 <= i < n => Progress(b.us[i].hash, b.us[i].bin, false));
    var byGroup := GroupLeaves(b.us);
    var passes := CountPasses(byGroup);
    sent := [];
    NoneDone(b, progress[..]);
    for pass := 0 to passes
      invariant fresh(progress) && Passed(b, progress[..], pass) && |sent| == pass && AllAsked(b, sent)
    {
      var rows := PassQueries(b.us, byGroup, pass, b.k, b.arity, g => dummy(pass, g));
      sent := sent + [rows];
      var ok := ReadPass(b, byGroup, passes, pass, progress);
      if !ok {
        return None, sent;
      }
    }
    AllDone(b, byGroup, passes, progress[..]);
    r := Some(progress[..]);
  }

  /** The verdict for one distinct leaf; `first` is where the sub-tree's trees start among the tops. */
  ghost predicate LeafAccepted(b: Batch, i: nat, tops: seq<seq<Level>>, first: nat)
    requires b.arity > 0 && i < |b.us|
  {
    var l := b.us[i];
    && l.group < b.k && AnswerTo(b, i).Some? && first + l.group < |tops|
    && Reconstructed(b.parent, RowFor(b, i), tops[first + l.group], b.arity, l.hash, l.bin)
      == Root(tops[first + l.group])
  }

  /**
   The verdict map of a sub-tree: one verdict per key, each from that leaf's
   own answers and its group's tree-top; none at all if an answer cannot be
   unpacked. At least one full pass is sent in any case.
   */
  method VerifySubTree(b: Batch, dummy: (nat, nat) -> nat, tops: seq<seq<Level>>, first: nat)
    returns (r: Option<map<Key, bool>>, sent: seq<seq<nat>>)
    requires b.arity > 0 && DistinctKeys(b.us)
    ensures r.Some? <==> AllReadable(b)
    ensures r.Some? ==> forall k :: k in r.value <==> exists i | 0 <= i < |b.us| :: KeyOf(b.us[i]) == k
    ensures r.Some? ==> forall i | 0 <= i < |b.us| :: r.value[KeyOf(b.us[i])] <==> LeafAccepted(b, i, tops, first)
    ensures |sent| >= 1 && forall p | 0 <= p < |sent| :: |sent[p]| == b.k
  {
    var state;
    state, sent := SiblingPasses(b, dummy);
    if state.None? {
      return None, sent;
    }
    var verdicts, oks := WalkLeaves(b, state.value, tops, first);
    r := Some(verdicts);
  }

  /** The leaves that have a verdict, the first ones, have the verdicts `oks`. */
  ghost predicate Verdicts(us: seq<Leaf>, oks: seq<bool>, verdicts: map<Key, bool>) {
    && |oks| <= |us|
    && (forall k :: k in verdicts <==> exists i | 0 <= i < |oks| :: KeyOf(us[i]) == k)
    && (forall i | 0 <= i < |oks| :: verdicts[KeyOf(us[i])] == oks[i])
  }

  lemma OneVerdict(us: seq<Leaf>, oks: seq<bool>, verdicts: map<Key, bool>, ok: bool)
    requires DistinctKeys(us) && |oks| < |us| && Verdicts(us, oks, verdicts)
    ensures Verdicts(us, oks + [ok], verdicts[KeyOf(us[|oks|]) := ok])
  {
  }

  ghost predicate Agree(b: Batch, tops: seq<seq<Level>>, first: nat, oks: seq<bool>)
    requires b.arity > 0
  {
    |oks| <= |b.us| && forall i | 0 <= i < |oks| :: oks[i] <==> LeafAccepted(b, i, tops, first)
  }

  lemma AgreeNext(b: Batch, tops: seq<seq<Level>>, first: nat, oks: seq<bool>, ok: bool)
    requires b.arity > 0 && Agree(b, tops, first, oks) && |oks| < |b.us|
             && (ok <==> LeafAccepted(b, |oks|, tops, first))
    ensures Agree(b, tops, first, oks + [ok])
  {
  }

  /** Walks every handled leaf's tree-top to its group root. */
  method WalkLeaves(b: Batch, state: seq<Progress>, tops: seq<seq<Level>>, first: nat)
    returns (verdicts: map<Key, bool>, ghost oks: seq<bool>)
    requires b.arity > 0 && DistinctKeys(b.us) && AllReadable(b)
    requires |state| == |b.us| && forall i | 0 <= i < |b.us| :: state[i] == Handled(b, i)
    ensures |oks| == |b.us| && Verdicts(b.us, oks, verdicts) && Agree(b, tops, first, oks)
  {
    verdicts, oks := map[], [];
    for i := 0 to |b.us|
      invariant |oks| == i && Verdicts(b.us, oks, verdicts) && Agree(b, tops, first, oks)
    {
      assert Readable(b, i);
      var ok := WalkLeaf(b, i, state[i], tops, first);
      AgreeNext(b, tops, first, oks, ok);
      OneVerdict(b.us, oks, verdicts, ok);
      verdicts, oks := verdicts[KeyOf(b.us[i]) := ok], oks + [ok];
    }
  }

  method WalkLeaf(b: Batch, i: nat, state: Progress, tops: seq<seq<Level>>, first: nat) returns (ok: bool)
    requires b.arity > 0 && i < |b.us| && Readable(b, i) && state == Handled(b, i)
    ensures ok <==> LeafAccepted(b, i, tops, first)
  {
    if state.failed || first + b.us[i].group >= |tops| {
      return false;
    }
    var top := tops[first + b.us[i].group];
    var walked := WalkTreeTopToRoot(b.parent, state.hash, state.idx, top, b.arity);
    ok := walked == Root(top);
  }
}
