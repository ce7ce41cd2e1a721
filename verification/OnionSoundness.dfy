/** What the Merkle check of a batch guarantees: which hashes it can accept, and that honest servers pass it. */
module OnionSoundness {
  import opened Wrappers
  import opened Arithmetic
  import opened NaryMerkle
  import opened OnionAnchor
  import opened OnionTops
  import opened OnionVerify
  import opened OnionBatch

  /** One tree per group, each with a level of leaves below the cached top. */
  ghost predicate Forest(parent: Parent, trees: seq<seq<Level>>, arity: nat) {
    forall g | 0 <= g < |trees| :: IsTree(parent, trees[g], arity) && |trees[g]| > 1
  }

  /**
   The blob parses to the tops, which passed the anchor check against a forest's
   super root, and the two lists of roots do not collide.
   */
  ghost predicate AnchoredTo(sha: Bytes -> Digest, info: Info, blob: Bytes, tops: seq<TreeTop>,
                             parent: Parent, trees: seq<seq<Level>>) {
    && Forest(parent, trees, info.arity) && |trees| == info.indexK + info.dataK && info.arity > 0
    && Parsed(blob) == Some(tops) && Anchored(sha, info, blob, tops)
    && sha(Concat(Roots(trees))) == info.superRoot && AllDigests(Roots(trees))
    && (sha(Concat(Roots(LevelsOf(tops)))) == sha(Concat(Roots(trees))) ==>
          Concat(Roots(LevelsOf(tops))) == Concat(Roots(trees)))
  }

  /** What was parsed has roots of 32 bytes. */
  lemma ParsedRoots(blob: Bytes, tops: seq<TreeTop>)
    requires Parsed(blob) == Some(tops) && forall t | 0 <= t < |tops| :: HasRoot(tops[t].levels)
    ensures AllDigests(Roots(LevelsOf(tops)))
  {
    ParsedStorable(blob);
    forall t | 0 <= t < |tops| ensures |Root(tops[t].levels)| == 32 {
      var last := |tops[t].levels| - 1;
      assert StorableLevel(tops[t].levels[last]);
    }
  }

  lemma TreeOfGroup(sha: Bytes -> Digest, info: Info, blob: Bytes, tops: seq<TreeTop>,
                    parent: Parent, trees: seq<seq<Level>>, t: nat)
    requires AnchoredTo(sha, info, blob, tops, parent, trees) && t < |trees|
    ensures |tops| == |trees| && Root(tops[t].levels) == Root(trees[t]) && IsTree(parent, trees[t], info.arity)
  {
    ParsedRoots(blob, tops);
    AnchorFixesRoots(sha, info, blob, tops, trees);
  }

  /**
   Nothing the verifier hashes for leaf `i` collides with the committed path
   from level `m` up, or is the zero hash off it.
   */
  ghost predicate Clean(b: Batch, i: nat, top: seq<Level>, tree: seq<Level>, m: nat)
    requires b.arity > 0 && i < |b.us| && m <= |tree|
  {
    var inputs := VerifierInputs(b.parent, RowFor(b, i), top, b.arity, b.us[i].hash, b.us[i].bin);
    && NoCollision(b.parent, inputs, PathRows(tree[m..], b.arity, b.us[i].bin))
    && (OnPath(tree[m..], b.arity, b.us[i].bin) || NoneIsZero(b.parent, inputs))
  }

  lemma LeafIsNode(b: Batch, i: nat, top: seq<Level>, tree: seq<Level>, m: nat)
    requires b.arity > 0 && i < |b.us| && IsTree(b.parent, tree, b.arity) && top != [] && |top| + 1 + m == |tree|
    requires Reconstructed(b.parent, RowFor(b, i), top, b.arity, b.us[i].hash, b.us[i].bin) == Root(tree)
    requires Clean(b, i, top, tree, m)
    ensures OnPath(tree[m..], b.arity, b.us[i].bin)
    ensures b.us[i].hash == Child(tree[m], Landing(|tree| - m, b.arity, b.us[i].bin))
  {
    AcceptedIsNode(b.parent, tree, RowFor(b, i), top, b.arity, b.us[i].hash, b.us[i].bin, m);
  }

  /**
   Every leaf the check accepts, with tops whose depth nobody checked, is the
   committed node where its bin lands, as many levels up as its top is short.
   */
  lemma {:induction false} VerifiedLeafIsNode(b: Batch, i: nat, first: nat, trees: seq<seq<Level>>,
                           sha: Bytes -> Digest, info: Info, blob: Bytes, tops: seq<TreeTop>, t: nat, m: nat)
    requires AnchoredTo(sha, info, blob, tops, b.parent, trees) && b.arity == info.arity
    requires i < |b.us| && LeafAccepted(b, i, LevelsOf(tops), first) && t == first + b.us[i].group
    requires |tops[t].levels| + 1 + m == |trees[t]| && Clean(b, i, tops[t].levels, trees[t], m)
    ensures OnPath(trees[t][m..], b.arity, b.us[i].bin)
    ensures b.us[i].hash == Child(trees[t][m], Landing(|trees[t]| - m, b.arity, b.us[i].bin))
  {
    TreeOfGroup(sha, info, blob, tops, b.parent, trees, t);
    LeafIsNode(b, i, tops[t].levels, trees[t], m);
  }

  /** With tops of the committed depth, an accepted leaf is the committed leaf at its bin. */
  lemma {:induction false} VerifiedLeafIsCommitted(b: Batch, i: nat, first: nat, trees: seq<seq<Level>>,
                                sha: Bytes -> Digest, info: Info, blob: Bytes, tops: seq<TreeTop>, t: nat)
    requires AnchoredTo(sha, info, blob, tops, b.parent, trees) && b.arity == info.arity
    requires i < |b.us| && LeafAccepted(b, i, LevelsOf(tops), first) && t == first + b.us[i].group
    requires |tops[t].levels| + 1 == |trees[t]| && b.us[i].bin < |trees[t][0]|
    requires NoCollision(b.parent,
                         VerifierInputs(b.parent, RowFor(b, i), tops[t].levels, b.arity, b.us[i].hash, b.us[i].bin),
                         PathRows(trees[t], b.arity, b.us[i].bin))
    ensures b.us[i].hash == trees[t][0][b.us[i].bin]
  {
    assert trees[t][0..] == trees[t];
    InRangeLands(b.parent, trees[t], b.arity, b.us[i].bin);
    VerifiedLeafIsNode(b, i, first, trees, sha, info, blob, tops, t, 0);
  }

  // ----- a whole batch

  /** The leaf's bin is one of the tree's, and nothing hashed for it collides with the committed path. */
  ghost predicate Sound(b: Batch, j: nat, first: nat, tops: seq<TreeTop>, trees: seq<seq<Level>>)
    requires b.arity > 0 && j < |b.us| && first + b.us[j].group < |tops| && |tops| == |trees|
  {
    var l, t := b.us[j], first + b.us[j].group;
    && trees[t] != [] && l.bin < |trees[t][0]|
    && NoCollision(b.parent, VerifierInputs(b.parent, RowFor(b, j), tops[t].levels, b.arity, l.hash, l.bin),
                   PathRows(trees[t], b.arity, l.bin))
  }

  /** The tops have the committed depth, and every leaf asked about is sound. */
  ghost predicate AllSound(b: Batch, first: nat, tops: seq<TreeTop>, trees: seq<seq<Level>>)
    requires b.arity > 0
  {
    && |tops| == |trees| && (forall t | 0 <= t < |tops| :: |tops[t].levels| + 1 == |trees[t]|)
    && forall j | 0 <= j < |b.us| && first + b.us[j].group < |tops| :: Sound(b, j, first, tops, trees)
  }

  /** One sub-tree, checked with anchored tops against the forest. */
  ghost predicate Grounded(sha: Bytes -> Digest, info: Info, b: Batch, first: nat, fetched: Fetched,
                           blob: Bytes, tops: seq<TreeTop>, trees: seq<seq<Level>>) {
    && AnchoredTo(sha, info, blob, tops, b.parent, trees) && b.arity == info.arity && fetched == Tops(LevelsOf(tops))
    && AllSound(b, first, tops, trees)
  }

  lemma {:induction false} SoundLeafIsHonest(sha: Bytes -> Digest, info: Info, b: Batch, first: nat, blob: Bytes,
                                             tops: seq<TreeTop>, trees: seq<seq<Level>>, j: nat, t: nat)
    requires AnchoredTo(sha, info, blob, tops, b.parent, trees) && b.arity == info.arity && b.arity > 0
    requires j < |b.us| && LeafAccepted(b, j, LevelsOf(tops), first)
    requires t == first + b.us[j].group < |tops| == |trees| && |tops[t].levels| + 1 == |trees[t]|
    requires Sound(b, j, first, tops, trees)
    ensures HonestLeaf(b.us[j], trees, b.k, first)
  {
    VerifiedLeafIsCommitted(b, j, first, trees, sha, info, blob, tops, t);
  }

  lemma {:induction false} AcceptedIsHonest(sha: Bytes -> Digest, info: Info, b: Batch, first: nat, fetched: Fetched,
                                            blob: Bytes, tops: seq<TreeTop>, trees: seq<seq<Level>>, l: Leaf)
    requires b.arity > 0 && Grounded(sha, info, b, first, fetched, blob, tops, trees) && Accepted(l, b, fetched, first)
    ensures HonestLeaf(l, trees, b.k, first)
  {
    var j :| 0 <= j < |b.us| && b.us[j] == l && LeafAccepted(b, j, fetched.levels, first);
    SoundLeafIsHonest(sha, info, b, first, blob, tops, trees, j, first + l.group);
  }

  /**
   If a result passes, every INDEX and DATA leaf of it is the committed leaf at
   its bin, whatever rows and inner levels the servers made up.
   */
  lemma {:induction false} PassedIsCommitted(results: seq<Probed>, c: Check, r: Option<seq<bool>>, i: nat,
                                             sha: Bytes -> Digest, info: Info, trees: seq<seq<Level>>,
                                             indexBlob: Bytes, indexTops: seq<TreeTop>,
                                             dataBlob: Bytes, dataTops: seq<TreeTop>)
    requires c.index.arity > 0 && c.data.arity > 0 && Judged(results, c, r) && r.Some? && i < |results| && r.value[i]
    requires Grounded(sha, info, c.index, 0, c.indexTops, indexBlob, indexTops, trees)
    requires Grounded(sha, info, c.data, c.index.k, c.dataTops, dataBlob, dataTops, trees)
    ensures results[i].index != []
    ensures forall l | l in results[i].index :: HonestLeaf(l, trees, c.index.k, 0)
    ensures forall l | l in results[i].data :: HonestLeaf(l, trees, c.data.k, c.index.k)
  {
    assert Passes(results[i], c);
    forall l | l in results[i].index ensures HonestLeaf(l, trees, c.index.k, 0) {
      AcceptedIsHonest(sha, info, c.index, 0, c.indexTops, indexBlob, indexTops, trees, l);
    }
    forall l | l in results[i].data ensures HonestLeaf(l, trees, c.data.k, c.index.k) {
      AcceptedIsHonest(sha, info, c.data, c.index.k, c.dataTops, dataBlob, dataTops, trees, l);
    }
  }

  // ----- exactly which leaves can be verified

  /** A batch of one leaf whose only answer is `row`. */
  function Single(parent: Parent, l: Leaf, arity: nat, k: nat, row: Level): Batch {
    Batch(parent, [l], arity, k, Server(pass => true, (pass, g) => Some(row)))
  }

  /** What a leaf is to be verified against: the committed tree of its group, with a top `m` levels short. */
  datatype Target = Target(parent: Parent, tree: seq<Level>, k: nat, leaf: Leaf, first: nat, m: nat)

  /** The leaf is the committed node of level `m` where its bin lands. */
  ghost predicate IsLanding(g: Target, arity: nat)
    requires arity > 0 && g.m < |g.tree|
  {
    && OnPath(g.tree[g.m..], arity, g.leaf.bin)
    && g.leaf.hash == Child(g.tree[g.m], Landing(|g.tree| - g.m, arity, g.leaf.bin))
  }

  ghost predicate Fits(info: Info, tops: seq<TreeTop>, g: Target) {
    info.arity > 0 && g.m + 1 < |g.tree| && g.first + g.leaf.group < |tops| && g.leaf.group < g.k
  }

  /**
   A blob that parses to these tops but for the leaf's group, which has `top`,
   passes the anchor check, and with `row` the leaf's check passes, without
   collisions. The blob's size and hash are declared by the server as well.
   */
  ghost predicate VerifiesWith(sha: Bytes -> Digest, info: Info, tops: seq<TreeTop>, g: Target,
                               row: Level, top: seq<Level>, blob: Bytes)
    requires Fits(info, tops, g)
  {
    var shown := tops[g.first + g.leaf.group := TreeTop(info.arity, top)];
    && AcceptedWith(g.parent, g.tree, info.arity, g.m, g.leaf.hash, g.leaf.bin, row, top)
    && Parsed(blob) == Some(shown) && Anchored(sha, Declared(sha, info, blob), blob, shown)
    && LeafAccepted(Single(g.parent, g.leaf, info.arity, g.k, row), 0, LevelsOf(shown), g.first)
  }

  ghost predicate CanVerify(sha: Bytes -> Digest, info: Info, tops: seq<TreeTop>, g: Target)
    requires Fits(info, tops, g)
  {
    exists row, top, blob :: VerifiesWith(sha, info, tops, g, row, top, blob)
  }

  /**
   A top of the tree can be written down: 32-byte nodes, at most 255 levels,
   and a bin that fits 32 bits with its row.
   */
  ghost predicate Servable(tree: seq<Level>, arity: nat, bin: nat) {
    |tree| <= 256 && bin + arity < 0x1_0000_0000 && forall l | 0 <= l < |tree| :: AllDigests(tree[l])
  }

  lemma RowDigests(level: Level, arity: nat, r: nat, start: nat)
    requires AllDigests(level)
    ensures AllDigests(Placed(Row(level, arity, r), start))
  {
    var row := Row(level, arity, r);
    var placed := Placed(row, start);
    forall i | 0 <= i < |placed| ensures |placed[i]| == 32 {
      if i >= start {
        assert placed[i] == row[i - start] == Child(level, RowBegin(r, arity) + (i - start));
      } else {
        assert placed[i] == ZeroHash();
      }
    }
  }

  lemma {:induction false} PathTopStorable(parent: Parent, levels: seq<Level>, arity: nat, idx: nat)
    requires IsTree(parent, levels, arity) && idx + arity < 0x1_0000_0000
    requires forall l | 0 <= l < |levels| :: AllDigests(levels[l])
    ensures |PathTop(levels, arity, idx)| == |levels|
    ensures forall l | 0 <= l < |levels| :: StorableLevel(PathTop(levels, arity, idx)[l])
    decreases |levels|
  {
    if |levels| > 1 {
      var q := Quotient(idx, arity);
      Shrunk(idx, arity);
      PathTopStorable(parent, levels[1..], arity, q);
      RowDigests(levels[0], arity, Landing(|levels| - 1, arity, q), RowStart(idx, arity));
    }
  }

  lemma Shrunk(idx: nat, arity: nat)
    requires arity > 0
    ensures idx / arity <= idx
  {
    if idx / arity > idx {
      MulMonotone(1, arity, idx / arity);
    }
  }

  lemma PathAboveStorable(info: Info, tops: seq<TreeTop>, g: Target)
    requires Fits(info, tops, g) && IsTree(g.parent, g.tree, info.arity) && Servable(g.tree, info.arity, g.leaf.bin)
    requires info.arity < 0x1_0000
    ensures Storable(TreeTop(info.arity, PathAbove(g.tree, info.arity, g.leaf.bin, g.m)))
  {
    SubTree(g.parent, g.tree, info.arity, g.m);
    SubTree(g.parent, g.tree[g.m..], info.arity, 1);
    Shrunk(g.leaf.bin, info.arity);
    PathTopStorable(g.parent, g.tree[g.m..][1..], info.arity, Quotient(g.leaf.bin, info.arity));
  }

  /** The committed path can be served in place of the group's own top. */
  lemma {:induction false} PathServed(sha: Bytes -> Digest, info: Info, blob: Bytes, tops: seq<TreeTop>, g: Target)
    requires Fits(info, tops, g) && IsTree(g.parent, g.tree, info.arity) && Servable(g.tree, info.arity, g.leaf.bin)
    requires Parsed(blob) == Some(tops) && Anchored(sha, info, blob, tops)
    requires Root(tops[g.first + g.leaf.group].levels) == Root(g.tree)
    requires IsLanding(g, info.arity)
    ensures CanVerify(sha, info, tops, g)
  {
    var t, bin := g.first + g.leaf.group, g.leaf.bin;
    var row, top := PathRow(g.tree, info.arity, bin, g.m), PathAbove(g.tree, info.arity, bin, g.m);
    LandingAccepted(g.parent, g.tree, info.arity, bin, g.m);
    ArityFits(blob, tops, t);
    PathAboveStorable(info, tops, g);
    StorableServed(sha, info, blob, tops, g, row, top);
  }

  lemma StorableServed(sha: Bytes -> Digest, info: Info, blob: Bytes, tops: seq<TreeTop>, g: Target, row: Level,
                       top: seq<Level>)
    requires Fits(info, tops, g) && Parsed(blob) == Some(tops) && Anchored(sha, info, blob, tops)
    requires Root(tops[g.first + g.leaf.group].levels) == Root(g.tree) && Storable(TreeTop(info.arity, top))
    requires AcceptedWith(g.parent, g.tree, info.arity, g.m, g.leaf.hash, g.leaf.bin, row, top)
    ensures CanVerify(sha, info, tops, g)
  {
    var t := g.first + g.leaf.group;
    SwapParses(blob, tops, t, TreeTop(info.arity, top));
    Served(sha, info, blob, tops, g, row, top, BlobOf(tops[t := TreeTop(info.arity, top)]));
  }

  lemma ArityFits(blob: Bytes, tops: seq<TreeTop>, t: nat)
    requires Parsed(blob) == Some(tops) && t < |tops|
    ensures tops[t].arity < 0x1_0000
  {
    ParsedStorable(blob);
    assert Storable(tops[t]);
  }

  /** Tops of a blob with one replaced are those of another blob. */
  lemma SwapParses(blob: Bytes, tops: seq<TreeTop>, t: nat, top: TreeTop)
    requires Parsed(blob) == Some(tops) && t < |tops| && Storable(top)
    ensures Parsed(BlobOf(tops[t := top])) == Some(tops[t := top])
  {
    ParsedStorable(blob);
    BlobRoundTrip(tops[t := top]);
  }

  lemma {:induction false} Served(sha: Bytes -> Digest, info: Info, blob: Bytes, tops: seq<TreeTop>, g: Target,
               row: Level, top: seq<Level>, other: Bytes)
    requires Fits(info, tops, g) && Anchored(sha, info, blob, tops)
    requires Root(tops[g.first + g.leaf.group].levels) == Root(g.tree)
    requires AcceptedWith(g.parent, g.tree, info.arity, g.m, g.leaf.hash, g.leaf.bin, row, top)
    requires Parsed(other) == Some(tops[g.first + g.leaf.group := TreeTop(info.arity, top)])
    ensures CanVerify(sha, info, tops, g)
  {
    AnchorSeesRoots(sha, info, blob, tops, g.first + g.leaf.group, top, other);
    assert VerifiesWith(sha, info, tops, g, row, top, other);
  }

  /**
   A leaf can pass with a top `m` levels short exactly when it is the committed
   node of level `m` where its bin lands.
   */
  lemma VerifiedExactly(sha: Bytes -> Digest, info: Info, blob: Bytes, tops: seq<TreeTop>, trees: seq<seq<Level>>,
                        g: Target)
    requires AnchoredTo(sha, info, blob, tops, g.parent, trees) && Fits(info, tops, g)
    requires g.first + g.leaf.group < |trees| && g.tree == trees[g.first + g.leaf.group]
    requires Servable(g.tree, info.arity, g.leaf.bin)
    ensures CanVerify(sha, info, tops, g) <==> IsLanding(g, info.arity)
  {
    TreeOfGroup(sha, info, blob, tops, g.parent, trees, g.first + g.leaf.group);
    if CanVerify(sha, info, tops, g) {
      VerifiedAcceptable(sha, info, tops, g);
      AcceptableLands(info.arity, g);
    } else if IsLanding(g, info.arity) {
      PathServed(sha, info, blob, tops, g);
    }
  }

  lemma AcceptableLands(arity: nat, g: Target)
    requires arity > 0 && g.m + 1 < |g.tree| && IsTree(g.parent, g.tree, arity)
    requires Acceptable(g.parent, g.tree, arity, g.m, g.leaf.hash, g.leaf.bin)
    ensures IsLanding(g, arity)
  {
    AcceptedExactly(g.parent, g.tree, arity, g.m, g.leaf.hash, g.leaf.bin);
  }

  lemma VerifiedAcceptable(sha: Bytes -> Digest, info: Info, tops: seq<TreeTop>, g: Target)
    requires Fits(info, tops, g) && CanVerify(sha, info, tops, g)
    ensures Acceptable(g.parent, g.tree, info.arity, g.m, g.leaf.hash, g.leaf.bin)
  {
    var row, top, other :| VerifiesWith(sha, info, tops, g, row, top, other);
    assert AcceptedWith(g.parent, g.tree, info.arity, g.m, g.leaf.hash, g.leaf.bin, row, top);
  }

  /**
   So a committed leaf can pass exactly if the top is not short, or its hash is
   also that of the node where its bin lands.
   */
  lemma CommittedLeafVerified(sha: Bytes -> Digest, info: Info, blob: Bytes, tops: seq<TreeTop>, trees: seq<seq<Level>>,
                              g: Target)
    requires AnchoredTo(sha, info, blob, tops, g.parent, trees) && Fits(info, tops, g)
    requires HonestLeaf(g.leaf, trees, g.k, g.first) && g.tree == trees[g.first + g.leaf.group]
    requires Servable(g.tree, info.arity, g.leaf.bin)
    ensures CanVerify(sha, info, tops, g) <==> g.m == 0 || IsLanding(g, info.arity)
  {
    VerifiedExactly(sha, info, blob, tops, trees, g);
    TreeOfGroup(sha, info, blob, tops, g.parent, trees, g.first + g.leaf.group);
    if g.m == 0 {
      CommittedLands(info.arity, g);
    }
  }

  lemma CommittedLands(arity: nat, g: Target)
    requires IsTree(g.parent, g.tree, arity) && g.m == 0 && g.leaf.bin < |g.tree[0]|
             && g.leaf.hash == g.tree[0][g.leaf.bin]
    ensures IsLanding(g, arity)
  {
    assert g.tree[0..] == g.tree;
    InRangeLands(g.parent, g.tree, arity, g.leaf.bin);
  }

  // ----- honest servers pass

  /** The leaf is the committed one at a bin of its group's tree. */
  ghost predicate HonestLeaf(l: Leaf, trees: seq<seq<Level>>, k: nat, first: nat) {
    && l.group < k && first + l.group < |trees| && trees[first + l.group] != []
    && l.bin < |trees[first + l.group][0]| && l.hash == trees[first + l.group][0][l.bin]
  }

  /** Every response decodes, every leaf is honest, and so is the answer to the query about it. */
  ghost predicate HonestBatch(b: Batch, trees: seq<seq<Level>>, first: nat)
    requires b.arity > 0
  {
    && (forall pass :: b.server.framed(pass))
    && forall j | 0 <= j < |b.us| ::
      && HonestLeaf(b.us[j], trees, b.k, first)
      && AnswerTo(b, j) == Some(Row(trees[first + b.us[j].group][0], b.arity, RowIndex(b.us[j].bin, b.arity)))
  }

  /** The tree-tops of a forest: everything above the leaves. */
  function TopsOf(trees: seq<seq<Level>>): (r: seq<seq<Level>>)
    ensures |r| == |trees|
  {
    seq(|trees|, g requires 0 <= g < |trees| => if trees[g] == [] then [] else trees[g][1..])
  }

  /** What an honest server puts into its blob. */
  function HonestTops(arity: nat, trees: seq<seq<Level>>): (r: seq<TreeTop>)
    ensures |r| == |trees|
  {
    seq(|trees|, g requires 0 <= g < |trees| => TreeTop(arity, TopsOf(trees)[g]))
  }

  lemma HonestTopRoot(parent: Parent, tree: seq<Level>, arity: nat)
    requires IsTree(parent, tree, arity) && |tree| > 1
    ensures HasRoot(tree[1..]) && Root(tree[1..]) == Root(tree)
  {
    SubTree(parent, tree, arity, 1);
    TreeHasRoot(parent, tree[1..], arity);
  }

  lemma HonestTopsAnchored(sha: Bytes -> Digest, info: Info, parent: Parent, trees: seq<seq<Level>>, blob: Bytes)
    requires Forest(parent, trees, info.arity) && |trees| == info.indexK + info.dataK
    requires sha(Concat(Roots(trees))) == info.superRoot && |blob| == info.topsSize && sha(blob) == info.topsHash
    ensures Anchored(sha, info, blob, HonestTops(info.arity, trees))
    ensures LevelsOf(HonestTops(info.arity, trees)) == TopsOf(trees)
  {
    forall g | 0 <= g < |trees| ensures HasRoot(TopsOf(trees)[g]) && Root(TopsOf(trees)[g]) == Root(trees[g]) {
      HonestTopRoot(parent, trees[g], info.arity);
    }
    assert LevelsOf(HonestTops(info.arity, trees)) == TopsOf(trees);
    assert Roots(TopsOf(trees)) == Roots(trees);
  }

  /** The client fetches just that. */
  lemma HonestTopsFetched(sha: Bytes -> Digest, info: Info, parent: Parent, trees: seq<seq<Level>>, blob: Bytes)
    requires Forest(parent, trees, info.arity) && |trees| == info.indexK + info.dataK
    requires sha(Concat(Roots(trees))) == info.superRoot && |blob| == info.topsSize && sha(blob) == info.topsHash
    requires AllStorable(HonestTops(info.arity, trees)) && blob == BlobOf(HonestTops(info.arity, trees))
    ensures FetchedFrom(sha, info, Some(blob)) == Tops(TopsOf(trees))
  {
    BlobRoundTrip(HonestTops(info.arity, trees));
    HonestTopsAnchored(sha, info, parent, trees, blob);
  }

  lemma HonestLeafVerified(b: Batch, trees: seq<seq<Level>>, first: nat, j: nat)
    requires b.arity > 0 && Forest(b.parent, trees, b.arity) && HonestBatch(b, trees, first) && j < |b.us|
    ensures Readable(b, j) && LeafAccepted(b, j, TopsOf(trees), first)
  {
    var tree := trees[first + b.us[j].group];
    HonestLeafAccepted(b.parent, tree, b.arity, b.us[j].bin);
    assert Root(tree[1..]) == Root(tree);
  }

  lemma HonestNeverConflicts(leaves: seq<Leaf>, trees: seq<seq<Level>>, k: nat, first: nat)
    requires forall l | l in leaves :: HonestLeaf(l, trees, k, first)
    ensures !Conflicting(leaves)
  {
  }

  /** One sub-tree of an honest batch: nothing aborts and every leaf is accepted. */
  lemma HonestSubTree(leaves: seq<Leaf>, b: Batch, trees: seq<seq<Level>>, first: nat, tops: Fetched)
    requires b.arity > 0 && Forest(b.parent, trees, b.arity) && HonestBatch(b, trees, first)
             && tops == Tops(TopsOf(trees))
    requires Covers(b, leaves, tops) && forall l | l in leaves :: HonestLeaf(l, trees, b.k, first)
    ensures !Aborts(leaves, b, tops) && forall l | l in leaves :: Accepted(l, b, tops, first)
  {
    HonestNeverConflicts(leaves, trees, b.k, first);
    forall j: nat | j < |b.us| ensures Readable(b, j) && LeafAccepted(b, j, TopsOf(trees), first) {
      HonestLeafVerified(b, trees, first, j);
    }
    forall l | l in leaves ensures Accepted(l, b, tops, first) {
      var j :| 0 <= j < |b.us| && b.us[j] == l;
    }
  }

  /**
   With honest rows and tops, and leaves of the committed trees, the check of a
   batch does not abort, and every result with INDEX leaves passes.
   */
  lemma {:induction false} HonestBatchPasses(results: seq<Probed>, c: Check, trees: seq<seq<Level>>,
                                             r: Option<seq<bool>>)
    requires c.index.arity > 0 && c.data.arity == c.index.arity && c.data.parent == c.index.parent
    requires Forest(c.index.parent, trees, c.index.arity) && c.indexTops == c.dataTops == Tops(TopsOf(trees))
    requires CoversBoth(results, c) && Judged(results, c, r)
    requires HonestBatch(c.index, trees, 0) && HonestBatch(c.data, trees, c.index.k)
    requires forall l | l in AllProbes(results, Index) :: HonestLeaf(l, trees, c.index.k, 0)
    requires forall l | l in AllProbes(results, Data) :: HonestLeaf(l, trees, c.data.k, c.index.k)
    ensures r.Some? && forall i | 0 <= i < |results| :: r.value[i] <==> results[i].index != []
  {
    HonestSubTree(AllProbes(results, Index), c.index, trees, 0, c.indexTops);
    HonestSubTree(AllProbes(results, Data), c.data, trees, c.index.k, c.dataTops);
    forall i | 0 <= i < |results| ensures Passes(results[i], c) <==> results[i].index != [] {
      forall l | l in results[i].index ensures l in AllProbes(results, Index) {
        ProbesAreIn(results, Index, i, l);
      }
      forall l | l in results[i].data ensures l in AllProbes(results, Data) {
        ProbesAreIn(results, Data, i, l);
      }
    }
  }
}
