/** The per-group N-ary Merkle check: fold a leaf into its sibling row, then walk the cached tree-top to the root. */
module NaryMerkle {
  import opened Wrappers
  import opened Arithmetic

  type Digest = Bytes

  /** 32 zero bytes, the padding of incomplete rows. */
  function ZeroHash(): Digest { seq(32, _ => 0) }

  /** `computeParentN`: the hash of the concatenated children. */
  type Parent = seq<Digest> -> Digest

  type Level = seq<Digest>

  /** The index of the first child in the row of node `idx`. */
  function RowStart(idx: nat, arity: nat): (start: nat)
    requires arity > 0
    ensures start == idx / arity * arity && start + idx % arity == idx && idx % arity < arity
  {
    assert idx == idx / arity * arity + idx % arity;
    idx - idx % arity
  }

  function Child(level: Level, i: nat): Digest {
    if i < |level| then level[i] else ZeroHash()
  }

  /** The children `start..start + arity` of a level, the running hash in place of the one at `pos`. */
  function Spliced(level: Level, start: nat, arity: nat, pos: nat, hash: Digest): (r: seq<Digest>)
    ensures |r| == arity
  {
    seq(arity, c requires 0 <= c < arity => if c == pos then hash else Child(level, start + c))
  }

  /** The hash after walking every cached level but the last, which is the root. */
  function Walked(parent: Parent, top: seq<Level>, arity: nat, hash: Digest, idx: nat): Digest
    requires arity > 0
    decreases |top|
  {
    if |top| <= 1 then hash
    else Walked(parent, top[1..], arity, parent(Spliced(top[0], RowStart(idx, arity), arity, idx % arity, hash)),
                idx / arity)
  }

  method WalkTreeTopToRoot(parent: Parent, startHash: Digest, startIdx: nat, top: seq<Level>, arity: nat)
    returns (hash: Digest)
    requires arity > 0
    ensures hash == Walked(parent, top, arity, startHash, startIdx)
  {
    hash := startHash;
    var idx: nat := startIdx;
    var ci := 0;
    while ci + 1 < |top|
      invariant ci <= |top|
                && Walked(parent, top, arity, startHash, startIdx) == Walked(parent, top[ci..], arity, hash, idx)
    {
      var parentStart, childPos := RowStart(idx, arity), idx % arity;
      var children: seq<Digest> := [];
      for c := 0 to arity
        invariant children == Spliced(top[ci], parentStart, arity, childPos, hash)[..c]
      {
        children := children + [if c == childPos then hash else Child(top[ci], parentStart + c)];
      }
      assert children == Spliced(top[ci], parentStart, arity, childPos, hash);
      assert top[ci..][1..] == top[ci + 1..];
      hash := parent(children);
      idx, ci := idx / arity, ci + 1;
    }
  }

  /** The hash of a leaf's parent, with the siblings the server returned. */
  function Folded(parent: Parent, row: Level, arity: nat, leaf: Digest, bin: nat): Digest
    requires arity > 0
  {
    parent(Spliced(row, 0, arity, bin % arity, leaf))
  }

  /** The root that the verifier reconstructs for a leaf. */
  function Reconstructed(parent: Parent, row: Level, top: seq<Level>, arity: nat, leaf: Digest, bin: nat): Digest
    requires arity > 0
  {
    Walked(parent, top, arity, Folded(parent, row, arity, leaf, bin), bin / arity)
  }

  // ----- the committed tree

  /** The single node of the last level. */
  function Root(levels: seq<Level>): Digest {
    if levels != [] && levels[|levels| - 1] != [] then levels[|levels| - 1][0] else ZeroHash()
  }

  predicate HasRoot(levels: seq<Level>) {
    levels != [] && levels[|levels| - 1] != []
  }

  function RowBegin(r: nat, arity: nat): (b: nat)
    ensures b == r * arity
  {
    MulMonotone(0, r, arity);
    r * arity
  }

  /** The children of node `r` one level up, padded with the zero hash. */
  function Row(level: Level, arity: nat, r: nat): (row: seq<Digest>)
    ensures |row| == arity
  {
    seq(arity, c requires 0 <= c < arity => Child(level, RowBegin(r, arity) + c))
  }

  /** `levels[0]` are the leaves, each level hashes the rows of the one below, the last is the root. */
  ghost predicate IsTree(parent: Parent, levels: seq<Level>, arity: nat) {
    && arity > 0 && levels != []
    && if |levels| == 1 then |levels[0]| == 1
       else IsAbove(parent, levels[1], levels[0], arity) && IsTree(parent, levels[1..], arity)
  }

  /** The level above has a node for every row of the level below. */
  ghost predicate IsAbove(parent: Parent, above: Level, below: Level, arity: nat)
    requires arity > 0
  {
    && (forall i: nat | i < |below| :: i / arity < |above|)
    && (forall r | 0 <= r < |above| :: above[r] == parent(Row(below, arity, r)))
  }

  lemma RowHoldsNode(level: Level, arity: nat, i: nat)
    requires arity > 0 && i < |level|
    ensures Spliced(level, RowStart(i, arity), arity, i % arity, level[i]) == Row(level, arity, i / arity)
    ensures i % arity < arity && Row(level, arity, i / arity)[i % arity] == level[i]
  {
    var start, row := RowStart(i, arity), Row(level, arity, i / arity);
    assert RowBegin(i / arity, arity) == start;
    forall c | 0 <= c < arity ensures row[c] == Child(level, start + c) {
    }
    assert row[i % arity] == level[i];
    assert Spliced(level, start, arity, i % arity, level[i]) == row;
  }

  /** Walking an honest top from any of its nodes ends at the root. */
  lemma {:induction false} HonestWalk(parent: Parent, levels: seq<Level>, arity: nat, idx: nat)
    requires IsTree(parent, levels, arity) && idx < |levels[0]|
    ensures Walked(parent, levels, arity, levels[0][idx], idx) == Root(levels)
    decreases |levels|
  {
    if |levels| > 1 {
      RowHoldsNode(levels[0], arity, idx);
      HonestWalk(parent, levels[1..], arity, idx / arity);
    }
  }

  /** With the honest sibling row and top, every bin's leaf reconstructs the group root. */
  lemma HonestLeafAccepted(parent: Parent, levels: seq<Level>, arity: nat, bin: nat)
    requires IsTree(parent, levels, arity) && |levels| > 1 && bin < |levels[0]|
    ensures Reconstructed(parent, Row(levels[0], arity, bin / arity), levels[1..], arity, levels[0][bin], bin)
         == Root(levels)
  {
    RowHoldsNode(levels[0], arity, bin);
    assert Spliced(Row(levels[0], arity, bin / arity), 0, arity, bin % arity, levels[0][bin])
           == Row(levels[0], arity, bin / arity);
    HonestWalk(parent, levels[1..], arity, bin / arity);
  }

  // ----- what an accepted leaf is, up to a collision between what is hashed and the committed path

  /** The child lists that a walk hashes, bottom up. */
  function WalkInputs(parent: Parent, top: seq<Level>, arity: nat, hash: Digest, idx: nat): seq<seq<Digest>>
    requires arity > 0
    decreases |top|
  {
    if |top| <= 1 then []
    else
      var children := Spliced(top[0], RowStart(idx, arity), arity, idx % arity, hash);
      [children] + WalkInputs(parent, top[1..], arity, parent(children), idx / arity)
  }

  /**
   The node that a walk from `idx` ends up with, on a level that is the lowest
   of `n`: only as many digits of `idx` count as there are levels above.
   */
  function Landing(n: nat, arity: nat, idx: nat): nat
    requires arity > 0
    decreases n
  {
    if n <= 1 then 0 else RowBegin(Landing(n - 1, arity, Quotient(idx, arity)), arity) + idx % arity
  }

  /** The committed tree has every node above the landing of `idx`. */
  ghost predicate OnPath(levels: seq<Level>, arity: nat, idx: nat)
    requires arity > 0
    decreases |levels|
  {
    |levels| <= 1
    || (Landing(|levels| - 1, arity, idx / arity) < |levels[1]| && OnPath(levels[1..], arity, Quotient(idx, arity)))
  }

  /** The committed rows from a landing to the root. */
  function PathRows(levels: seq<Level>, arity: nat, idx: nat): seq<seq<Digest>>
    requires arity > 0
    decreases |levels|
  {
    if |levels| <= 1 then []
    else
      [Row(levels[0], arity, Landing(|levels| - 1, arity, Quotient(idx, arity)))]
        + PathRows(levels[1..], arity, Quotient(idx, arity))
  }

  /** An index within its level lands on itself. */
  lemma {:induction false} InRangeLands(parent: Parent, levels: seq<Level>, arity: nat, idx: nat)
    requires IsTree(parent, levels, arity) && idx < |levels[0]|
    ensures Landing(|levels|, arity, idx) == idx && OnPath(levels, arity, idx)
    decreases |levels|
  {
    if |levels| > 1 {
      InRangeLands(parent, levels[1..], arity, Quotient(idx, arity));
      assert RowStart(idx, arity) == idx / arity * arity;
    }
  }

  /** Level by level, the two lists are the same or hash differently. */
  ghost predicate NoCollision(parent: Parent, xs: seq<seq<Digest>>, ys: seq<seq<Digest>>) {
    forall i | 0 <= i < |xs| && i < |ys| && parent(xs[i]) == parent(ys[i]) :: xs[i] == ys[i]
  }

  ghost predicate NoneIsZero(parent: Parent, xs: seq<seq<Digest>>) {
    forall i | 0 <= i < |xs| :: parent(xs[i]) != ZeroHash()
  }

  lemma NoCollisionRest(parent: Parent, x: seq<Digest>, xs: seq<seq<Digest>>, y: seq<Digest>, ys: seq<seq<Digest>>)
    requires NoCollision(parent, [x] + xs, [y] + ys)
    ensures NoCollision(parent, xs, ys) && (parent(x) == parent(y) ==> x == y)
  {
    assert ([x] + xs)[0] == x && ([y] + ys)[0] == y;
    forall i | 0 <= i < |xs| && i < |ys| && parent(xs[i]) == parent(ys[i]) ensures xs[i] == ys[i] {
      assert ([x] + xs)[i + 1] == xs[i] && ([y] + ys)[i + 1] == ys[i];
    }
  }

  lemma NoneIsZeroRest(parent: Parent, x: seq<Digest>, xs: seq<seq<Digest>>)
    ensures NoneIsZero(parent, [x] + xs) ==> NoneIsZero(parent, xs) && parent(x) != ZeroHash()
  {
    if NoneIsZero(parent, [x] + xs) {
      assert ([x] + xs)[0] == x;
      forall i | 0 <= i < |xs| ensures parent(xs[i]) != ZeroHash() {
        assert ([x] + xs)[i + 1] == xs[i];
      }
    }
  }

  /** A hash that equals the landing's parent was made from the landing's row. */
  lemma BindsChild(parent: Parent, below: Level, above: Level, arity: nat, up: nat, children: seq<Digest>, pos: nat)
    requires arity > 0 && IsAbove(parent, above, below, arity) && up < |above| && parent(children) == above[up]
             && pos < arity
    requires parent(children) == parent(Row(below, arity, up)) ==> children == Row(below, arity, up)
    ensures children == Row(below, arity, up) && children[pos] == Child(below, RowBegin(up, arity) + pos)
  {
  }

  /**
   A walk over arbitrary levels, as many as the committed tree has, that ends
   at the committed root started at the committed node where it lands. An
   index outside the tree can do so only if something hashes to zeros.
   */
  lemma {:induction false} WalkBindsNode(parent: Parent, levels: seq<Level>, top: seq<Level>, arity: nat, hash: Digest,
                                         idx: nat)
    requires IsTree(parent, levels, arity) && |top| == |levels|
    requires Walked(parent, top, arity, hash, idx) == Root(levels)
    requires NoCollision(parent, WalkInputs(parent, top, arity, hash, idx), PathRows(levels, arity, idx))
    requires OnPath(levels, arity, idx) || NoneIsZero(parent, WalkInputs(parent, top, arity, hash, idx))
    ensures OnPath(levels, arity, idx) && hash == Child(levels[0], Landing(|levels|, arity, idx))
    decreases |levels|
  {
    if |levels| > 1 {
      var children, q := Spliced(top[0], RowStart(idx, arity), arity, idx % arity, hash), Quotient(idx, arity);
      var up := Landing(|levels| - 1, arity, q);
      var rest := WalkInputs(parent, top[1..], arity, parent(children), q);
      NoCollisionRest(parent, children, rest, Row(levels[0], arity, up), PathRows(levels[1..], arity, q));
      NoneIsZeroRest(parent, children, rest);
      WalkBindsNode(parent, levels[1..], top[1..], arity, parent(children), q);
      BindsChild(parent, levels[0], levels[1], arity, up, children, idx % arity);
    }
  }

  /** Everything the verifier hashes for one leaf. */
  function VerifierInputs(parent: Parent, row: Level, top: seq<Level>, arity: nat, leaf: Digest,
                          bin: nat): seq<seq<Digest>>
    requires arity > 0
  {
    [Spliced(row, 0, arity, bin % arity, leaf)]
      + WalkInputs(parent, top, arity, Folded(parent, row, arity, leaf, bin), bin / arity)
  }

  /** A row put where its children stand in their level. */
  function Placed(row: Level, start: nat): Level {
    seq(start + |row|, i requires 0 <= i < start + |row| => if i < start then ZeroHash() else row[i - start])
  }

  lemma PlacedSplices(row: Level, start: nat, arity: nat, pos: nat, hash: Digest)
    ensures Spliced(Placed(row, start), start, arity, pos, hash) == Spliced(row, 0, arity, pos, hash)
  {
    forall c | 0 <= c < arity ensures Child(Placed(row, start), start + c) == Child(row, c) {
    }
  }

  /** Folding the row and walking the top is one walk over the row and the top. */
  lemma FoldIsWalk(parent: Parent, row: Level, top: seq<Level>, arity: nat, leaf: Digest, bin: nat)
    requires arity > 0 && top != []
    ensures var all := [Placed(row, RowStart(bin, arity))] + top;
            && Walked(parent, all, arity, leaf, bin) == Reconstructed(parent, row, top, arity, leaf, bin)
            && WalkInputs(parent, all, arity, leaf, bin) == VerifierInputs(parent, row, top, arity, leaf, bin)
  {
    PlacedSplices(row, RowStart(bin, arity), arity, bin % arity, leaf);
    assert ([Placed(row, RowStart(bin, arity))] + top)[1..] == top;
  }

  lemma {:induction false} TreeHasRoot(parent: Parent, levels: seq<Level>, arity: nat)
    requires IsTree(parent, levels, arity)
    ensures HasRoot(levels)
    decreases levels
  {
    if |levels| > 1 {
      TreeHasRoot(parent, levels[1..], arity);
    }
  }

  lemma {:induction false} SubTree(parent: Parent, levels: seq<Level>, arity: nat, m: nat)
    requires IsTree(parent, levels, arity) && m < |levels|
    ensures IsTree(parent, levels[m..], arity) && HasRoot(levels) && Root(levels[m..]) == Root(levels)
    decreases m
  {
    if m > 0 {
      SubTree(parent, levels[1..], arity, m - 1);
      assert levels[1..][m - 1..] == levels[m..];
    } else {
      assert levels[0..] == levels;
      TreeHasRoot(parent, levels, arity);
    }
  }

  /**
   Nothing checks how many levels a top has. A leaf accepted with a top that is
   `m` levels short of the committed tree is the committed node, on level `m`,
   where its bin lands; siblings and inner levels may be made up.
   */
  lemma AcceptedIsNode(parent: Parent, levels: seq<Level>, row: Level, top: seq<Level>, arity: nat, leaf: Digest,
                       bin: nat, m: nat)
    requires IsTree(parent, levels, arity) && top != [] && |top| + 1 + m == |levels|
    requires Reconstructed(parent, row, top, arity, leaf, bin) == Root(levels)
    requires NoCollision(parent, VerifierInputs(parent, row, top, arity, leaf, bin), PathRows(levels[m..], arity, bin))
    requires OnPath(levels[m..], arity, bin) || NoneIsZero(parent, VerifierInputs(parent, row, top, arity, leaf, bin))
    ensures OnPath(levels[m..], arity, bin) && leaf == Child(levels[m], Landing(|levels| - m, arity, bin))
  {
    SubTree(parent, levels, arity, m);
    FoldIsWalk(parent, row, top, arity, leaf, bin);
    WalkBindsNode(parent, levels[m..], [Placed(row, RowStart(bin, arity))] + top, arity, leaf, bin);
  }

  /** With a top of the committed depth, an accepted leaf is the committed one at its bin. */
  lemma AcceptedLeafIsCommitted(parent: Parent, levels: seq<Level>, row: Level, top: seq<Level>, arity: nat,
                                leaf: Digest, bin: nat)
    requires IsTree(parent, levels, arity) && |levels| > 1 && bin < |levels[0]| && |top| == |levels| - 1
    requires Reconstructed(parent, row, top, arity, leaf, bin) == Root(levels)
    requires NoCollision(parent, VerifierInputs(parent, row, top, arity, leaf, bin), PathRows(levels, arity, bin))
    ensures leaf == levels[0][bin]
  {
    assert levels[0..] == levels;
    InRangeLands(parent, levels, arity, bin);
    AcceptedIsNode(parent, levels, row, top, arity, leaf, bin, 0);
  }

  /** And with a top `m` levels short, the honest row and levels above make a node of level `m` pass as a leaf. */
  lemma ShortTopTakesNode(parent: Parent, levels: seq<Level>, arity: nat, bin: nat, m: nat)
    requires IsTree(parent, levels, arity) && m + 1 < |levels| && bin < |levels[m]|
    ensures Reconstructed(parent, Row(levels[m], arity, bin / arity), levels[m + 1..], arity, levels[m][bin], bin)
            == Root(levels)
  {
    SubTree(parent, levels, arity, m);
    assert levels[m..][1..] == levels[m + 1..];
    HonestLeafAccepted(parent, levels[m..], arity, bin);
  }

  // ----- exactly what is accepted

  /** The committed rows of one path, each placed where a walk from `idx` looks for it. */
  function PathTop(levels: seq<Level>, arity: nat, idx: nat): (r: seq<Level>)
    requires arity > 0
    ensures |r| == |levels|
    decreases |levels|
  {
    if |levels| <= 1 then levels
    else
      var q := Quotient(idx, arity);
      [Placed(Row(levels[0], arity, Landing(|levels| - 1, arity, q)), RowStart(idx, arity))]
        + PathTop(levels[1..], arity, q)
  }

  lemma LandingRow(level: Level, arity: nat, up: nat, start: nat, pos: nat)
    requires pos < arity
    ensures Row(level, arity, up) ==
            Spliced(Placed(Row(level, arity, up), start), start, arity, pos, Child(level, RowBegin(up, arity) + pos))
  {
    PlacedSplices(Row(level, arity, up), start, arity, pos, Child(level, RowBegin(up, arity) + pos));
  }

  /** A walk ends at `root` and hashes `inputs` on the way. */
  ghost predicate WalksTo(parent: Parent, top: seq<Level>, arity: nat, hash: Digest, idx: nat, root: Digest,
                          inputs: seq<seq<Digest>>)
    requires arity > 0
  {
    Walked(parent, top, arity, hash, idx) == root && WalkInputs(parent, top, arity, hash, idx) == inputs
  }

  lemma WalkStep(parent: Parent, level: Level, rest: seq<Level>, arity: nat, hash: Digest, idx: nat, row: seq<Digest>,
                 root: Digest, inputs: seq<seq<Digest>>)
    requires arity > 0 && rest != [] && Spliced(level, RowStart(idx, arity), arity, idx % arity, hash) == row
    requires WalksTo(parent, rest, arity, parent(row), Quotient(idx, arity), root, inputs)
    ensures WalksTo(parent, [level] + rest, arity, hash, idx, root, [row] + inputs)
  {
    assert ([level] + rest)[1..] == rest;
  }

  /** Walking them from the landing hashes the committed rows and ends at the root. */
  lemma {:induction false} PathTopWalks(parent: Parent, levels: seq<Level>, arity: nat, idx: nat)
    requires IsTree(parent, levels, arity) && OnPath(levels, arity, idx)
    ensures WalksTo(parent, PathTop(levels, arity, idx), arity, Child(levels[0], Landing(|levels|, arity, idx)), idx,
                    Root(levels), PathRows(levels, arity, idx))
    decreases |levels|
  {
    if |levels| > 1 {
      var q := Quotient(idx, arity);
      var up := Landing(|levels| - 1, arity, q);
      LandingRow(levels[0], arity, up, RowStart(idx, arity), idx % arity);
      PathTopWalks(parent, levels[1..], arity, q);
      WalkStep(parent, Placed(Row(levels[0], arity, up), RowStart(idx, arity)), PathTop(levels[1..], arity, q), arity,
               Child(levels[0], Landing(|levels|, arity, idx)), idx, Row(levels[0], arity, up),
               Root(levels), PathRows(levels[1..], arity, q));
    }
  }

  lemma {:induction false} PathTopRoot(levels: seq<Level>, arity: nat, idx: nat)
    requires arity > 0 && HasRoot(levels)
    ensures HasRoot(PathTop(levels, arity, idx)) && Root(PathTop(levels, arity, idx)) == Root(levels)
    decreases |levels|
  {
    if |levels| > 1 {
      PathTopRoot(levels[1..], arity, Quotient(idx, arity));
    }
  }

  /**
   The row and top make the verifier reconstruct the committed root, and
   nothing it hashes collides with the committed path.
   */
  ghost predicate AcceptedWith(parent: Parent, levels: seq<Level>, arity: nat, m: nat, leaf: Digest, bin: nat,
                               row: Level, top: seq<Level>)
    requires arity > 0 && m <= |levels|
  {
    var inputs := VerifierInputs(parent, row, top, arity, leaf, bin);
    && HasRoot(top) && |top| + 1 + m == |levels| && Root(top) == Root(levels)
    && Reconstructed(parent, row, top, arity, leaf, bin) == Root(levels)
    && NoCollision(parent, inputs, PathRows(levels[m..], arity, bin))
    && (OnPath(levels[m..], arity, bin) || NoneIsZero(parent, inputs))
  }

  lemma AcceptedWithIsNode(parent: Parent, levels: seq<Level>, arity: nat, m: nat, leaf: Digest, bin: nat, row: Level,
                           top: seq<Level>)
    requires IsTree(parent, levels, arity) && m < |levels|
             && AcceptedWith(parent, levels, arity, m, leaf, bin, row, top)
    ensures OnPath(levels[m..], arity, bin) && leaf == Child(levels[m], Landing(|levels| - m, arity, bin))
  {
    AcceptedIsNode(parent, levels, row, top, arity, leaf, bin, m);
  }

  ghost predicate Acceptable(parent: Parent, levels: seq<Level>, arity: nat, m: nat, leaf: Digest, bin: nat)
    requires arity > 0 && m <= |levels|
  {
    exists row, top :: AcceptedWith(parent, levels, arity, m, leaf, bin, row, top)
  }

  /** With the committed row and the committed rows above it, the verifier hashes just those and ends at the root. */
  lemma PathAccepted(parent: Parent, levels: seq<Level>, arity: nat, bin: nat, q: nat, row: Level, top: seq<Level>,
                     leaf: Digest)
    requires IsTree(parent, levels, arity) && |levels| > 1 && OnPath(levels, arity, bin) && q == Quotient(bin, arity)
    requires row == Row(levels[0], arity, Landing(|levels| - 1, arity, q)) && top == PathTop(levels[1..], arity, q)
    requires leaf == Child(levels[0], Landing(|levels|, arity, bin))
    ensures Reconstructed(parent, row, top, arity, leaf, bin) == Root(levels)
    ensures VerifierInputs(parent, row, top, arity, leaf, bin) == PathRows(levels, arity, bin)
  {
    PathTopWalks(parent, levels, arity, bin);
    FoldIsWalk(parent, row, top, arity, leaf, bin);
    assert PathTop(levels, arity, bin) == [Placed(row, RowStart(bin, arity))] + top;
  }

  /** The committed row and top for a bin whose node is looked for on level `m`. */
  function PathRow(levels: seq<Level>, arity: nat, bin: nat, m: nat): Level
    requires arity > 0 && m + 1 < |levels|
  {
    Row(levels[m], arity, Landing(|levels| - m - 1, arity, Quotient(bin, arity)))
  }

  function PathAbove(levels: seq<Level>, arity: nat, bin: nat, m: nat): seq<Level>
    requires arity > 0 && m + 1 < |levels|
  {
    PathTop(levels[m..][1..], arity, Quotient(bin, arity))
  }

  /** They make the verifier accept the node where the bin lands. */
  lemma LandingAccepted(parent: Parent, levels: seq<Level>, arity: nat, bin: nat, m: nat)
    requires IsTree(parent, levels, arity) && m + 1 < |levels| && OnPath(levels[m..], arity, bin)
    ensures AcceptedWith(parent, levels, arity, m, Child(levels[m], Landing(|levels| - m, arity, bin)), bin,
                         PathRow(levels, arity, bin, m), PathAbove(levels, arity, bin, m))
  {
    SubTree(parent, levels, arity, m);
    PathPieces(parent, levels[m..], arity, bin, Quotient(bin, arity), PathRow(levels, arity, bin, m),
               PathAbove(levels, arity, bin, m), Child(levels[m], Landing(|levels| - m, arity, bin)));
    SubPathAccepted(parent, levels, arity, m, Child(levels[m], Landing(|levels| - m, arity, bin)), bin,
                    PathRow(levels, arity, bin, m), PathAbove(levels, arity, bin, m));
  }

  lemma PathPieces(parent: Parent, levels: seq<Level>, arity: nat, bin: nat, q: nat, row: Level, top: seq<Level>,
                   leaf: Digest)
    requires IsTree(parent, levels, arity) && |levels| > 1 && OnPath(levels, arity, bin) && q == Quotient(bin, arity)
    requires row == Row(levels[0], arity, Landing(|levels| - 1, arity, q)) && top == PathTop(levels[1..], arity, q)
    requires leaf == Child(levels[0], Landing(|levels|, arity, bin))
    ensures HasRoot(top) && |top| + 1 == |levels| && Root(top) == Root(levels)
    ensures Reconstructed(parent, row, top, arity, leaf, bin) == Root(levels)
    ensures VerifierInputs(parent, row, top, arity, leaf, bin) == PathRows(levels, arity, bin)
  {
    SubTree(parent, levels, arity, 1);
    PathTopRoot(levels[1..], arity, q);
    PathAccepted(parent, levels, arity, bin, q, row, top, leaf);
  }

  /** A path of the tree from level `m` up is accepted with a top that is `m` levels short. */
  lemma SubPathAccepted(parent: Parent, levels: seq<Level>, arity: nat, m: nat, leaf: Digest, bin: nat, row: Level,
                        top: seq<Level>)
    requires arity > 0 && m <= |levels| && OnPath(levels[m..], arity, bin)
    requires HasRoot(top) && |top| + 1 + m == |levels| && Root(top) == Root(levels)
    requires Reconstructed(parent, row, top, arity, leaf, bin) == Root(levels)
    requires VerifierInputs(parent, row, top, arity, leaf, bin) == PathRows(levels[m..], arity, bin)
    ensures AcceptedWith(parent, levels, arity, m, leaf, bin, row, top)
  {
  }

  /**
   A top that is `m` levels short accepts exactly the committed node of level
   `m` where the bin lands, and nothing for a bin that lands outside the tree.
   */
  lemma AcceptedExactly(parent: Parent, levels: seq<Level>, arity: nat, m: nat, leaf: Digest, bin: nat)
    requires IsTree(parent, levels, arity) && m + 1 < |levels|
    ensures Acceptable(parent, levels, arity, m, leaf, bin) <==>
            OnPath(levels[m..], arity, bin) && leaf == Child(levels[m], Landing(|levels| - m, arity, bin))
  {
    if Acceptable(parent, levels, arity, m, leaf, bin) {
      var row, top :| AcceptedWith(parent, levels, arity, m, leaf, bin, row, top);
      AcceptedWithIsNode(parent, levels, arity, m, leaf, bin, row, top);
    } else if OnPath(levels[m..], arity, bin) {
      LandingAccepted(parent, levels, arity, bin, m);
    }
  }

  /** So the committed leaf is accepted exactly if no level is missing, or it is also the node where its bin lands. */
  lemma CommittedLeafAccepted(parent: Parent, levels: seq<Level>, arity: nat, m: nat, bin: nat)
    requires IsTree(parent, levels, arity) && m + 1 < |levels| && bin < |levels[0]|
    ensures Acceptable(parent, levels, arity, m, levels[0][bin], bin) <==>
            m == 0
            || (OnPath(levels[m..], arity, bin)
                && levels[0][bin] == Child(levels[m], Landing(|levels| - m, arity, bin)))
  {
    assert levels[0..] == levels;
    InRangeLands(parent, levels, arity, bin);
    AcceptedExactly(parent, levels, arity, m, levels[0][bin], bin);
  }

  // ----- tops with too many levels

  function Up(idx: nat, arity: nat, n: nat): nat
    requires arity > 0
    decreases n
  {
    if n == 0 then idx else Up(Quotient(idx, arity), arity, n - 1)
  }

  /** A walk is a walk over its first levels, continued over the others. */
  lemma {:induction false} WalkSplits(parent: Parent, top: seq<Level>, arity: nat, hash: Digest, idx: nat, k: nat)
    requires arity > 0 && k < |top|
    ensures Walked(parent, top, arity, hash, idx)
         == Walked(parent, top[k..], arity, Walked(parent, top[..k + 1], arity, hash, idx), Up(idx, arity, k))
    decreases k
  {
    if k == 0 {
      assert top[0..] == top;
    } else {
      var children := Spliced(top[0], RowStart(idx, arity), arity, idx % arity, hash);
      WalkSplits(parent, top[1..], arity, parent(children), Quotient(idx, arity), k - 1);
      assert top[1..][k - 1..] == top[k..] && top[1..][..k] == top[..k + 1][1..];
    }
  }

  /** A walk that takes a step ends with the hash of something it hashed. */
  lemma {:induction false} WalkEndsWithHash(parent: Parent, top: seq<Level>, arity: nat, hash: Digest, idx: nat)
    requires arity > 0 && |top| > 1
    ensures exists x ::
            x in WalkInputs(parent, top, arity, hash, idx) && Walked(parent, top, arity, hash, idx) == parent(x)
    decreases |top|
  {
    var children := Spliced(top[0], RowStart(idx, arity), arity, idx % arity, hash);
    if |top| > 2 {
      WalkEndsWithHash(parent, top[1..], arity, parent(children), Quotient(idx, arity));
    } else {
      assert |top[1..]| == 1 && Walked(parent, top, arity, hash, idx) == parent(children);
      assert children in WalkInputs(parent, top, arity, hash, idx);
    }
  }

  /**
   A leaf accepted with a top `k + 1` levels too long was hashed, together with
   made-up siblings, up to a committed leaf: some list that the verifier hashed
   is a preimage of it.
   */
  lemma LongTopHashesToLeaf(parent: Parent, levels: seq<Level>, row: Level, top: seq<Level>, arity: nat, leaf: Digest,
                            bin: nat, k: nat)
    requires IsTree(parent, levels, arity) && |top| == |levels| + k
    requires Reconstructed(parent, row, top, arity, leaf, bin) == Root(levels)
    requires var all := [Placed(row, RowStart(bin, arity))] + top;
             var inputs := WalkInputs(parent, all[k + 1..], arity, Walked(parent, all[..k + 2], arity, leaf, bin),
                                      Up(bin, arity, k + 1));
             && NoCollision(parent, inputs, PathRows(levels, arity, Up(bin, arity, k + 1)))
             && (OnPath(levels, arity, Up(bin, arity, k + 1)) || NoneIsZero(parent, inputs))
    ensures var all := [Placed(row, RowStart(bin, arity))] + top;
            exists x :: x in WalkInputs(parent, all[..k + 2], arity, leaf, bin)
                        && parent(x) == Child(levels[0], Landing(|levels|, arity, Up(bin, arity, k + 1)))
  {
    var all := [Placed(row, RowStart(bin, arity))] + top;
    FoldIsWalk(parent, row, top, arity, leaf, bin);
    WalkSplits(parent, all, arity, leaf, bin, k + 1);
    WalkBindsNode(parent, levels, all[k + 1..], arity, Walked(parent, all[..k + 2], arity, leaf, bin),
                  Up(bin, arity, k + 1));
    WalkEndsWithHash(parent, all[..k + 2], arity, leaf, bin);
  }
}
