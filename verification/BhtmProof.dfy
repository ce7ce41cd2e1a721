/**
 Inclusion proofs for the block-hash-to-MuHash tree; shape and audit paths
 follow sections 2.1 and 2.1.1 of RFC 6962.
 */
module BhtmProof {
  import opened Wrappers
  import opened Arithmetic

  type Digest = b: Bytes | |b| == 32 witness seq(32, _ => 0)

  datatype Step = Left(hash: Bytes) | Right(hash: Bytes)

  datatype ProofError =
    BadLeafLength | BadTreeSize | IndexOutOfRange | EndsEarly | WrongSide | BadNodeLength | UnusedSteps

  /** Double `p` while the double is below `n`. */
  function SplitFrom(p: nat, n: nat): (k: nat)
    requires 0 < p < n
    ensures p <= k < n <= 2 * k
    decreases n - p
  {
    if p * 2 < n then SplitFrom(p * 2, n) else p
  }

  function Split(n: nat): (k: nat)
    requires n >= 2
    ensures 0 < k < n <= 2 * k
  {
    SplitFrom(1, n)
  }

  /** The largest power of two below `n`. */
  method LargestPowerOfTwoLessThan(n: nat) returns (p: nat)
    requires n >= 2
    ensures p == Split(n) && p < n <= 2 * p && exists j: nat :: p == Pow2(j)
  {
    p := 1;
    ghost var j: nat := 0;
    while p * 2 < n
      invariant 0 < p < n && SplitFrom(p, n) == Split(n) && p == Pow2(j)
      decreases n - p
    {
      p, j := p * 2, j + 1;
    }
  }

  function HashPair(sha: Bytes -> Digest, left: Bytes, right: Bytes): Result<Bytes, ProofError> {
    if |left| != 32 || |right| != 32 then Err(BadNodeLength) else Ok(sha(left + right))
  }

  /** The leaf lies in the left part. */
  predicate GoesLeft(index: nat, size: nat)
    requires size >= 2
  {
    index < Split(size)
  }

  /** The index and size of the part the leaf lies in. */
  function Part(index: nat, size: nat): (r: (nat, nat))
    requires index < size && size >= 2
    ensures r.0 < r.1 < size
  {
    var k := Split(size);
    if index < k then (index, k) else (index - k, size - k)
  }

  /** The next step of the proof must be the sibling on the other side. */
  function Up(sha: Bytes -> Digest, hash: Bytes, at: nat, proof: seq<Step>,
              left: bool): Result<(Bytes, nat), ProofError>
  {
    if at >= |proof| then Err(EndsEarly)
    else if proof[at].Right? != left then Err(WrongSide)
    else
      match (if left then HashPair(sha, hash, proof[at].hash) else HashPair(sha, proof[at].hash, hash))
      case Err(e) => Err(e)
      case Ok(parent) => Ok((parent, at + 1))
  }

  /** Fold the proof over the range of `size` leaves; the second part is where the proof index ends. */
  function Fold(sha: Bytes -> Digest, node: Bytes, index: nat, size: nat,
                proof: seq<Step>): Result<(Bytes, nat), ProofError>
    requires index < size
    decreases size
  {
    if size == 1 then Ok((node, 0))
    else
      match Fold(sha, node, Part(index, size).0, Part(index, size).1, proof)
      case Err(e) => Err(e)
      case Ok((hash, at)) => Up(sha, hash, at, proof, GoesLeft(index, size))
  }

  /** The root that a proof claims, or why it is refused. */
  function VerifyInclusionProof(sha: Bytes -> Digest, leaf: Bytes, index: int, size: int,
                                proof: seq<Step>): Result<Bytes, ProofError>
  {
    if |leaf| != 32 then Err(BadLeafLength)
    else if size <= 0 then Err(BadTreeSize)
    else if index < 0 || index >= size then Err(IndexOutOfRange)
    else
      match Fold(sha, leaf, index, size, proof)
      case Err(e) => Err(e)
      case Ok((root, used)) => if used != |proof| then Err(UnusedSteps) else Ok(root)
  }

  // ----- the tree and its audit paths

  function TreeHash(sha: Bytes -> Digest, leaves: seq<Digest>): Digest
    requires leaves != []
  {
    if |leaves| == 1 then leaves[0]
    else
      var k := Split(|leaves|);
      sha(TreeHash(sha, leaves[..k]) + TreeHash(sha, leaves[k..]))
  }

  function AuditPath(sha: Bytes -> Digest, leaves: seq<Digest>, index: nat): seq<Step>
    requires index < |leaves|
  {
    if |leaves| == 1 then []
    else
      var k := Split(|leaves|);
      if index < k then AuditPath(sha, leaves[..k], index) + [Right(TreeHash(sha, leaves[k..]))]
      else AuditPath(sha, leaves[k..], index - k) + [Left(TreeHash(sha, leaves[..k]))]
  }

  /** Folding reads a prefix of the proof and nothing else. */
  lemma {:induction false} FoldLocal(sha: Bytes -> Digest, node: Bytes, index: nat, size: nat, proof: seq<Step>,
                                     more: seq<Step>)
    requires index < size && Fold(sha, node, index, size, proof).Ok?
    ensures Fold(sha, node, index, size, proof + more) == Fold(sha, node, index, size, proof)
    decreases size
  {
    if size > 1 {
      FoldLocal(sha, node, Part(index, size).0, Part(index, size).1, proof, more);
    }
  }

  function Joined(hash: Bytes, step: Step): Bytes {
    if step.Right? then hash + step.hash else step.hash + hash
  }

  /** The whole path is used and gives `root`. */
  predicate FoldsTo(sha: Bytes -> Digest, node: Bytes, index: nat, size: nat, path: seq<Step>, root: Digest)
    requires index < size
  {
    Fold(sha, node, index, size, path) == Ok((root, |path|))
  }

  /** One more honest step above a fold. */
  lemma FoldUp(sha: Bytes -> Digest, node: Bytes, index: nat, size: nat, path: seq<Step>, hash: Digest, step: Step)
    requires 2 <= size && index < size && |step.hash| == 32 && step.Right? == GoesLeft(index, size)
    requires FoldsTo(sha, node, Part(index, size).0, Part(index, size).1, path, hash)
    ensures FoldsTo(sha, node, index, size, path + [step], sha(Joined(hash, step)))
  {
    FoldLocal(sha, node, Part(index, size).0, Part(index, size).1, path, [step]);
    assert (path + [step])[|path|] == step;
  }

  /** The honest path of every leaf folds to the tree hash and is used up exactly. */
  lemma {:induction false} PathFolds(sha: Bytes -> Digest, leaves: seq<Digest>, index: nat, size: nat, leaf: Digest)
    requires index < size == |leaves| && leaf == leaves[index]
    ensures FoldsTo(sha, leaf, index, size, AuditPath(sha, leaves, index), TreeHash(sha, leaves))
    decreases size
  {
    if size > 1 {
      var k := Split(size);
      var left, right := leaves[..k], leaves[k..];
      if index < k {
        PathFolds(sha, left, index, k, leaf);
        FoldUp(sha, leaf, index, size, AuditPath(sha, left, index), TreeHash(sha, left), Right(TreeHash(sha, right)));
      } else {
        PathFolds(sha, right, index - k, size - k, leaf);
        FoldUp(sha, leaf, index, size, AuditPath(sha, right, index - k), TreeHash(sha, right),
               Left(TreeHash(sha, left)));
      }
    }
  }

  lemma HonestProofAccepted(sha: Bytes -> Digest, leaves: seq<Digest>, index: nat)
    requires index < |leaves|
    ensures VerifyInclusionProof(sha, leaves[index], index, |leaves|, AuditPath(sha, leaves, index))
            == Ok(TreeHash(sha, leaves))
  {
    PathFolds(sha, leaves, index, |leaves|, leaves[index]);
  }

  // ----- soundness, up to a collision among the pairs actually hashed

  /** The 64-byte strings that folding hashes, from the leaf up. */
  function Hashed(sha: Bytes -> Digest, node: Bytes, index: nat, size: nat, proof: seq<Step>): seq<Bytes>
    requires index < size && Fold(sha, node, index, size, proof).Ok?
    decreases size
  {
    if size == 1 then []
    else
      var (i, n) := Part(index, size);
      var (hash, at) := Fold(sha, node, i, n, proof).value;
      Hashed(sha, node, i, n, proof) + [Joined(hash, proof[at])]
  }

  ghost predicate NoCollision(sha: Bytes -> Digest, xs: seq<Bytes>, ys: seq<Bytes>) {
    forall i, j | 0 <= i < |xs| && 0 <= j < |ys| && sha(xs[i]) == sha(ys[j]) :: xs[i] == ys[j]
  }

  lemma NoCollisionPrefix(sha: Bytes -> Digest, xs: seq<Bytes>, ys: seq<Bytes>, x: Bytes, y: Bytes)
    requires NoCollision(sha, xs + [x], ys + [y])
    ensures NoCollision(sha, xs, ys) && (sha(x) == sha(y) ==> x == y)
  {
    assert (xs + [x])[|xs|] == x && (ys + [y])[|ys|] == y;
    forall i, j | 0 <= i < |xs| && 0 <= j < |ys| && sha(xs[i]) == sha(ys[j]) ensures xs[i] == ys[j] {
      assert (xs + [x])[i] == xs[i] && (ys + [y])[j] == ys[j];
    }
  }

  lemma {:induction false} FoldLength(sha: Bytes -> Digest, node: Bytes, index: nat, size: nat, proof: seq<Step>)
    requires index < size && |node| == 32 && Fold(sha, node, index, size, proof).Ok?
    ensures |Fold(sha, node, index, size, proof).value.0| == 32
            && Fold(sha, node, index, size, proof).value.1 <= |proof|
    decreases size
  {
    if size > 1 {
      FoldLength(sha, node, Part(index, size).0, Part(index, size).1, proof);
    }
  }

  /** Two 64-byte joins on the same side are equal only when their halves are. */
  lemma JoinedParts(x: Bytes, y: Bytes, s: Step, t: Step)
    requires |x| == |y| == |s.hash| == |t.hash| == 32 && s.Right? == t.Right? && Joined(x, s) == Joined(y, t)
    ensures x == y && s == t
  {
    assert Joined(x, s)[..32] == Joined(y, t)[..32] && Joined(x, s)[32..] == Joined(y, t)[32..];
  }

  /** Two folds of the same position to the same hash started from the same node and read the same steps. */
  lemma {:induction false} FoldsAgree(sha: Bytes -> Digest, a: Bytes, b: Bytes, index: nat, size: nat, p: seq<Step>,
                                      q: seq<Step>)
    requires index < size && |a| == |b| == 32
    requires Fold(sha, a, index, size, p).Ok? && Fold(sha, b, index, size, q).Ok?
    requires Fold(sha, a, index, size, p).value.0 == Fold(sha, b, index, size, q).value.0
    requires NoCollision(sha, Hashed(sha, a, index, size, p), Hashed(sha, b, index, size, q))
    ensures a == b
    ensures var n := Fold(sha, a, index, size, p).value.1;
            n == Fold(sha, b, index, size, q).value.1 && n <= |p| && n <= |q| && p[..n] == q[..n]
    decreases size
  {
    if size > 1 {
      var (i, n) := Part(index, size);
      var (x, at) := Fold(sha, a, i, n, p).value;
      var (y, at') := Fold(sha, b, i, n, q).value;
      FoldLength(sha, a, i, n, p);
      FoldLength(sha, b, i, n, q);
      NoCollisionPrefix(sha, Hashed(sha, a, i, n, p), Hashed(sha, b, i, n, q), Joined(x, p[at]), Joined(y, q[at']));
      JoinedParts(x, y, p[at], q[at']);
      FoldsAgree(sha, a, b, i, n, p, q);
      assert p[..at + 1] == p[..at] + [p[at]] && q[..at + 1] == q[..at] + [q[at]];
    }
  }

  /** The strings an accepted proof hashes. */
  function Preimages(sha: Bytes -> Digest, leaf: Bytes, index: nat, size: nat, proof: seq<Step>): seq<Bytes>
    requires index < size && VerifyInclusionProof(sha, leaf, index, size, proof).Ok?
  {
    Hashed(sha, leaf, index, size, proof)
  }

  /** Two accepted proofs for one index, size and root have the same leaf and the same steps. */
  lemma AcceptedProofUnique(sha: Bytes -> Digest, a: Bytes, b: Bytes, index: nat, size: nat, p: seq<Step>, q: seq<Step>)
    requires index < size
    requires VerifyInclusionProof(sha, a, index, size, p).Ok?
    requires VerifyInclusionProof(sha, a, index, size, p) == VerifyInclusionProof(sha, b, index, size, q)
    requires NoCollision(sha, Preimages(sha, a, index, size, p), Preimages(sha, b, index, size, q))
    ensures a == b && p == q
  {
    FoldsAgree(sha, a, b, index, size, p, q);
    assert p[..|p|] == p && q[..|q|] == q;
  }

  /** What is accepted under a tree's hash is that tree's own leaf with its own audit path. */
  lemma AcceptedIsCommitted(sha: Bytes -> Digest, leaves: seq<Digest>, index: nat, leaf: Bytes, proof: seq<Step>)
    requires index < |leaves|
    requires VerifyInclusionProof(sha, leaf, index, |leaves|, proof) == Ok(TreeHash(sha, leaves))
    requires VerifyInclusionProof(sha, leaves[index], index, |leaves|, AuditPath(sha, leaves, index)).Ok? ==>
               NoCollision(sha, Preimages(sha, leaf, index, |leaves|, proof),
                           Preimages(sha, leaves[index], index, |leaves|, AuditPath(sha, leaves, index)))
    ensures leaf == leaves[index] && proof == AuditPath(sha, leaves, index)
  {
    HonestProofAccepted(sha, leaves, index);
    AcceptedProofUnique(sha, leaf, leaves[index], index, |leaves|, proof, AuditPath(sha, leaves, index));
  }

  // ----- which proofs are accepted at all

  /** For each step of a proof, from the leaf up, whether it is a right sibling. */
  function Sides(index: nat, size: nat): seq<bool>
    requires index < size
    decreases size
  {
    if size == 1 then [] else Sides(Part(index, size).0, Part(index, size).1) + [GoesLeft(index, size)]
  }

  /** The proof begins with 32-byte siblings on these sides. */
  predicate Follows(proof: seq<Step>, sides: seq<bool>) {
    |sides| <= |proof| && forall k | 0 <= k < |sides| :: proof[k].Right? == sides[k] && |proof[k].hash| == 32
  }

  lemma FollowsOne(proof: seq<Step>, sides: seq<bool>, side: bool)
    ensures Follows(proof, sides + [side]) <==>
            Follows(proof, sides) && |sides| < |proof| && proof[|sides|].Right? == side && |proof[|sides|].hash| == 32
  {
    var more := sides + [side];
    if Follows(proof, more) {
      assert proof[|sides|].Right? == more[|sides|];
      assert forall k | 0 <= k < |sides| :: more[k] == sides[k];
    }
  }

  lemma {:induction false} FoldShape(sha: Bytes -> Digest, node: Bytes, index: nat, size: nat, proof: seq<Step>)
    requires index < size && |node| == 32
    ensures Fold(sha, node, index, size, proof).Ok? <==> Follows(proof, Sides(index, size))
    ensures Fold(sha, node, index, size, proof).Ok? ==>
            Fold(sha, node, index, size, proof).value.1 == |Sides(index, size)|
    decreases size
  {
    if size > 1 {
      var (i, n) := Part(index, size);
      FoldShape(sha, node, i, n, proof);
      FollowsOne(proof, Sides(i, n), GoesLeft(index, size));
      if Fold(sha, node, i, n, proof).Ok? {
        FoldLength(sha, node, i, n, proof);
      }
    }
  }

  /**
   A proof is taken exactly if the leaf has 32 bytes, the index is in range and
   the steps are 32-byte siblings on the sides of the index, no more and no less.
   */
  lemma TakenExactly(sha: Bytes -> Digest, leaf: Bytes, index: int, size: int, proof: seq<Step>)
    ensures VerifyInclusionProof(sha, leaf, index, size, proof).Ok? <==>
            && |leaf| == 32 && 0 <= index < size
            && Follows(proof, Sides(index, size)) && |proof| == |Sides(index, size)|
    ensures |leaf| == 32 && size <= 0 ==> VerifyInclusionProof(sha, leaf, index, size, proof) == Err(BadTreeSize)
    ensures |leaf| == 32 && 0 <= index < size && Follows(proof, Sides(index, size))
            && |proof| > |Sides(index, size)| ==>
            VerifyInclusionProof(sha, leaf, index, size, proof) == Err(UnusedSteps)
  {
    if |leaf| == 32 && 0 <= index < size {
      FoldShape(sha, leaf, index, size, proof);
    }
  }
}
