/** The anchor check: a tree-top blob counts only if its roots hash to the pinned super root. */
module OnionAnchor {
  import opened Wrappers
  import opened NaryMerkle

  datatype TreeTop = TreeTop(arity: nat, levels: seq<Level>)

  /** What the server's metadata declares about the tree-tops; `superRoot` is pinned. */
  datatype Info = Info(arity: nat, indexK: nat, dataK: nat, topsSize: nat, topsHash: Digest, superRoot: Digest)

  function Roots(tops: seq<seq<Level>>): seq<Digest> {
    seq(|tops|, t requires 0 <= t < |tops| => Root(tops[t]))
  }

  function LevelsOf(tops: seq<TreeTop>): (r: seq<seq<Level>>)
    ensures |r| == |tops|
  {
    seq(|tops|, t requires 0 <= t < |tops| => tops[t].levels)
  }

  ghost predicate Anchored(sha: Bytes -> Digest, info: Info, blob: Bytes, tops: seq<TreeTop>) {
    && |tops| == info.indexK + info.dataK
    && |blob| == info.topsSize && sha(blob) == info.topsHash
    && (forall t | 0 <= t < |tops| :: tops[t].arity == info.arity && HasRoot(tops[t].levels))
    && sha(Concat(Roots(LevelsOf(tops)))) == info.superRoot
  }

  method CheckTreeTopAnchor(sha: Bytes -> Digest, info: Info, blob: Bytes, tops: seq<TreeTop>) returns (ok: bool)
    ensures ok <==> Anchored(sha, info, blob, tops)
  {
    if |tops| != info.indexK + info.dataK { return false; }
    if |blob| != info.topsSize { return false; }
    if sha(blob) != info.topsHash { return false; }
    for t := 0 to |tops|
      invariant forall u | 0 <= u < t :: tops[u].arity == info.arity
    {
      if tops[t].arity != info.arity { return false; }
    }
    ghost var roots := Roots(LevelsOf(tops));
    var preimage: Bytes := [];
    for t := 0 to |tops|
      invariant forall u | 0 <= u < t :: HasRoot(tops[u].levels)
      invariant preimage == Concat(roots[..t])
    {
      if !HasRoot(tops[t].levels) { return false; }
      assert roots[..t + 1][..t] == roots[..t];
      preimage := preimage + Root(tops[t].levels);
    }
    assert roots[..|tops|] == roots;
    return sha(preimage) == info.superRoot;
  }

  ghost predicate AllDigests(ds: seq<Digest>) {
    forall i | 0 <= i < |ds| :: |ds[i]| == 32
  }

  /** Concatenated digests can be told apart. */
  lemma {:induction false} ConcatInjective(a: seq<Digest>, b: seq<Digest>)
    requires |a| == |b| && AllDigests(a) && AllDigests(b) && Concat(a) == Concat(b)
    ensures a == b
  {
    if a != [] {
      var n := |a| - 1;
      var x, y := Concat(a[..n]), Concat(b[..n]);
      assert Concat(a)[|x|..] == a[n] && Concat(b)[|y|..] == b[n];
      assert |x| == |y| && x == Concat(a)[..|x|] && y == Concat(b)[..|y|];
      ConcatInjective(a[..n], b[..n]);
      assert a == a[..n] + [a[n]] && b == b[..n] + [b[n]];
    }
  }

  /** Tops that pass the check carry the roots that were committed to, unless the two lists of roots collide. */
  lemma AnchorFixesRoots(sha: Bytes -> Digest, info: Info, blob: Bytes, tops: seq<TreeTop>, trees: seq<seq<Level>>)
    requires Anchored(sha, info, blob, tops) && |trees| == info.indexK + info.dataK
    requires sha(Concat(Roots(trees))) == info.superRoot
    requires AllDigests(Roots(LevelsOf(tops))) && AllDigests(Roots(trees))
    requires sha(Concat(Roots(LevelsOf(tops)))) == sha(Concat(Roots(trees))) ==>
             Concat(Roots(LevelsOf(tops))) == Concat(Roots(trees))
    ensures forall t | 0 <= t < |tops| :: Root(tops[t].levels) == Root(trees[t])
  {
    ConcatInjective(Roots(LevelsOf(tops)), Roots(trees));
    forall t | 0 <= t < |tops| ensures Root(tops[t].levels) == Root(trees[t]) {
      assert Roots(LevelsOf(tops))[t] == Roots(trees)[t];
    }
  }

  /** The metadata that goes with a blob; the super root stays pinned. */
  function Declared(sha: Bytes -> Digest, info: Info, blob: Bytes): Info {
    info.(topsSize := |blob|, topsHash := sha(blob))
  }

  /**
   The check sees no more of a top than its root: another top with that root
   passes in its place, in a blob of its own.
   */
  lemma AnchorSeesRoots(sha: Bytes -> Digest, info: Info, blob: Bytes, tops: seq<TreeTop>, t: nat, top: seq<Level>,
                        other: Bytes)
    requires Anchored(sha, info, blob, tops) && t < |tops| && HasRoot(top) && Root(top) == Root(tops[t].levels)
    ensures Anchored(sha, Declared(sha, info, other), other, tops[t := TreeTop(info.arity, top)])
  {
    assert Roots(LevelsOf(tops[t := TreeTop(info.arity, top)])) == Roots(LevelsOf(tops));
  }
}
