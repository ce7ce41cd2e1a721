/** Result and byte types, and what every component may use about byte strings and sets. */
module Wrappers {

  datatype Option<+T> = None | Some(value: T)

  datatype Result<+T, +E> = Ok(value: T) | Err(error: E)

  /** One octet. */
  type Byte = b: int | 0 <= b < 256

  type Bytes = seq<Byte>

  lemma SubsetSize<T>(a: set<T>, b: set<T>)
    requires a <= b
    ensures |a| <= |b|
  {
    assert b == a + (b - a);
  }

  function Concat(parts: seq<Bytes>): Bytes {
    if parts == [] then [] else Concat(parts[..|parts| - 1]) + parts[|parts| - 1]
  }

  /** `bytes` stand in `data` from `pos` on. */
  predicate At(data: Bytes, pos: nat, bytes: Bytes) {
    pos + |bytes| <= |data| && data[pos..pos + |bytes|] == bytes
  }

  lemma AtSplit(data: Bytes, pos: nat, a: Bytes, b: Bytes)
    requires At(data, pos, a + b)
    ensures At(data, pos, a) && At(data, pos + |a|, b)
  {
    var ab := data[pos..pos + |a + b|];
    assert ab[..|a|] == a && ab[|a|..] == b;
  }

  lemma AtWithin(data: Bytes, pos: nat, whole: Bytes, off: nat, part: Bytes)
    requires At(data, pos, whole) && At(whole, off, part)
    ensures At(data, pos + off, part)
  {
    var all, got := data[pos..pos + |whole|], data[pos + off..pos + off + |part|];
    forall i | 0 <= i < |part| ensures got[i] == part[i] {
      assert all[off + i] == whole[off + i] == whole[off..off + |part|][i];
    }
    assert got == part;
  }

  /** Each part stands behind those before it. */
  lemma {:induction false} ConcatPrefix(rs: seq<Bytes>, i: nat)
    requires i < |rs|
    ensures |Concat(rs[..i + 1])| == |Concat(rs[..i])| + |rs[i]| && At(Concat(rs), |Concat(rs[..i])|, rs[i])
  {
    var n := |rs| - 1;
    assert rs[..i + 1][..i] == rs[..i];
    if i < n {
      assert rs[..n][..i] == rs[..i] && rs[..n][..i + 1] == rs[..i + 1];
      ConcatPrefix(rs[..n], i);
    } else {
      assert rs[..i + 1] == rs;
    }
  }
}
