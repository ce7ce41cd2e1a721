/** The tree-top blob: parsing it, and which tops a blob can carry. */
module OnionTops {
  import opened Wrappers
  import opened Radix
  import opened NaryMerkle
  import opened OnionAnchor

  // ----- reading one thing after another

  /** What stands at a position, and the position after it. */
  type Reader<!T> = nat -> Option<(T, nat)>

  /** `n` things one after another. */
  function Repeat<T>(read: Reader<T>, pos: nat, n: nat): (r: Option<(seq<T>, nat)>)
    ensures r.Some? ==> |r.value.0| == n
  {
    if n == 0 then Some(([], pos)) else AndNext(Repeat(read, pos, n - 1), read)
  }

  function AndNext<T>(before: Option<(seq<T>, nat)>, read: Reader<T>): Option<(seq<T>, nat)> {
    if before.None? then None
    else
      var next := read(before.value.1);
      if next.None? then None else Some((before.value.0 + [next.value.0], next.value.1))
  }

  lemma {:induction false} RepeatStops<T>(read: Reader<T>, pos: nat, m: nat, n: nat)
    requires m <= n && Repeat(read, pos, m).None?
    ensures Repeat(read, pos, n).None?
    decreases n
  {
    if m < n {
      RepeatStops(read, pos, m, n - 1);
    }
  }

  /** Whatever every reading has, all that was read has. */
  lemma {:induction false} RepeatAll<T(!new)>(read: Reader<T>, pos: nat, n: nat, good: T -> bool)
    requires forall p: nat | read(p).Some? :: good(read(p).value.0)
    requires Repeat(read, pos, n).Some?
    ensures forall i | 0 <= i < n :: good(Repeat(read, pos, n).value.0[i])
  {
    if n > 0 {
      RepeatAll(read, pos, n - 1, good);
    }
  }

  /** The bytes `part` are read as `t` wherever they stand. */
  ghost predicate ReadsAs<T(!new)>(data: Bytes, read: Reader<T>, part: Bytes, t: T) {
    forall p: nat | At(data, p, part) :: read(p) == Some((t, p + |part|))
  }

  ghost predicate AllReadAs<T(!new)>(data: Bytes, read: Reader<T>, parts: seq<Bytes>, ts: seq<T>) {
    |parts| == |ts| && forall i | 0 <= i < |ts| :: ReadsAs(data, read, parts[i], ts[i])
  }

  /** Reading undoes writing one after another. */
  lemma RepeatReads<T(!new)>(data: Bytes, read: Reader<T>, pos: nat, parts: seq<Bytes>, ts: seq<T>)
    requires At(data, pos, Concat(parts)) && AllReadAs(data, read, parts, ts)
    ensures Repeat(read, pos, |ts|) == Some((ts, pos + |Concat(parts)|))
  {
    RepeatReadsTo(data, read, pos, parts, ts, |ts|);
    assert ts[..|ts|] == ts && parts[..|ts|] == parts;
  }

  lemma {:induction false} RepeatReadsTo<T(!new)>(data: Bytes, read: Reader<T>, pos: nat, parts: seq<Bytes>,
                                                  ts: seq<T>, n: nat)
    requires At(data, pos, Concat(parts)) && AllReadAs(data, read, parts, ts) && n <= |ts|
    ensures Repeat(read, pos, n) == Some((ts[..n], pos + |Concat(parts[..n])|))
    decreases n
  {
    if n > 0 {
      var k := n - 1;
      var mid := pos + |Concat(parts[..k])|;
      RepeatReadsTo(data, read, pos, parts, ts, k);
      NextPartReads(data, read, pos, parts, ts, k, mid);
      RepeatNext(read, pos, k, ts, mid, mid + |parts[k]|);
    }
  }

  lemma PartAt(data: Bytes, pos: nat, parts: seq<Bytes>, k: nat)
    requires At(data, pos, Concat(parts)) && k < |parts|
    ensures At(data, pos + |Concat(parts[..k])|, parts[k])
    ensures |Concat(parts[..k + 1])| == |Concat(parts[..k])| + |parts[k]|
  {
    ConcatPrefix(parts, k);
    AtWithin(data, pos, Concat(parts), |Concat(parts[..k])|, parts[k]);
  }

  lemma ReadOne<T(!new)>(data: Bytes, read: Reader<T>, parts: seq<Bytes>, ts: seq<T>, k: nat, pos: nat)
    requires AllReadAs(data, read, parts, ts) && k < |ts| && At(data, pos, parts[k])
    ensures read(pos) == Some((ts[k], pos + |parts[k]|))
  {
    assert ReadsAs(data, read, parts[k], ts[k]);
  }

  lemma NextPartReads<T(!new)>(data: Bytes, read: Reader<T>, pos: nat, parts: seq<Bytes>, ts: seq<T>, k: nat, mid: nat)
    requires At(data, pos, Concat(parts)) && AllReadAs(data, read, parts, ts) && k < |ts|
    requires mid == pos + |Concat(parts[..k])|
    ensures read(mid) == Some((ts[k], mid + |parts[k]|)) && mid + |parts[k]| == pos + |Concat(parts[..k + 1])|
  {
    PartAt(data, pos, parts, k);
    ReadOne(data, read, parts, ts, k, mid);
  }

  lemma RepeatNext<T>(read: Reader<T>, pos: nat, k: nat, ts: seq<T>, mid: nat, end: nat)
    requires k < |ts| && Repeat(read, pos, k) == Some((ts[..k], mid)) && read(mid) == Some((ts[k], end))
    ensures Repeat(read, pos, k + 1) == Some((ts[..k + 1], end))
  {
    assert ts[..k + 1] == ts[..k] + [ts[k]];
  }

  // ----- the format

  const HASH: nat := 32

  function NodeAt(data: Bytes): Reader<Digest> {
    (pos: nat) => if pos + HASH <= |data| then Some((data[pos..pos + HASH], pos + HASH)) else None
  }

  function LevelAt(data: Bytes): Reader<Level> {
    (pos: nat) => if pos + 4 > |data| then None else Repeat(NodeAt(data), pos + 4, Read32(data, pos))
  }

  /** First cached level, node total, arity, number of levels, and the levels. */
  function TreeAt(data: Bytes): Reader<TreeTop> { TreeWith(data, LevelAt(data)) }

  function TreeWith(data: Bytes, level: Reader<Level>): Reader<TreeTop> {
    (pos: nat) =>
      if pos + 8 > |data| then None
      else TopOf(Read16(data, pos + 5), Repeat(level, pos + 8, data[pos + 7]))
  }

  function TopOf(arity: nat, levels: Option<(seq<Level>, nat)>): Option<(TreeTop, nat)> {
    if arity == 0 || levels.None? then None else Some((TreeTop(arity, levels.value.0), levels.value.1))
  }

  /** The tops of a blob that is one from its first to its last byte. */
  function Parsed(data: Bytes): Option<seq<TreeTop>> {
    if |data| < 4 then None
    else
      var trees := Repeat(TreeAt(data), 4, Read32(data, 0));
      if trees.None? || trees.value.1 != |data| then None else Some(trees.value.0)
  }

  // ----- the parser's loops

  /** All nodes of a level are there exactly if the blob is long enough for them. */
  lemma {:induction false} NodesFit(data: Bytes, pos: nat, n: nat)
    requires pos <= |data|
    ensures Repeat(NodeAt(data), pos, n).Some? <==> pos + HASH * n <= |data|
    ensures Repeat(NodeAt(data), pos, n).Some? ==> Repeat(NodeAt(data), pos, n).value.1 == pos + HASH * n
  {
    if n > 0 {
      NodesFit(data, pos, n - 1);
    }
  }

  method ParseLevel(data: Bytes, pos: nat) returns (r: Option<(Level, nat)>)
    ensures r == LevelAt(data)(pos)
  {
    if pos + 4 > |data| {
      return None;
    }
    var n, off := Read32(data, pos), pos + 4;
    NodesFit(data, off, n);
    if off + n * 32 > |data| {
      return None;
    }
    var nodes := ParseNodes(data, off, n);
    return Some((nodes, off + n * 32));
  }

  method ParseNodes(data: Bytes, start: nat, n: nat) returns (nodes: Level)
    requires start + HASH * n <= |data|
    ensures Repeat(NodeAt(data), start, n) == Some((nodes, start + HASH * n))
  {
    nodes := [];
    var off := start;
    for i := 0 to n
      invariant off == start + HASH * i && Repeat(NodeAt(data), start, i) == Some((nodes, off))
    {
      nodes := nodes + [data[off..off + 32]];
      off := off + 32;
    }
  }

  method ParseLevels(data: Bytes, start: nat, n: nat) returns (r: Option<(seq<Level>, nat)>)
    ensures r == Repeat(LevelAt(data), start, n)
  {
    var levels: seq<Level>, off := [], start;
    for l := 0 to n
      invariant Repeat(LevelAt(data), start, l) == Some((levels, off))
    {
      var level := ParseLevel(data, off);
      if level.None? {
        RepeatStops(LevelAt(data), start, l + 1, n);
        return None;
      }
      levels, off := levels + [level.value.0], level.value.1;
    }
    return Some((levels, off));
  }

  method ParseTree(data: Bytes, pos: nat) returns (r: Option<(TreeTop, nat)>)
    ensures r == TreeAt(data)(pos)
  {
    if pos + 8 > |data| {
      return None;
    }
    var arity, numLevels: nat := Read16(data, pos + 5), data[pos + 7];
    if arity == 0 {
      return None;
    }
    var levels := ParseLevels(data, pos + 8, numLevels);
    return TopOf(arity, levels);
  }

  method ParseTrees(data: Bytes, start: nat, n: nat) returns (r: Option<(seq<TreeTop>, nat)>)
    ensures r == Repeat(TreeAt(data), start, n)
  {
    var out: seq<TreeTop>, off := [], start;
    for t := 0 to n
      invariant Repeat(TreeAt(data), start, t) == Some((out, off))
    {
      var tree := ParseTree(data, off);
      if tree.None? {
        RepeatStops(TreeAt(data), start, t + 1, n);
        return None;
      }
      out, off := out + [tree.value.0], tree.value.1;
    }
    return Some((out, off));
  }

  method ParseOnionTreeTopCache(data: Bytes) returns (r: Option<seq<TreeTop>>)
    ensures r == Parsed(data)
  {
    if |data| < 4 {
      return None;
    }
    var trees := ParseTrees(data, 4, Read32(data, 0));
    if trees.None? || trees.value.1 != |data| {
      return None;
    }
    return Some(trees.value.0);
  }

  // ----- which tops a blob can carry

  ghost predicate StorableLevel(level: Level) {
    |level| < 0x1_0000_0000 && AllDigests(level)
  }

  ghost predicate Storable(t: TreeTop) {
    0 < t.arity < 0x1_0000 && |t.levels| < 256 && forall l | 0 <= l < |t.levels| :: StorableLevel(t.levels[l])
  }

  ghost predicate AllStorable(tops: seq<TreeTop>) {
    |tops| < 0x1_0000_0000 && forall t | 0 <= t < |tops| :: Storable(tops[t])
  }

  function LevelBytes(level: Level): Bytes {
    LittleEndian(|level|, WORD) + Concat(level)
  }

  function LevelParts(levels: seq<Level>): (r: seq<Bytes>)
    ensures |r| == |levels|
  {
    seq(|levels|, l requires 0 <= l < |levels| => LevelBytes(levels[l]))
  }

  /** A top, its two informational fields left 0. */
  function TreeBytes(t: TreeTop): Bytes {
    TreeHead(t) + Concat(LevelParts(t.levels))
  }

  function TreeHead(t: TreeTop): (r: Bytes)
    ensures |r| == 8
  {
    [0, 0, 0, 0, 0] + LittleEndian(t.arity, HALF_WORD) + [|t.levels| % 256]
  }

  function TreeParts(tops: seq<TreeTop>): (r: seq<Bytes>)
    ensures |r| == |tops|
  {
    seq(|tops|, t requires 0 <= t < |tops| => TreeBytes(tops[t]))
  }

  function BlobOf(tops: seq<TreeTop>): Bytes {
    LittleEndian(|tops|, WORD) + Concat(TreeParts(tops))
  }

  lemma LevelReads(data: Bytes, level: Level)
    requires StorableLevel(level)
    ensures ReadsAs(data, LevelAt(data), LevelBytes(level), level)
  {
    forall p: nat | At(data, p, LevelBytes(level))
      ensures LevelAt(data)(p) == Some((level, p + |LevelBytes(level)|))
    {
      LevelReadsAt(data, p, level);
    }
  }

  lemma LevelReadsAt(data: Bytes, p: nat, level: Level)
    requires StorableLevel(level) && At(data, p, LevelBytes(level))
    ensures LevelAt(data)(p) == Some((level, p + |LevelBytes(level)|))
  {
    AtSplit(data, p, LittleEndian(|level|, WORD), Concat(level));
    WordValue(|level|);
    RepeatReads(data, NodeAt(data), p + 4, level, level);
  }

  lemma HeadReads(data: Bytes, p: nat, t: TreeTop)
    requires At(data, p, TreeHead(t)) && t.arity < 0x1_0000 && |t.levels| < 256
    ensures Read16(data, p + 5) == t.arity && data[p + 7] == |t.levels|
  {
    var head := data[p..p + 8];
    assert head[5..7] == LittleEndian(t.arity, HALF_WORD) && head[7] == |t.levels|;
    assert data[p + 5..p + 7] == head[5..7] && data[p + 7] == head[7];
    HalfWordValue(t.arity);
  }

  lemma TreeReadsAt(data: Bytes, level: Reader<Level>, p: nat, t: TreeTop, parts: seq<Bytes>, head: Bytes)
    requires 0 < t.arity < 0x1_0000 && |t.levels| < 256 && head == TreeHead(t) && At(data, p, head + Concat(parts))
    requires AllReadAs(data, level, parts, t.levels)
    ensures TreeWith(data, level)(p) == Some((t, p + |head + Concat(parts)|))
  {
    AtSplit(data, p, head, Concat(parts));
    HeadReads(data, p, t);
    RepeatReads(data, level, p + 8, parts, t.levels);
  }

  lemma LevelsReadAs(data: Bytes, levels: seq<Level>)
    requires forall l | 0 <= l < |levels| :: StorableLevel(levels[l])
    ensures AllReadAs(data, LevelAt(data), LevelParts(levels), levels)
  {
    forall l | 0 <= l < |levels| ensures ReadsAs(data, LevelAt(data), LevelParts(levels)[l], levels[l]) {
      LevelReads(data, levels[l]);
    }
  }

  lemma TreeReads(data: Bytes, t: TreeTop)
    requires Storable(t)
    ensures ReadsAs(data, TreeAt(data), TreeBytes(t), t)
  {
    LevelsReadAs(data, t.levels);
    TreePartsRead(data, LevelAt(data), t, LevelParts(t.levels), TreeHead(t));
  }

  lemma TreePartsRead(data: Bytes, level: Reader<Level>, t: TreeTop, parts: seq<Bytes>, head: Bytes)
    requires 0 < t.arity < 0x1_0000 && |t.levels| < 256 && head == TreeHead(t)
             && AllReadAs(data, level, parts, t.levels)
    ensures ReadsAs(data, TreeWith(data, level), head + Concat(parts), t)
  {
    forall p: nat | At(data, p, head + Concat(parts))
      ensures TreeWith(data, level)(p) == Some((t, p + |head + Concat(parts)|))
    {
      TreeReadsAt(data, level, p, t, parts, head);
    }
  }

  /** Parsing undoes writing. */
  lemma BlobRoundTrip(tops: seq<TreeTop>)
    requires AllStorable(tops)
    ensures Parsed(BlobOf(tops)) == Some(tops)
  {
    var data := BlobOf(tops);
    assert At(data, 0, BlobOf(tops));
    AtSplit(data, 0, LittleEndian(|tops|, WORD), Concat(TreeParts(tops)));
    WordValue(|tops|);
    TreesReadAs(data, tops);
    RepeatReads(data, TreeAt(data), 4, TreeParts(tops), tops);
  }

  lemma TreesReadAs(data: Bytes, tops: seq<TreeTop>)
    requires AllStorable(tops)
    ensures AllReadAs(data, TreeAt(data), TreeParts(tops), tops)
  {
    forall t | 0 <= t < |tops| ensures ReadsAs(data, TreeAt(data), TreeParts(tops)[t], tops[t]) {
      TreeReads(data, tops[t]);
    }
  }

  lemma LevelStorable(data: Bytes, p: nat)
    requires LevelAt(data)(p).Some?
    ensures StorableLevel(LevelAt(data)(p).value.0)
  {
    WordBound(data, p);
    RepeatAll(NodeAt(data), p + 4, Read32(data, p), node => |node| == 32);
  }

  lemma TreeStorable(data: Bytes, p: nat)
    requires TreeAt(data)(p).Some?
    ensures Storable(TreeAt(data)(p).value.0)
  {
    WordBound(data, p + 5);
    forall q: nat | LevelAt(data)(q).Some? ensures StorableLevel(LevelAt(data)(q).value.0) {
      LevelStorable(data, q);
    }
    RepeatAll(LevelAt(data), p + 8, data[p + 7], level => StorableLevel(level));
  }

  lemma ParsedStorable(data: Bytes)
    requires Parsed(data).Some?
    ensures AllStorable(Parsed(data).value)
  {
    WordBound(data, 0);
    forall q: nat | TreeAt(data)(q).Some? ensures Storable(TreeAt(data)(q).value.0) {
      TreeStorable(data, q);
    }
    RepeatAll(TreeAt(data), 4, Read32(data, 0), t => Storable(t));
  }

  /** Exactly the storable tops are those of some blob. */
  lemma CarriedExactly(tops: seq<TreeTop>)
    ensures (exists blob :: Parsed(blob) == Some(tops)) <==> AllStorable(tops)
  {
    if blob :| Parsed(blob) == Some(tops) {
      ParsedStorable(blob);
    }
    if AllStorable(tops) {
      BlobRoundTrip(tops);
    }
  }

  // ----- fetching

  /** What fetching the tops gives: an error, tops that do not match the anchor, or the levels of all trees. */
  datatype Fetched = Malformed | Mismatch | Tops(levels: seq<seq<Level>>)

  /** `blob` is the response's, if the response can be decoded. */
  ghost function FetchedFrom(sha: Bytes -> Digest, info: Info, blob: Option<Bytes>): Fetched {
    if blob.None? || Parsed(blob.value).None? then Malformed
    else if !Anchored(sha, info, blob.value, Parsed(blob.value).value) then Mismatch
    else Tops(LevelsOf(Parsed(blob.value).value))
  }

  method FetchTreeTops(sha: Bytes -> Digest, info: Info, blob: Option<Bytes>) returns (r: Fetched)
    ensures r == FetchedFrom(sha, info, blob)
  {
    if blob.None? {
      return Malformed;
    }
    var allTops := ParseOnionTreeTopCache(blob.value);
    if allTops.None? {
      return Malformed;
    }
    var ok := CheckTreeTopAnchor(sha, info, blob.value, allTops.value);
    return if ok then Tops(LevelsOf(allTops.value)) else Mismatch;
  }
}
