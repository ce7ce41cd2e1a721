/** Applying delta results to snapshots, against the UTXO sets the chain has at two heights. */
module SyncMerge {
  import opened Wrappers
  import opened Codec

  /** A transaction output's name; the string key of the source is one-to-one on these. */
  type Outpoint = (Bytes, nat)

  /** One script's unspent outputs and their amounts. */
  type UtxoSet = map<Outpoint, nat>

  datatype QueryResult = QueryResult(entries: seq<Utxo>, totalSats: nat, isWhale: bool, rawChunkData: Option<Bytes>)

  type Snapshot = Option<QueryResult>

  function Key(u: Utxo): Outpoint { (u.txid, u.vout) }

  function SpentKeys(spent: seq<SpentRef>): set<Outpoint> {
    set i | 0 <= i < |spent| :: (spent[i].txid, spent[i].vout)
  }

  function Unspent(us: seq<Utxo>, spent: set<Outpoint>): seq<Utxo> {
    if us == [] then []
    else Unspent(us[..|us| - 1], spent) + (if Key(us[|us| - 1]) in spent then [] else [us[|us| - 1]])
  }

  /** Drop the spent entries, append the new ones, recompute the total. */
  function Applied(snapshot: QueryResult, delta: Delta): QueryResult {
    var entries := Unspent(snapshot.entries, SpentKeys(delta.spent)) + delta.newUtxos;
    snapshot.(entries := entries, totalSats := TotalSats(entries))
  }

  method ApplyDeltaData(snapshot: QueryResult, delta: Delta) returns (r: QueryResult)
    ensures r == Applied(snapshot, delta)
  {
    var spentKeys: set<Outpoint> := {};
    for i := 0 to |delta.spent|
      invariant spentKeys == SpentKeys(delta.spent[..i])
    {
      SpentKeysAppend(delta.spent, i);
      spentKeys := spentKeys + {(delta.spent[i].txid, delta.spent[i].vout)};
    }
    assert delta.spent[..|delta.spent|] == delta.spent;
    var merged := [];
    for i := 0 to |snapshot.entries|
      invariant merged == Unspent(snapshot.entries[..i], spentKeys)
    {
      var e := snapshot.entries[i];
      assert snapshot.entries[..i + 1][..i] == snapshot.entries[..i];
      if Key(e) !in spentKeys {
        merged := merged + [e];
      }
    }
    assert snapshot.entries[..|snapshot.entries|] == snapshot.entries;
    ghost var kept := merged;
    for i := 0 to |delta.newUtxos|
      invariant merged == kept + delta.newUtxos[..i]
    {
      merged := merged + [delta.newUtxos[i]];
    }
    assert merged == kept + delta.newUtxos;
    var total := 0;
    for i := 0 to |merged|
      invariant total == TotalSats(merged[..i])
    {
      assert merged[..i + 1][..i] == merged[..i];
      total := total + merged[i].amount;
    }
    assert merged[..|merged|] == merged;
    return snapshot.(entries := merged, totalSats := total);
  }

  lemma SpentKeysAppend(spent: seq<SpentRef>, i: nat)
    requires i < |spent|
    ensures SpentKeys(spent[..i + 1]) == SpentKeys(spent[..i]) + {(spent[i].txid, spent[i].vout)}
  {
    var a, b := spent[..i], spent[..i + 1];
    forall k | k in SpentKeys(a) ensures k in SpentKeys(b) {
      var j :| 0 <= j < |a| && (a[j].txid, a[j].vout) == k;
      assert b[j] == a[j];
    }
    assert b[i] == spent[i];
    forall k | k in SpentKeys(b) ensures k in SpentKeys(a) + {(spent[i].txid, spent[i].vout)} {
      var j :| 0 <= j < |b| && (b[j].txid, b[j].vout) == k;
      if j < i { assert a[j] == b[j]; }
    }
  }

  function Merged(snapshot: Snapshot, delta: Snapshot): Snapshot {
    if snapshot.Some? && snapshot.value.isWhale then snapshot
    else if delta.None? then snapshot
    else if delta.value.isWhale then
      Some(QueryResult([], 0, true, None))
    else if delta.value.rawChunkData.None? || delta.value.rawChunkData.value == [] then snapshot
    else
      match DecodedDelta(delta.value.rawChunkData.value)
      case Err(_) => snapshot
      case Ok(d) =>
        Some(Applied(if snapshot.Some? then snapshot.value else QueryResult([], delta.value.totalSats, false, None), d))
  }

  method MergeDeltaIntoSnapshot(snapshot: Snapshot, deltaResult: Snapshot) returns (r: Snapshot)
    ensures r == Merged(snapshot, deltaResult)
  {
    if snapshot.Some? && snapshot.value.isWhale {
      return snapshot;
    }
    if deltaResult.None? {
      return snapshot;
    }
    if deltaResult.value.isWhale {
      var base := if snapshot.Some? then snapshot.value else deltaResult.value;
      return Some(base.(entries := [], totalSats := 0, isWhale := true, rawChunkData := None));
    }
    var raw := deltaResult.value.rawChunkData;
    if raw.None? || raw.value == [] {
      return snapshot;
    }
    var delta := DecodeDeltaData(raw.value);
    if delta.Err? {
      return snapshot;
    }
    if snapshot.None? {
      var q := ApplyDeltaData(deltaResult.value.(entries := [], rawChunkData := None), delta.value);
      return Some(q);
    }
    var q := ApplyDeltaData(snapshot.value, delta.value);
    return Some(q);
  }

  // ----- what results stand for

  /** `us` lists exactly the outputs of `m`, each once. */
  ghost predicate Lists(us: seq<Utxo>, m: UtxoSet) {
    && (forall i, j | 0 <= i < j < |us| :: Key(us[i]) != Key(us[j]))
    && (forall i | 0 <= i < |us| :: Key(us[i]) in m && m[Key(us[i])] == us[i].amount)
    && (forall k | k in m :: Names(us, k))
  }

  ghost predicate Names(us: seq<Utxo>, k: Outpoint) {
    exists i | 0 <= i < |us| :: Key(us[i]) == k
  }

  ghost function Worth(m: UtxoSet): nat
    decreases |m|
  {
    if m == map[] then 0
    else
      var k :| k in m;
      assert (m - {k}).Keys == m.Keys - {k};
      m[k] + Worth(m - {k})
  }

  lemma {:induction false} WorthPick(m: UtxoSet, k: Outpoint)
    requires k in m
    ensures Worth(m) == m[k] + Worth(m - {k})
    decreases |m|
  {
    var j :| j in m && Worth(m) == m[j] + Worth(m - {j});
    if j != k {
      assert (m - {j}).Keys == m.Keys - {j} && (m - {k}).Keys == m.Keys - {k};
      WorthPick(m - {j}, k);
      WorthPick(m - {k}, j);
      assert m - {j} - {k} == m - {k} - {j};
    }
  }

  /** Without its last output, a list lists the rest of the set. */
  lemma ListsButLast(us: seq<Utxo>, m: UtxoSet, n: nat, k: Outpoint)
    requires Lists(us, m) && |us| == n + 1 && k == Key(us[n])
    ensures k in m && m[k] == us[n].amount && Lists(us[..n], m - {k})
  {
    forall k' | k' in m - {k} ensures Names(us[..n], k') {
      assert Names(us, k');
      var i :| 0 <= i < |us| && Key(us[i]) == k';
      assert us[..n][i] == us[i];
    }
  }

  /** The total of a complete list is what the set is worth. */
  lemma {:induction false} ListTotal(us: seq<Utxo>, m: UtxoSet)
    requires Lists(us, m)
    ensures TotalSats(us) == Worth(m)
    decreases |us|
  {
    if us == [] {
      assert m == map[] by { assert forall k | k in m :: Names(us, k); }
    } else {
      var n := |us| - 1;
      var k := Key(us[n]);
      ListsButLast(us, m, n, k);
      WorthPick(m, k);
      ListTotal(us[..n], m - {k});
    }
  }

  /** A result for a script whose UTXO set is `m`: none for an empty set, else the set and its worth, or a whale. */
  ghost predicate Shows(r: Snapshot, m: UtxoSet) {
    match r
    case None => m == map[]
    case Some(q) => q.isWhale || (Lists(q.entries, m) && q.totalSats == Worth(m))
  }

  /** A list fits one UTXO set only. */
  lemma ListsOne(us: seq<Utxo>, m: UtxoSet, m': UtxoSet)
    requires Lists(us, m) && Lists(us, m')
    ensures m == m'
  {
    forall k | k in m ensures k in m' && m'[k] == m[k] {
      assert Names(us, k);
      var i :| 0 <= i < |us| && Key(us[i]) == k;
      assert Key(us[i]) in m';
    }
    forall k | k in m' ensures k in m {
      assert Names(us, k);
      var i :| 0 <= i < |us| && Key(us[i]) == k;
      assert Key(us[i]) in m;
    }
  }

  predicate Kept(k: Outpoint, m: UtxoSet, m': UtxoSet) { k in m && k in m' && m[k] == m'[k] }

  ghost function Created(m: UtxoSet, m': UtxoSet): UtxoSet {
    map k | k in m' && !Kept(k, m, m') :: m'[k]
  }

  /**
   The difference of two UTXO sets: of the old outputs exactly the vanished
   ones are spent, and the created ones are listed.
   */
  ghost predicate IsDiff(d: Delta, m: UtxoSet, m': UtxoSet) {
    && (forall k | k in m :: k in SpentKeys(d.spent) <==> !Kept(k, m, m'))
    && Lists(d.newUtxos, Created(m, m'))
  }

  /** A delta database's answer: a whale, nothing when nothing changed, or the encoded difference with any padding. */
  ghost predicate ShowsChange(r: Snapshot, m: UtxoSet, m': UtxoSet) {
    if r.None? || (!r.value.isWhale && (r.value.rawChunkData.None? || r.value.rawChunkData.value == [])) then m == m'
    else r.value.isWhale || exists d: Delta, padding: Bytes ::
      r.value.rawChunkData.value == EncodeDelta(d) + padding && Writable(d) && IsDiff(d, m, m')
  }

  predicate Writable(d: Delta) {
    SpentEncodable(d.spent) && UtxosEncodable(d.newUtxos) && |d.spent| < VARINT_LIMIT && |d.newUtxos| < VARINT_LIMIT
  }

  lemma {:induction false} UnspentLists(us: seq<Utxo>, spent: set<Outpoint>)
    requires forall i, j | 0 <= i < j < |us| :: Key(us[i]) != Key(us[j])
    ensures var r := Unspent(us, spent);
            && (forall i, j | 0 <= i < j < |r| :: Key(r[i]) != Key(r[j]))
            && (forall u :: u in r <==> u in us && Key(u) !in spent)
    decreases |us|
  {
    if us != [] {
      var n := |us| - 1;
      UnspentLists(us[..n], spent);
      assert us == us[..n] + [us[n]];
      forall u | u in us[..n] ensures Key(u) != Key(us[n]) {
        var i :| 0 <= i < n && us[i] == u;
      }
    }
  }

  lemma NamesMember(us: seq<Utxo>, u: Utxo)
    requires u in us
    ensures Names(us, Key(u))
  {
    var i :| 0 <= i < |us| && us[i] == u;
    assert Key(us[i]) == Key(u);
  }

  lemma KeptOutputs(us: seq<Utxo>, d: Delta, m: UtxoSet, m': UtxoSet)
    requires Lists(us, m) && IsDiff(d, m, m')
    ensures var kept := Unspent(us, SpentKeys(d.spent));
            && (forall i, j | 0 <= i < j < |kept| :: Key(kept[i]) != Key(kept[j]))
            && (forall u | u in kept :: Kept(Key(u), m, m') && m'[Key(u)] == u.amount)
            && (forall k | Kept(k, m, m') :: Names(kept, k))
  {
    var kept := Unspent(us, SpentKeys(d.spent));
    UnspentLists(us, SpentKeys(d.spent));
    forall u | u in kept ensures Kept(Key(u), m, m') && m'[Key(u)] == u.amount {
      var i :| 0 <= i < |us| && us[i] == u;
    }
    forall k | Kept(k, m, m') ensures Names(kept, k) {
      assert Names(us, k);
      var i :| 0 <= i < |us| && Key(us[i]) == k;
      assert us[i] in kept;
      NamesMember(kept, us[i]);
    }
  }

  /** Outputs kept, and then the created ones, make a list of the new set. */
  lemma KeptAndCreated(kept: seq<Utxo>, news: seq<Utxo>, m: UtxoSet, m': UtxoSet)
    requires forall i, j | 0 <= i < j < |kept| :: Key(kept[i]) != Key(kept[j])
    requires forall u | u in kept :: Kept(Key(u), m, m') && m'[Key(u)] == u.amount
    requires forall k | Kept(k, m, m') :: Names(kept, k)
    requires Lists(news, Created(m, m'))
    ensures Lists(kept + news, m')
  {
    var all := kept + news;
    forall i | 0 <= i < |all| ensures Key(all[i]) in m' && m'[Key(all[i])] == all[i].amount {
      if i < |kept| { assert all[i] == kept[i] && kept[i] in kept; } else { assert all[i] == news[i - |kept|]; }
    }
    forall i, j | 0 <= i < j < |all| ensures Key(all[i]) != Key(all[j]) {
      if i < |kept| <= j {
        assert kept[i] in kept && Key(news[j - |kept|]) in Created(m, m');
      }
    }
    forall k | k in m' ensures Names(all, k) {
      NamesEither(kept, news, k);
      assert Kept(k, m, m') || k in Created(m, m');
    }
  }

  lemma NamesEither(a: seq<Utxo>, b: seq<Utxo>, k: Outpoint)
    ensures Names(a, k) || Names(b, k) ==> Names(a + b, k)
  {
    if Names(a, k) {
      var i :| 0 <= i < |a| && Key(a[i]) == k;
      assert (a + b)[i] == a[i];
    } else if Names(b, k) {
      var i :| 0 <= i < |b| && Key(b[i]) == k;
      assert (a + b)[|a| + i] == b[i];
    }
  }

  /** Applying the difference turns a list of the old set into a list of the new one. */
  lemma ApplyListsNew(us: seq<Utxo>, d: Delta, m: UtxoSet, m': UtxoSet)
    requires Lists(us, m) && IsDiff(d, m, m')
    ensures Lists(Unspent(us, SpentKeys(d.spent)) + d.newUtxos, m')
  {
    KeptOutputs(us, d, m, m');
    KeptAndCreated(Unspent(us, SpentKeys(d.spent)), d.newUtxos, m, m');
  }

  predicate IsWhale(r: Snapshot) { r.Some? && r.value.isWhale }

  /** The answer carries a record of changes. */
  predicate Carries(r: Snapshot) {
    r.Some? && !r.value.isWhale && r.value.rawChunkData.Some? && r.value.rawChunkData.value != []
  }

  function Base(snapshot: Snapshot, change: QueryResult): QueryResult {
    if snapshot.Some? then snapshot.value else QueryResult([], change.totalSats, false, None)
  }

  lemma MergedRecord(snapshot: Snapshot, change: Snapshot, d: Delta)
    requires !IsWhale(snapshot) && Carries(change) && DecodedDelta(change.value.rawChunkData.value) == Ok(d)
    ensures Merged(snapshot, change) == Some(Applied(Base(snapshot, change.value), d))
  {
  }

  lemma RecordShowsNew(snapshot: Snapshot, change: Snapshot, m: UtxoSet, m': UtxoSet)
    requires Shows(snapshot, m) && ShowsChange(change, m, m') && !IsWhale(snapshot) && Carries(change)
    ensures Shows(Merged(snapshot, change), m') && !IsWhale(Merged(snapshot, change))
  {
    var d: Delta, padding: Bytes :| change.value.rawChunkData.value == EncodeDelta(d) + padding && Writable(d)
      && IsDiff(d, m, m');
    DeltaRoundTrip(d, padding);
    MergedRecord(snapshot, change, d);
    AppliedShows(Base(snapshot, change.value), d, m, m');
  }

  /** Merging a true change into a true snapshot gives a true result; it is a whale only when one of the two was. */
  lemma MergeShowsNew(snapshot: Snapshot, change: Snapshot, m: UtxoSet, m': UtxoSet)
    requires Shows(snapshot, m) && ShowsChange(change, m, m')
    ensures Shows(Merged(snapshot, change), m')
    ensures IsWhale(Merged(snapshot, change)) <==> IsWhale(snapshot) || IsWhale(change)
    ensures IsWhale(change) && !IsWhale(snapshot) ==>
            Merged(snapshot, change).value.entries == [] && Merged(snapshot, change).value.totalSats == 0
  {
    if !IsWhale(snapshot) && Carries(change) {
      RecordShowsNew(snapshot, change, m, m');
    }
  }

  lemma AppliedShows(base: QueryResult, d: Delta, m: UtxoSet, m': UtxoSet)
    requires !base.isWhale && Lists(base.entries, m) && IsDiff(d, m, m')
    ensures !Applied(base, d).isWhale && Shows(Some(Applied(base, d)), m')
  {
    ApplyListsNew(base.entries, d, m, m');
    ListTotal(Applied(base, d).entries, m');
  }

  /** A full checkpoint's decoded record is a true result at its height. */
  lemma FullRecordShows(us: seq<Utxo>, padding: Bytes, m: UtxoSet)
    requires Lists(us, m) && UtxosEncodable(us) && |us| < VARINT_LIMIT
    ensures var data := EncodeUtxoData(us) + padding;
            DecodedUtxos(data) == Ok(us) && Shows(Some(QueryResult(us, TotalSats(us), false, Some(data))), m)
  {
    UtxoDataRoundTrip(us, padding);
    ListTotal(us, m);
  }
}
