/**
 The relay's archive: an append-only event table, one head per address and
 the capacity counters, changed by `ingest` inside one transaction.
 */
module RelayStore {
  import opened Wrappers
  import opened RelayEvents

  const I64_MAX: nat := 0x7fff_ffff_ffff_ffff
  const MAX_ENTRIES_PER_SHARD: nat := 1024
  const MAX_CATALOG_EVENTS_PER_SHARD: nat := 1025

  datatype Limits = Limits(maxEvents: nat, maxBytes: nat)

  /** One row of the `events` table: the columns beside the signed event. */
  datatype Row = Row(createdAt: nat, tag: DTag, shard: nat, profile: Profile, event: Event, receivedAt: nat)

  type Table = map<EventId, Row>

  datatype Archive = Archive(events: Table, heads: map<DTag, EventId>, count: nat, bytes: nat)

  const EMPTY := Archive(map[], map[], 0, 0)

  datatype Disposition =
    | Saved
    | Duplicate
    | ReplacedByNewer
    | ShardCapacityExceeded
    | ArchiveCapacityExceeded
    | InvalidCurrentEvent

  datatype IngestError = DifferentBytes | TimestampRange | CommitFailed

  /** A failed commit leaves the transaction applied or rolled back; the caller cannot tell. */
  datatype Commit = Committed | FailedButApplied | RolledBack

  type Answer = Result<Disposition, IngestError>

  function Capacity(p: Profile): nat {
    if p.Entry? then MAX_ENTRIES_PER_SHARD else 1
  }

  /** The row that `address_heads JOIN events` yields for a tag. */
  function HeadRow(a: Archive, tag: DTag): Option<Row> {
    if tag in a.heads && a.heads[tag] in a.events then Some(a.events[a.heads[tag]]) else None
  }

  /** The joined heads of one shard and profile. */
  function HeadsIn(a: Archive, shard: nat, profile: Profile): set<DTag> {
    set t | t in a.heads && a.heads[t] in a.events
            && a.events[a.heads[t]].shard == shard && a.events[a.heads[t]].profile == profile
  }

  /** `SELECT COUNT(*)` over them. */
  function HeadCount(a: Archive, shard: nat, profile: Profile): nat { |HeadsIn(a, shard, profile)| }

  /** What the transaction decides before it commits; `Ok(Saved)` is the only deciding answer that writes. */
  function Decide(a: Archive, limits: Limits, e: Event, receivedAt: nat): Answer {
    if e.id in a.events then
      if a.events[e.id].event != e then Err(DifferentBytes) else Ok(Duplicate)
    else if receivedAt == 0 || e.createdAt > receivedAt then Ok(InvalidCurrentEvent)
    else if receivedAt > I64_MAX then Err(TimestampRange)
    else if !ValidAt(e, receivedAt) then Ok(InvalidCurrentEvent)
    else
      var head := HeadRow(a, e.tag);
      if head.Some? && !Beats(e, head.value.event) then Ok(ReplacedByNewer)
      else if head.None? && HeadCount(a, e.tag.Shard(), e.tag.Profile()) >= Capacity(e.tag.Profile()) then
        Ok(ShardCapacityExceeded)
      else if a.count >= limits.maxEvents || a.bytes + e.size > limits.maxBytes then
        Ok(ArchiveCapacityExceeded)
      else Ok(Saved)
  }

  function RowOf(e: Event, receivedAt: nat): Row {
    Row(e.createdAt, e.tag, e.tag.Shard(), e.tag.Profile(), e, receivedAt)
  }

  function Insert(a: Archive, e: Event, receivedAt: nat): Archive {
    Archive(a.events[e.id := RowOf(e, receivedAt)], a.heads[e.tag := e.id], a.count + 1, a.bytes + e.size)
  }

  function Next(a: Archive, limits: Limits, e: Event, receivedAt: nat, commit: Commit): Archive {
    if Decide(a, limits, e, receivedAt) == Ok(Saved) && commit != RolledBack then Insert(a, e, receivedAt) else a
  }

  function Reply(a: Archive, limits: Limits, e: Event, receivedAt: nat, commit: Commit): Answer {
    var d := Decide(a, limits, e, receivedAt);
    if d.Err? || commit == Committed then d else Err(CommitFailed)
  }

  // ----- what the archive is meant to be, said without `Decide`

  ghost function TotalBytes(t: Table): nat
    decreases |t|
  {
    if t == map[] then 0
    else
      var id :| id in t;
      assert (t - {id}).Keys == t.Keys - {id};
      t[id].event.size + TotalBytes(t - {id})
  }

  lemma {:induction false} TotalBytesPick(t: Table, id: EventId)
    requires id in t
    ensures TotalBytes(t) == t[id].event.size + TotalBytes(t - {id})
    decreases |t|
  {
    var k :| k in t && TotalBytes(t) == t[k].event.size + TotalBytes(t - {k});
    if k != id {
      assert (t - {k}).Keys == t.Keys - {k};
      assert (t - {id}).Keys == t.Keys - {id};
      TotalBytesPick(t - {k}, id);
      TotalBytesPick(t - {id}, k);
      assert t - {k} - {id} == t - {id} - {k};
    }
  }

  lemma TotalBytesAdd(t: Table, id: EventId, row: Row)
    requires id !in t
    ensures TotalBytes(t[id := row]) == TotalBytes(t) + row.event.size
    ensures |t[id := row]| == |t| + 1
  {
    var t' := t[id := row];
    assert |t'| == |t| + 1 by { assert t'.Keys == t.Keys + {id}; }
    assert t' - {id} == t;
    TotalBytesPick(t', id);
  }

  ghost function Tags(t: Table): set<DTag> {
    set id | id in t :: t[id].event.tag
  }

  /** `heads` gives, for exactly the archived coordinates, the NIP-01 maximum of the coordinate. */
  ghost predicate IsHeadMap(t: Table, heads: map<DTag, EventId>) {
    && heads.Keys == Tags(t)
    && (forall tag | tag in heads :: heads[tag] in t && t[heads[tag]].event.tag == tag)
    && (forall id | id in t :: t[id].event.tag in heads ==> !Beats(t[id].event, t[heads[t[id].event.tag]].event))
  }

  /** The columns repeat the signed event, and the event was received no earlier than signed. */
  predicate RowAgrees(id: EventId, row: Row) {
    && row.event.id == id
    && row == RowOf(row.event, row.receivedAt)
    && row.receivedAt >= row.createdAt
  }

  ghost function TagsIn(tags: set<DTag>, shard: nat, profile: Profile): set<DTag> {
    set t | t in tags && t.Shard() == shard && t.Profile() == profile
  }

  ghost predicate ShardLimits(tags: set<DTag>) {
    forall s: Shard, p: Profile {:trigger TagsIn(tags, s, p)} :: |TagsIn(tags, s, p)| <= Capacity(p)
  }

  ghost predicate Counted(a: Archive, limits: Limits) {
    && a.count == |a.events| <= limits.maxEvents
    && a.bytes == TotalBytes(a.events) <= limits.maxBytes
  }

  /** What every reachable archive satisfies. */
  ghost predicate Inv(a: Archive, limits: Limits) {
    && (forall id | id in a.events :: RowAgrees(id, a.events[id]))
    && (forall id | id in a.events :: ValidAt(a.events[id].event, a.events[id].receivedAt))
    && IsHeadMap(a.events, a.heads)
    && ShardLimits(a.heads.Keys)
    && Counted(a, limits)
  }

  /** A head map is determined by the table. */
  lemma HeadMapUnique(t: Table, h1: map<DTag, EventId>, h2: map<DTag, EventId>)
    requires forall id | id in t :: t[id].event.id == id
    requires IsHeadMap(t, h1) && IsHeadMap(t, h2)
    ensures h1 == h2
  {
    forall tag | tag in h1 ensures h1[tag] == h2[tag] {
      assert tag in h2;
      var e1, e2 := t[h1[tag]].event, t[h2[tag]].event;
      assert !Beats(e1, e2) && !Beats(e2, e1);
    }
  }

  /** Advancing the head when the new event beats it (or there is none) keeps the head map. */
  lemma HeadMapAdvance(t: Table, heads: map<DTag, EventId>, e: Event, row: Row)
    requires IsHeadMap(t, heads) && e.id !in t && row.event == e
    requires e.tag in heads ==> Beats(e, t[heads[e.tag]].event)
    ensures IsHeadMap(t[e.id := row], heads[e.tag := e.id])
  {
    var t', heads' := t[e.id := row], heads[e.tag := e.id];
    forall tag ensures tag in heads' <==> tag in Tags(t') {
      if tag in Tags(t) {
        var id :| id in t && t[id].event.tag == tag;
        assert id in t' && t'[id].event.tag == tag;
      }
      if tag == e.tag {
        assert e.id in t' && t'[e.id].event.tag == tag;
      }
    }
    forall id | id in t' ensures !Beats(t'[id].event, t'[heads'[t'[id].event.tag]].event) {
      if id != e.id { assert id in t; assert t[id].event.tag in Tags(t); }
    }
  }

  /** When the new event does not beat the head, the head map of the grown table is unchanged. */
  lemma HeadMapKeep(t: Table, heads: map<DTag, EventId>, e: Event, row: Row)
    requires IsHeadMap(t, heads) && e.id !in t && row.event == e
    requires e.tag in heads && !Beats(e, t[heads[e.tag]].event)
    ensures IsHeadMap(t[e.id := row], heads)
  {
    var t' := t[e.id := row];
    forall tag ensures tag in heads <==> tag in Tags(t') {
      if tag in Tags(t) {
        var id :| id in t && t[id].event.tag == tag;
        assert id in t' && t'[id].event.tag == tag;
      }
    }
    forall id | id in t' ensures t'[id].event.tag in heads ==> !Beats(t'[id].event, t'[heads[t'[id].event.tag]].event) {
      if id != e.id { assert id in t; }
    }
  }

  /** On a consistent archive the joined count is the count of tags. */
  lemma HeadCountIsTags(a: Archive, shard: nat, profile: Profile)
    requires forall id | id in a.events :: RowAgrees(id, a.events[id])
    requires IsHeadMap(a.events, a.heads)
    ensures HeadCount(a, shard, profile) == |TagsIn(a.heads.Keys, shard, profile)|
  {
    forall t | t in a.heads ensures t in HeadsIn(a, shard, profile) <==> t.Shard() == shard && t.Profile() == profile {
      assert RowAgrees(a.heads[t], a.events[a.heads[t]]);
    }
    assert TagsIn(a.heads.Keys, shard, profile) == HeadsIn(a, shard, profile);
  }

  lemma ShardLimitsAdd(tags: set<DTag>, tag: DTag)
    requires ShardLimits(tags)
    requires tag !in tags ==> |TagsIn(tags, tag.Shard(), tag.Profile())| < Capacity(tag.Profile())
    ensures ShardLimits(tags + {tag})
  {
    forall s: Shard, p: Profile ensures |TagsIn(tags + {tag}, s, p)| <= Capacity(p) {
      if tag in tags || tag.Shard() != s || tag.Profile() != p {
        assert TagsIn(tags + {tag}, s, p) == TagsIn(tags, s, p);
      } else {
        assert TagsIn(tags + {tag}, s, p) == TagsIn(tags, s, p) + {tag};
      }
    }
  }

  lemma InsertRows(a: Archive, limits: Limits, e: Event, receivedAt: nat)
    requires forall id | id in a.events ::
             RowAgrees(id, a.events[id]) && ValidAt(a.events[id].event, a.events[id].receivedAt)
    requires ValidAt(e, receivedAt)
    ensures var t := Insert(a, e, receivedAt).events;
            forall id | id in t :: RowAgrees(id, t[id]) && ValidAt(t[id].event, t[id].receivedAt)
  {
  }

  lemma InsertShards(a: Archive, e: Event)
    requires forall id | id in a.events :: RowAgrees(id, a.events[id])
    requires IsHeadMap(a.events, a.heads) && ShardLimits(a.heads.Keys)
    requires e.tag !in a.heads ==> HeadCount(a, e.tag.Shard(), e.tag.Profile()) < Capacity(e.tag.Profile())
    ensures ShardLimits(a.heads[e.tag := e.id].Keys)
  {
    HeadCountIsTags(a, e.tag.Shard(), e.tag.Profile());
    ShardLimitsAdd(a.heads.Keys, e.tag);
    assert a.heads[e.tag := e.id].Keys == a.heads.Keys + {e.tag};
  }

  /** What an accepting decision has established. */
  lemma SavedMeans(a: Archive, limits: Limits, e: Event, receivedAt: nat)
    requires Decide(a, limits, e, receivedAt) == Ok(Saved)
    ensures e.id !in a.events && ValidAt(e, receivedAt)
    ensures HeadRow(a, e.tag).Some? ==> Beats(e, HeadRow(a, e.tag).value.event)
    ensures HeadRow(a, e.tag).None? ==> HeadCount(a, e.tag.Shard(), e.tag.Profile()) < Capacity(e.tag.Profile())
    ensures a.count < limits.maxEvents && a.bytes + e.size <= limits.maxBytes
  {
  }

  lemma InsertKeepsInv(a: Archive, limits: Limits, e: Event, receivedAt: nat)
    requires Inv(a, limits)
    requires e.id !in a.events && ValidAt(e, receivedAt)
    requires e.tag in a.heads ==> Beats(e, a.events[a.heads[e.tag]].event)
    requires e.tag !in a.heads ==> HeadCount(a, e.tag.Shard(), e.tag.Profile()) < Capacity(e.tag.Profile())
    requires a.count < limits.maxEvents && a.bytes + e.size <= limits.maxBytes
    ensures Inv(Insert(a, e, receivedAt), limits)
  {
    var a' := Insert(a, e, receivedAt);
    assert IsHeadMap(a'.events, a'.heads) by { HeadMapAdvance(a.events, a.heads, e, RowOf(e, receivedAt)); }
    assert ShardLimits(a'.heads.Keys) by { InsertShards(a, e); }
    assert Counted(a', limits) by { TotalBytesAdd(a.events, e.id, RowOf(e, receivedAt)); }
    InsertRows(a, limits, e, receivedAt);
  }

  /** One ingest keeps the archive invariant, whatever the event, the clock and the commit do. */
  lemma IngestKeepsInv(a: Archive, limits: Limits, e: Event, receivedAt: nat, commit: Commit)
    requires Inv(a, limits)
    ensures Inv(Next(a, limits, e, receivedAt, commit), limits)
  {
    if Decide(a, limits, e, receivedAt) == Ok(Saved) && commit != RolledBack {
      SavedMeans(a, limits, e, receivedAt);
      InsertKeepsInv(a, limits, e, receivedAt);
    }
  }

  lemma EmptyInv(limits: Limits)
    ensures Inv(EMPTY, limits)
  {
    forall s: Shard, p: Profile ensures |TagsIn({}, s, p)| <= Capacity(p) {
      assert TagsIn({}, s, p) == {};
    }
    assert Tags(map[]) == {};
  }
}
