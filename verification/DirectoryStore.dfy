/** The store object: the tables as fields, `ingest` and the startup scan as loops over them. */
module DirectoryStore {
  import opened Wrappers
  import opened RelayEvents
  import opened RelayStore

  const MAX_COORDINATES: nat := SHARD_COUNT * MAX_CATALOG_EVENTS_PER_SHARD

  /** A row that the startup scan lets through: consistent columns, valid at its own timestamp. */
  predicate RowPasses(id: EventId, row: Row) {
    RowAgrees(id, row) && ValidAt(row.event, row.event.createdAt)
  }

  /** What the startup scan is for, said of the tables as a whole. */
  ghost predicate StartupAccepts(a: Archive, limits: Limits) {
    && RowsPass(a.events)
    && Counted(a, limits)
    && |Tags(a.events)| <= MAX_COORDINATES
    && IsHeadMap(a.events, a.heads)
    && ShardLimits(a.heads.Keys)
  }

  class Store {
    const limits: Limits
    var events: Table
    var heads: map<DTag, EventId>
    var count: nat
    var bytes: nat

    ghost function State(): Archive
      reads this
    {
      Archive(events, heads, count, bytes)
    }

    constructor (limits: Limits)
      ensures this.limits == limits && State() == EMPTY
    {
      this.limits := limits;
      events, heads, count, bytes := map[], map[], 0, 0;
    }

    method Ingest(e: Event, receivedAt: nat, commit: Commit) returns (r: Answer)
      modifies this
      ensures State() == Next(old(State()), limits, e, receivedAt, commit)
      ensures r == Reply(old(State()), limits, e, receivedAt, commit)
    {
      var finish := (d: Disposition) => if commit == Committed then Ok(d) else Err(CommitFailed);
      if e.id in events {
        if events[e.id].event != e {
          return Err(DifferentBytes);
        }
        return finish(Duplicate);
      }
      if receivedAt == 0 || e.createdAt > receivedAt {
        return finish(InvalidCurrentEvent);
      }
      if e.createdAt > I64_MAX || receivedAt > I64_MAX {
        return Err(TimestampRange);
      }
      if !ValidAt(e, receivedAt) {
        return finish(InvalidCurrentEvent);
      }
      var replacing := e.tag in heads && heads[e.tag] in events;
      if replacing && !Beats(e, events[heads[e.tag]].event) {
        return finish(ReplacedByNewer);
      }
      if !replacing {
        var headCount := |set t | t in heads && heads[t] in events
                               && events[heads[t]].shard == e.tag.Shard()
                               && events[heads[t]].profile == e.tag.Profile()|;
        if headCount >= Capacity(e.tag.Profile()) {
          return finish(ShardCapacityExceeded);
        }
      }
      if count >= limits.maxEvents || bytes + e.size > limits.maxBytes {
        return finish(ArchiveCapacityExceeded);
      }
      if commit != RolledBack {
        events := events[e.id := Row(e.createdAt, e.tag, e.tag.Shard(), e.tag.Profile(), e, receivedAt)];
        count, bytes := count + 1, bytes + e.size;
        heads := heads[e.tag := e.id];
      }
      return finish(Saved);
    }

    /** First loop of the startup scan: check the rows and recompute the winners and the totals. */
    method ScanRows() returns (ok: bool, winners: map<DTag, EventId>)
      ensures ok ==> RowsPass(events) && Counted(State(), limits) && |Tags(events)| <= MAX_COORDINATES
                     && IsHeadMap(events, winners)
      ensures !ok ==> !StartupAccepts(State(), limits)
    {
      winners := map[];
      var n, total := 0, 0;
      var done: Table := map[];
      while done.Keys != events.Keys
        invariant Scanned(done, n, total, winners, events, limits)
        decreases events.Keys - done.Keys
      {
        var id :| id in events && id !in done;
        ok, n, total, winners := ScanRow(done, n, total, winners, id);
        if !ok {
          return;
        }
        done := done[id := events[id]];
      }
      assert done == events;
      ok := count == n && bytes == total;
    }

    /** The body of the first loop, for one row. */
    method ScanRow(ghost done: Table, n0: nat, total0: nat, winners0: map<DTag, EventId>, id: EventId)
      returns (ok: bool, n: nat, total: nat, winners: map<DTag, EventId>)
      requires Scanned(done, n0, total0, winners0, events, limits) && id in events && id !in done
      ensures ok ==> Scanned(done[id := events[id]], n, total, winners, events, limits)
      ensures !ok ==> !StartupAccepts(State(), limits)
    {
      var row := events[id];
      ghost var grown := done[id := row];
      Grow(done, events, id);
      n, total, winners := n0 + 1, total0 + row.event.size, winners0;
      if n > limits.maxEvents || total > limits.maxBytes || !RowPasses(id, row) {
        PartRefuses(State(), limits, grown);
        return false, n, total, winners;
      }
      ok, winners := Offer(done, winners, id, row, events);
      if !ok {
        PartRefuses(State(), limits, grown);
      }
    }

    /** Second loop: every head must be the winner of its coordinate, and no winner may be left. */
    method ScanHeads(winners: map<DTag, EventId>) returns (ok: bool)
      ensures ok <==> heads == winners && ShardLimits(heads.Keys)
    {
      var left := winners;
      var entries: seq<nat> := seq(SHARD_COUNT, _ => 0);
      var checkpoints: seq<nat> := seq(SHARD_COUNT, _ => 0);
      var done: set<DTag> := {};
      assert Tallied(done, entries, checkpoints) by {
        assert forall s: Shard, p: Profile :: TagsIn(done, s, p) == {};
      }
      while done != heads.Keys
        invariant done <= heads.Keys && done <= winners.Keys
        invariant left == winners - done
        invariant forall t | t in done :: heads[t] == winners[t]
        invariant Tallied(done, entries, checkpoints)
        decreases heads.Keys - done
      {
        var t :| t in heads && t !in done;
        if t !in left || heads[t] != left[t] {
          return false;
        }
        left := left - {t};
        CountTag(done, t, entries, checkpoints);
        if t.Profile() == Entry {
          entries := entries[t.Shard() := entries[t.Shard()] + 1];
        } else {
          checkpoints := checkpoints[t.Shard() := checkpoints[t.Shard()] + 1];
        }
        done := done + {t};
      }
      if left != map[] {
        var t :| t in left;
        assert t in winners && t !in heads;
        return false;
      }
      assert winners.Keys <= done by { assert (winners - done).Keys == {}; }
      assert heads == winners;
      TalliedLimits(done, entries, checkpoints);
      ok := (forall s: Shard :: entries[s] <= MAX_ENTRIES_PER_SHARD) && (forall s: Shard :: checkpoints[s] <= 1);
    }

    /** The startup scan accepts exactly the archives it is meant to accept. */
    method FullStartupValidation() returns (ok: bool)
      ensures ok <==> StartupAccepts(State(), limits)
    {
      var winners;
      ok, winners := ScanRows();
      if ok {
        ok := ScanHeads(winners);
        if StartupAccepts(State(), limits) {
          HeadMapUnique(events, heads, winners);
        }
      }
    }
  }

  ghost predicate Part(part: Table, whole: Table) {
    part.Keys <= whole.Keys && (forall id | id in part :: part[id] == whole[id])
  }

  ghost predicate RowsPass(t: Table) {
    forall id | id in t :: RowPasses(id, t[id])
  }

  /** The loop state after the rows of `done`: totals within limits, winners of the part. */
  ghost predicate Scanned(done: Table, n: nat, total: nat, winners: map<DTag, EventId>, whole: Table, limits: Limits) {
    && Part(done, whole) && RowsPass(done)
    && n == |done| <= limits.maxEvents && total == TotalBytes(done) <= limits.maxBytes
    && IsHeadMap(done, winners) && |winners| <= MAX_COORDINATES
  }

  /** One row against the winners so far; refused when a new coordinate would be one too many. */
  method Offer(ghost done: Table, winners: map<DTag, EventId>, id: EventId, row: Row, whole: Table)
    returns (ok: bool, winners': map<DTag, EventId>)
    requires IsHeadMap(done, winners) && |winners| <= MAX_COORDINATES && Part(done, whole)
    requires id !in done && row.event.id == id
    ensures ok ==> IsHeadMap(done[id := row], winners') && |winners'| <= MAX_COORDINATES
    ensures !ok ==> |Tags(done[id := row])| > MAX_COORDINATES
  {
    var e := row.event;
    if e.tag in winners {
      if Beats(e, whole[winners[e.tag]].event) {
        HeadMapAdvance(done, winners, e, row);
        assert winners[e.tag := id].Keys == winners.Keys;
        return true, winners[e.tag := id];
      }
      HeadMapKeep(done, winners, e, row);
      return true, winners;
    }
    HeadMapAdvance(done, winners, e, row);
    assert winners[e.tag := id].Keys == winners.Keys + {e.tag};
    if |winners| >= MAX_COORDINATES {
      return false, winners;
    }
    return true, winners[e.tag := id];
  }

  /** The two count arrays agree with the heads read so far. */
  ghost predicate Tallied(done: set<DTag>, entries: seq<nat>, checkpoints: seq<nat>) {
    && |entries| == |checkpoints| == SHARD_COUNT
    && (forall s: Shard :: entries[s] == |TagsIn(done, s, Entry)|)
    && (forall s: Shard :: checkpoints[s] == |TagsIn(done, s, Checkpoint)|)
  }

  lemma TagsInAdd(done: set<DTag>, t: DTag, s: Shard, p: Profile)
    requires t !in done
    ensures |TagsIn(done + {t}, s, p)| == |TagsIn(done, s, p)| + (if t.Shard() == s && t.Profile() == p then 1 else 0)
  {
    if t.Shard() == s && t.Profile() == p {
      assert TagsIn(done + {t}, s, p) == TagsIn(done, s, p) + {t};
    } else {
      assert TagsIn(done + {t}, s, p) == TagsIn(done, s, p);
    }
  }

  lemma CountTag(done: set<DTag>, t: DTag, entries: seq<nat>, checkpoints: seq<nat>)
    requires t !in done && Tallied(done, entries, checkpoints)
    ensures var s := t.Shard();
            if t.Profile() == Entry then Tallied(done + {t}, entries[s := entries[s] + 1], checkpoints)
            else Tallied(done + {t}, entries, checkpoints[s := checkpoints[s] + 1])
  {
    forall s: Shard { TagsInAdd(done, t, s, Entry); }
    forall s: Shard { TagsInAdd(done, t, s, Checkpoint); }
  }

  lemma TalliedLimits(tags: set<DTag>, entries: seq<nat>, checkpoints: seq<nat>)
    requires Tallied(tags, entries, checkpoints)
    ensures ShardLimits(tags) <==>
            (forall s: Shard :: entries[s] <= MAX_ENTRIES_PER_SHARD) && (forall s: Shard :: checkpoints[s] <= 1)
  {
    if ShardLimits(tags) {
      forall s: Shard ensures entries[s] <= MAX_ENTRIES_PER_SHARD && checkpoints[s] <= 1 {
        assert |TagsIn(tags, s, Entry)| <= Capacity(Entry) && |TagsIn(tags, s, Checkpoint)| <= Capacity(Checkpoint);
      }
    }
  }

  /** A part of the table is no larger, no heavier and spans no more coordinates. */
  lemma {:induction false} SubTable(part: Table, whole: Table)
    requires Part(part, whole)
    ensures |part| <= |whole| && TotalBytes(part) <= TotalBytes(whole) && |Tags(part)| <= |Tags(whole)|
    decreases |whole|
  {
    if part.Keys == whole.Keys {
      assert part == whole;
    } else {
      var id :| id in whole && id !in part;
      var smaller := whole - {id};
      assert smaller.Keys == whole.Keys - {id};
      SubTable(part, smaller);
      TotalBytesPick(whole, id);
      assert Tags(smaller) <= Tags(whole);
      SubsetSize(Tags(smaller), Tags(whole));
    }
  }

  lemma Grow(part: Table, whole: Table, id: EventId)
    requires Part(part, whole) && id in whole && id !in part
    ensures var grown := part[id := whole[id]];
            && Part(grown, whole) && |grown| == |part| + 1
            && TotalBytes(grown) == TotalBytes(part) + whole[id].event.size
            && (RowsPass(grown) <==> RowsPass(part) && RowPasses(id, whole[id]))
  {
    var grown := part[id := whole[id]];
    TotalBytesAdd(part, id, whole[id]);
    if RowsPass(grown) {
      assert RowPasses(id, grown[id]);
      forall k | k in part ensures RowPasses(k, part[k]) { assert RowPasses(k, grown[k]); }
    }
  }

  /** A part of the table that breaks a bound or holds a bad row is enough to refuse. */
  lemma PartRefuses(a: Archive, limits: Limits, part: Table)
    requires Part(part, a.events)
    requires |part| > limits.maxEvents || TotalBytes(part) > limits.maxBytes || !RowsPass(part)
             || |Tags(part)| > MAX_COORDINATES
    ensures !StartupAccepts(a, limits)
  {
    SubTable(part, a.events);
  }
}
