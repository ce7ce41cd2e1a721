/** Properties of every run of ingests: what a restart finds, what a retry is told, what order cannot change. */
module RelayRuns {
  import opened Wrappers
  import opened RelayEvents
  import opened RelayStore
  import opened DirectoryStore

  /** One EVENT reaching the store, with the clock it was received at and the fate of its commit. */
  datatype Offer = Offer(event: Event, receivedAt: nat, commit: Commit)

  function Run(a: Archive, limits: Limits, offers: seq<Offer>): Archive {
    if offers == [] then a
    else
      var o := offers[|offers| - 1];
      Next(Run(a, limits, offers[..|offers| - 1]), limits, o.event, o.receivedAt, o.commit)
  }

  /** The answer to the `i`-th offer of a run from the empty archive. */
  function AnswerAt(limits: Limits, offers: seq<Offer>, i: nat): Answer
    requires i < |offers|
  {
    Reply(Run(EMPTY, limits, offers[..i]), limits, offers[i].event, offers[i].receivedAt, offers[i].commit)
  }

  // ----- restart

  lemma {:induction false} RunKeepsInv(limits: Limits, offers: seq<Offer>)
    ensures Inv(Run(EMPTY, limits, offers), limits)
  {
    if offers == [] {
      EmptyInv(limits);
    } else {
      var before, o := offers[..|offers| - 1], offers[|offers| - 1];
      RunKeepsInv(limits, before);
      IngestKeepsInv(Run(EMPTY, limits, before), limits, o.event, o.receivedAt, o.commit);
    }
  }

  ghost function TagsBelow(tags: set<DTag>, n: nat): set<DTag> {
    set t | t in tags && t.Shard() < n
  }

  lemma {:induction false} CoordinatesBelow(tags: set<DTag>, n: nat)
    requires ShardLimits(tags) && n <= SHARD_COUNT
    ensures |TagsBelow(tags, n)| <= n * MAX_CATALOG_EVENTS_PER_SHARD
  {
    if n == 0 {
      assert TagsBelow(tags, n) == {};
    } else {
      CoordinatesBelow(tags, n - 1);
      OneShard(tags, n - 1);
    }
  }

  lemma OneShard(tags: set<DTag>, s: Shard)
    requires ShardLimits(tags)
    ensures |TagsBelow(tags, s + 1)| <= |TagsBelow(tags, s)| + MAX_CATALOG_EVENTS_PER_SHARD
  {
    var entries, checkpoints := TagsIn(tags, s, Entry), TagsIn(tags, s, Checkpoint);
    assert |entries| <= Capacity(Entry) && |checkpoints| <= Capacity(Checkpoint);
    assert TagsBelow(tags, s + 1) == TagsBelow(tags, s) + (entries + checkpoints);
  }

  /** The per-shard limits bound the number of coordinates the scan allows. */
  lemma CoordinateBound(tags: set<DTag>)
    requires ShardLimits(tags)
    ensures |tags| <= 16 * 1025 == MAX_COORDINATES
  {
    CoordinatesBelow(tags, SHARD_COUNT);
    assert TagsBelow(tags, SHARD_COUNT) == tags;
  }

  /**
   After any run the startup scan accepts the archive if and only if no
   archived entry carries a health observation dated after its own timestamp.
   */
  lemma RestartAccepts(limits: Limits, offers: seq<Offer>)
    ensures var a := Run(EMPTY, limits, offers);
            StartupAccepts(a, limits) <==> forall id | id in a.events :: ObservedBeforeSigning(a.events[id].event)
  {
    var a := Run(EMPTY, limits, offers);
    RunKeepsInv(limits, offers);
    CoordinateBound(a.heads.Keys);
    RowsAccepted(a.events);
  }

  lemma RowsAccepted(t: Table)
    requires forall id | id in t :: RowAgrees(id, t[id]) && ValidAt(t[id].event, t[id].receivedAt)
    ensures RowsPass(t) <==> forall id | id in t :: ObservedBeforeSigning(t[id].event)
  {
    forall id | id in t ensures RowPasses(id, t[id]) <==> ObservedBeforeSigning(t[id].event) {
      ValidAtSigningTime(t[id].event, t[id].receivedAt);
    }
  }

  /** An entry signed at 1000 whose health bucket is 1200, offered at 1200. */
  function LateObservation(): Event {
    Event(7, 1000, EntryTag(seq(32, _ => 1)), EntryContent(true, 2000, 1200, None), 0, 1)
  }

  /** The relay acknowledges such an entry as saved and then refuses to start from its own archive. */
  lemma SavedThenRefusedAtStartup()
    ensures var limits, offer := Limits(10, 10), Offer(LateObservation(), 1200, Committed);
            && AnswerAt(limits, [offer], 0) == Ok(Saved)
            && !StartupAccepts(Run(EMPTY, limits, [offer]), limits)
  {
    var limits, e := Limits(10, 10), LateObservation();
    var offer := Offer(e, 1200, Committed);
    assert [offer][..0] == [];
    assert HeadCount(EMPTY, e.tag.Shard(), Entry) == 0 by {
      EmptyInv(limits);
      HeadCountIsTags(EMPTY, e.tag.Shard(), Entry);
      assert TagsIn(EMPTY.heads.Keys, e.tag.Shard(), Entry) == {};
    }
    assert Decide(EMPTY, limits, e, 1200) == Ok(Saved);
    var a := Run(EMPTY, limits, [offer]);
    assert Run(EMPTY, limits, []) == EMPTY;
    assert a == Next(EMPTY, limits, e, 1200, Committed) == Insert(EMPTY, e, 1200);
    assert 7 in a.events && !ObservedBeforeSigning(a.events[7].event);
    RestartAccepts(limits, [offer]);
  }

  // ----- retries

  /** Archived rows are immutable: they are in every later state, unchanged, so a frozen snapshot stays loadable. */
  lemma {:induction false} ArchivedForever(a: Archive, limits: Limits, offers: seq<Offer>, id: EventId)
    requires id in a.events
    ensures var b := Run(a, limits, offers); id in b.events && b.events[id] == a.events[id]
  {
    if offers != [] {
      ArchivedForever(a, limits, offers[..|offers| - 1], id);
    }
  }

  predicate Positive(r: Answer) { r == Ok(Saved) || r == Ok(Duplicate) }

  predicate Negative(r: Answer) { r.Ok? && !Positive(r) }

  /** A positive answer means the archive holds exactly that event, from then on. */
  lemma PositiveMeansArchived(a: Archive, limits: Limits, o: Offer, later: seq<Offer>)
    requires Positive(Reply(a, limits, o.event, o.receivedAt, o.commit))
    ensures var b := Run(Next(a, limits, o.event, o.receivedAt, o.commit), limits, later);
            o.event.id in b.events && b.events[o.event.id].event == o.event
  {
    ArchivedForever(Next(a, limits, o.event, o.receivedAt, o.commit), limits, later, o.event.id);
  }

  /**
   Once archived, an event is answered `Duplicate` after any further run, at
   any clock and under any limits; only a failed commit hides the answer, and
   no answer is ever negative.
   */
  lemma ArchivedIsDuplicateForever(a: Archive, limits: Limits, offers: seq<Offer>, e: Event, receivedAt: nat,
                                   commit: Commit)
    requires e.id in a.events && a.events[e.id].event == e
    ensures var r := Reply(Run(a, limits, offers), limits, e, receivedAt, commit);
            r == (if commit == Committed then Ok(Duplicate) else Err(CommitFailed)) && !Negative(r)
  {
    ArchivedForever(a, limits, offers, e.id);
  }

  // ----- order of arrival

  ghost function Offered(offers: seq<Offer>): set<Event> {
    set i | 0 <= i < |offers| :: offers[i].event
  }

  /** No offer met a capacity limit, an expiry, a byte conflict or a failed commit. */
  predicate NothingRefused(limits: Limits, offers: seq<Offer>) {
    forall i :: 0 <= i < |offers| ==> AnswerAt(limits, offers, i) in {Ok(Saved), Ok(Duplicate), Ok(ReplacedByNewer)}
  }

  /** `heads` names, for exactly the tags of `offered`, an offered event that no offered event of the tag beats. */
  ghost predicate HeadsOfOffered(a: Archive, offered: set<Event>) {
    && (forall id | id in a.events :: a.events[id].event in offered && a.events[id].event.id == id)
    && (forall tag | tag in a.heads :: a.heads[tag] in a.events && a.events[a.heads[tag]].event.tag == tag)
    && (forall e | e in offered :: e.tag in a.heads && !Beats(e, a.events[a.heads[e.tag]].event))
  }

  lemma OfferSaved(a: Archive, e: Event, receivedAt: nat, offered: set<Event>)
    requires HeadsOfOffered(a, offered) && e.id !in a.events
    requires e.tag in a.heads ==> Beats(e, a.events[a.heads[e.tag]].event)
    ensures HeadsOfOffered(Insert(a, e, receivedAt), offered + {e})
  {
  }

  lemma OfferStep(a: Archive, limits: Limits, o: Offer, offered: set<Event>)
    requires HeadsOfOffered(a, offered)
    requires Reply(a, limits, o.event, o.receivedAt, o.commit) in {Ok(Saved), Ok(Duplicate), Ok(ReplacedByNewer)}
    ensures HeadsOfOffered(Next(a, limits, o.event, o.receivedAt, o.commit), offered + {o.event})
  {
    var e, d := o.event, Decide(a, limits, o.event, o.receivedAt);
    if d == Ok(Saved) {
      SavedMeans(a, limits, e, o.receivedAt);
      OfferSaved(a, e, o.receivedAt, offered);
    } else if d == Ok(Duplicate) {
      assert a.events[e.id].event == e;
      assert offered + {e} == offered;
    } else {
      var head := HeadRow(a, e.tag);
      assert head.Some? && !Beats(e, head.value.event);
      assert forall x | x in offered + {e} :: x in offered || x == e;
    }
  }

  lemma PrefixNotRefused(limits: Limits, offers: seq<Offer>)
    requires NothingRefused(limits, offers) && offers != []
    ensures NothingRefused(limits, offers[..|offers| - 1])
  {
    var before := offers[..|offers| - 1];
    forall i | 0 <= i < |before| ensures AnswerAt(limits, before, i) == AnswerAt(limits, offers, i) {
      assert before[..i] == offers[..i];
    }
  }

  lemma {:induction false} HeadsAreMaxima(limits: Limits, offers: seq<Offer>)
    requires NothingRefused(limits, offers)
    ensures HeadsOfOffered(Run(EMPTY, limits, offers), Offered(offers))
  {
    if offers != [] {
      var before, o := offers[..|offers| - 1], offers[|offers| - 1];
      PrefixNotRefused(limits, offers);
      HeadsAreMaxima(limits, before);
      assert AnswerAt(limits, offers, |before|) in {Ok(Saved), Ok(Duplicate), Ok(ReplacedByNewer)};
      OfferStep(Run(EMPTY, limits, before), limits, o, Offered(before));
      OfferedGrows(offers);
    }
  }

  lemma OfferedGrows(offers: seq<Offer>)
    requires offers != []
    ensures Offered(offers) == Offered(offers[..|offers| - 1]) + {offers[|offers| - 1].event}
  {
    var before := offers[..|offers| - 1];
    forall e | e in Offered(offers) ensures e in Offered(before) + {offers[|offers| - 1].event} {
      var i :| 0 <= i < |offers| && offers[i].event == e;
      if i < |before| { assert before[i].event == e; }
    }
    forall e | e in Offered(before) ensures e in Offered(offers) {
      var i :| 0 <= i < |before| && before[i].event == e;
      assert offers[i].event == e;
    }
  }

  /**
   Two runs that offer the same events, in any order, at any clocks and with
   any repetition, end with the same heads when neither refused anything.
   */
  lemma HeadsIgnoreOrder(limits: Limits, first: seq<Offer>, second: seq<Offer>)
    requires NothingRefused(limits, first) && NothingRefused(limits, second)
    requires Offered(first) == Offered(second)
    ensures Run(EMPTY, limits, first).heads == Run(EMPTY, limits, second).heads
  {
    HeadsAreMaxima(limits, first);
    HeadsAreMaxima(limits, second);
    SameHeads(Run(EMPTY, limits, first), Run(EMPTY, limits, second), Offered(first));
  }

  lemma SameHeads(a: Archive, b: Archive, offered: set<Event>)
    requires HeadsOfOffered(a, offered) && HeadsOfOffered(b, offered)
    ensures a.heads == b.heads
  {
    forall tag ensures tag in a.heads <==> tag in b.heads {
      if tag in a.heads { assert a.events[a.heads[tag]].event in offered; }
      if tag in b.heads { assert b.events[b.heads[tag]].event in offered; }
    }
    forall tag | tag in a.heads ensures a.heads[tag] == b.heads[tag] {
      var x, y := a.events[a.heads[tag]].event, b.events[b.heads[tag]].event;
      assert x in offered && y in offered && !Beats(x, y) && !Beats(y, x);
    }
  }

  // ----- nothing is refused, by the offers alone

  /** The table lists every offered event under its id; so no two of them share an id. */
  ghost predicate Lists(table: Table, offers: seq<Offer>) {
    forall i | 0 <= i < |offers| :: offers[i].event.id in table && table[offers[i].event.id].event == offers[i].event
  }

  /**
   The listed events are within the relay's limits all together: their number,
   their bytes and the tags of each shard.
   */
  ghost predicate Fits(limits: Limits, table: Table) {
    |table| <= limits.maxEvents && TotalBytes(table) <= limits.maxBytes && ShardLimits(Tags(table))
  }

  /** Every event is valid at the clock it is received at, and every commit succeeds. */
  predicate Timely(offers: seq<Offer>) {
    forall i | 0 <= i < |offers| ::
      offers[i].commit == Committed && offers[i].receivedAt <= I64_MAX && ValidAt(offers[i].event, offers[i].receivedAt)
  }

  /** `part` holds some of the events of `whole`. */
  ghost predicate Among(part: Table, whole: Table) {
    forall id | id in part :: id in whole && part[id].event == whole[id].event
  }

  lemma {:induction false} AmongSmaller(part: Table, whole: Table)
    requires Among(part, whole)
    ensures |part| <= |whole| && TotalBytes(part) <= TotalBytes(whole)
    decreases |part|
  {
    if part != map[] {
      var id :| id in part;
      TotalBytesPick(part, id);
      TotalBytesPick(whole, id);
      assert (part - {id}).Keys == part.Keys - {id} && (whole - {id}).Keys == whole.Keys - {id};
      AmongSmaller(part - {id}, whole - {id});
    }
  }

  lemma {:induction false} RunAmong(limits: Limits, offers: seq<Offer>, table: Table)
    requires Lists(table, offers)
    ensures Among(Run(EMPTY, limits, offers).events, table)
  {
    if offers != [] {
      RunAmong(limits, offers[..|offers| - 1], table);
      assert offers[|offers| - 1].event.id in table;
    }
  }

  lemma RoomInArchive(a: Archive, limits: Limits, e: Event, receivedAt: nat, table: Table)
    requires Inv(a, limits) && Among(a.events, table) && Fits(limits, table)
    requires e.id !in a.events && e.id in table && table[e.id].event == e
    ensures a.count < limits.maxEvents && a.bytes + e.size <= limits.maxBytes
  {
    AmongSmaller(a.events[e.id := RowOf(e, receivedAt)], table);
    TotalBytesAdd(a.events, e.id, RowOf(e, receivedAt));
  }

  lemma TagsAmong(a: Archive, e: Event, table: Table)
    requires IsHeadMap(a.events, a.heads) && Among(a.events, table) && e.id in table && table[e.id].event == e
    ensures a.heads.Keys + {e.tag} <= Tags(table)
  {
    assert e.tag in Tags(table);
    forall tag | tag in a.heads ensures tag in Tags(table) {
      assert table[a.heads[tag]].event.tag == tag;
    }
  }

  lemma RoomInShard(a: Archive, limits: Limits, e: Event, table: Table)
    requires Inv(a, limits) && Among(a.events, table) && Fits(limits, table) && e.tag !in a.heads
    requires e.id in table && table[e.id].event == e
    ensures HeadCount(a, e.tag.Shard(), e.tag.Profile()) < Capacity(e.tag.Profile())
  {
    var s: Shard, p := e.tag.Shard(), e.tag.Profile();
    HeadCountIsTags(a, s, p);
    TagsInAdd(a.heads.Keys, e.tag, s, p);
    TagsAmong(a, e, table);
    assert TagsIn(a.heads.Keys + {e.tag}, s, p) <= TagsIn(Tags(table), s, p);
    SubsetSize(TagsIn(a.heads.Keys + {e.tag}, s, p), TagsIn(Tags(table), s, p));
  }

  lemma GoodOfferTaken(a: Archive, limits: Limits, o: Offer, table: Table)
    requires Inv(a, limits) && Among(a.events, table) && Fits(limits, table)
    requires Timely([o]) && Lists(table, [o])
    ensures Reply(a, limits, o.event, o.receivedAt, o.commit) in {Ok(Saved), Ok(Duplicate), Ok(ReplacedByNewer)}
  {
    var e := o.event;
    assert [o][0] == o;
    if e.id !in a.events {
      RoomInArchive(a, limits, e, o.receivedAt, table);
      if e.tag !in a.heads {
        RoomInShard(a, limits, e, table);
      }
    }
  }

  /**
   Timely offers of events that fit the relay all together are never refused,
   in any order and however often repeated.
   */
  lemma GoodOffersTaken(limits: Limits, offers: seq<Offer>, table: Table)
    requires Timely(offers) && Lists(table, offers) && Fits(limits, table)
    ensures NothingRefused(limits, offers)
  {
    forall i | 0 <= i < |offers|
      ensures AnswerAt(limits, offers, i) in {Ok(Saved), Ok(Duplicate), Ok(ReplacedByNewer)}
    {
      RunKeepsInv(limits, offers[..i]);
      RunAmong(limits, offers[..i], table);
      GoodOfferTaken(Run(EMPTY, limits, offers[..i]), limits, offers[i], table);
    }
  }

  /** So two timely runs over the same events, which fit the relay all together, end with the same heads. */
  lemma GoodOffersIgnoreOrder(limits: Limits, first: seq<Offer>, second: seq<Offer>, table: Table)
    requires Timely(first) && Timely(second) && Offered(first) == Offered(second)
    requires Lists(table, first) && Fits(limits, table)
    ensures Run(EMPTY, limits, first).heads == Run(EMPTY, limits, second).heads
  {
    forall i | 0 <= i < |second|
      ensures second[i].event.id in table && table[second[i].event.id].event == second[i].event
    {
      assert second[i].event in Offered(first);
      var j :| 0 <= j < |first| && first[j].event == second[i].event;
    }
    GoodOffersTaken(limits, first, table);
    GoodOffersTaken(limits, second, table);
    HeadsIgnoreOrder(limits, first, second);
  }
}
