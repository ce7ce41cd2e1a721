/** What a relay answers and which events lead, told by the archived events alone, without heads and counters. */
module RelayAnswers {
  import opened Wrappers
  import opened RelayEvents
  import opened RelayStore
  import opened RelayRuns

  // ----- the heads

  /**
   After any run, the head of a coordinate is archived under it and was signed
   no earlier than any archived event of that coordinate; of those signed at
   the same time it has the lowest id.
   */
  lemma HeadsAreLatest(limits: Limits, offers: seq<Offer>)
    ensures var a := Run(EMPTY, limits, offers);
            && a.heads.Keys == Tags(a.events)
            && (forall tag | tag in a.heads :: a.heads[tag] in a.events && a.events[a.heads[tag]].event.tag == tag)
            && forall id | id in a.events ::
                 var x, head := a.events[id].event, a.events[a.heads[a.events[id].event.tag]].event;
                 x.createdAt < head.createdAt || (x.createdAt == head.createdAt && head.id <= x.id)
  {
    var a := Run(EMPTY, limits, offers);
    RunKeepsInv(limits, offers);
    forall id | id in a.events ensures a.events[id].event.tag in a.heads && RowAgrees(id, a.events[id]) {
      assert a.events[id].event.tag in Tags(a.events);
    }
  }

  /** If nothing was refused, that holds of all events offered, archived or not. */
  lemma HeadsAreLatestOffered(limits: Limits, offers: seq<Offer>)
    requires NothingRefused(limits, offers)
    ensures var a := Run(EMPTY, limits, offers);
            forall i | 0 <= i < |offers| ::
              var x := offers[i].event;
              && x.tag in a.heads && a.heads[x.tag] in a.events
              && var head := a.events[a.heads[x.tag]].event;
                 x.createdAt < head.createdAt || (x.createdAt == head.createdAt && head.id <= x.id)
  {
    HeadsAreMaxima(limits, offers);
    forall i | 0 <= i < |offers| ensures offers[i].event in Offered(offers) {
    }
  }

  // ----- the answers

  /** An archived event of the same coordinate was signed later, or at the same time with a lower id. */
  ghost predicate Overtaken(t: Table, e: Event) {
    exists id | id in t && t[id].event.tag == e.tag ::
      t[id].event.createdAt > e.createdAt || (t[id].event.createdAt == e.createdAt && t[id].event.id < e.id)
  }

  /** The archived providers whose first hexadecimal digit is `digit`. */
  ghost function ProvidersOf(t: Table, digit: nat): set<DTag> {
    set id | id in t && t[id].event.tag.EntryTag? && t[id].event.tag.provider[0] / 16 == digit :: t[id].event.tag
  }

  /** A new entry for a shard of 1024 providers; a checkpoint has its coordinate to itself. */
  ghost predicate ShardFull(t: Table, e: Event) {
    e.tag.EntryTag? && e.tag !in Tags(t) && |ProvidersOf(t, e.tag.provider[0] / 16)| >= 1024
  }

  /** The decision on an event, by the archived events. */
  ghost function AnswerFrom(t: Table, limits: Limits, e: Event, now: nat): Answer {
    if e.id in t then if t[e.id].event == e then Ok(Duplicate) else Err(DifferentBytes)
    else if e.createdAt <= now && now > I64_MAX then Err(TimestampRange)
    else if !ValidAt(e, now) then Ok(InvalidCurrentEvent)
    else if Overtaken(t, e) then Ok(ReplacedByNewer)
    else if ShardFull(t, e) then Ok(ShardCapacityExceeded)
    else if |t| >= limits.maxEvents || TotalBytes(t) + e.size > limits.maxBytes then Ok(ArchiveCapacityExceeded)
    else Ok(Saved)
  }

  lemma OvertakenByHead(t: Table, heads: map<DTag, EventId>, e: Event)
    requires IsHeadMap(t, heads) && (forall id | id in t :: t[id].event.id == id) && e.id !in t
    ensures Overtaken(t, e) <==> e.tag in heads && !Beats(e, t[heads[e.tag]].event)
  {
    if Overtaken(t, e) {
      var id :| id in t && t[id].event.tag == e.tag
                && (t[id].event.createdAt > e.createdAt
                    || (t[id].event.createdAt == e.createdAt && t[id].event.id < e.id));
      assert t[id].event.tag in Tags(t);
      assert !Beats(t[id].event, t[heads[e.tag]].event);
    }
  }

  lemma FullByCount(a: Archive, e: Event)
    requires forall id | id in a.events :: RowAgrees(id, a.events[id])
    requires IsHeadMap(a.events, a.heads) && e.tag !in a.heads
    ensures ShardFull(a.events, e) <==>
            HeadCount(a, e.tag.Shard(), e.tag.Profile()) >= Capacity(e.tag.Profile())
  {
    HeadCountIsTags(a, e.tag.Shard(), e.tag.Profile());
    var all := TagsIn(a.heads.Keys, e.tag.Shard(), e.tag.Profile());
    if e.tag.EntryTag? {
      ProvidersAreTags(a.events, e.tag);
    } else {
      assert forall tag | tag in all :: tag == e.tag;
      assert all == {};
    }
  }

  lemma ProvidersAreTags(t: Table, tag: DTag)
    requires tag.EntryTag?
    ensures ProvidersOf(t, tag.provider[0] / 16) == TagsIn(Tags(t), tag.Shard(), Entry)
  {
  }

  lemma {:induction false} AnsweredFrom(a: Archive, limits: Limits, e: Event, now: nat)
    requires (forall id | id in a.events :: RowAgrees(id, a.events[id])) && IsHeadMap(a.events, a.heads)
             && Counted(a, limits)
    ensures Decide(a, limits, e, now) == AnswerFrom(a.events, limits, e, now)
  {
    assert forall id | id in a.events :: RowAgrees(id, a.events[id]) && a.events[id].event.id == id;
    if e.id !in a.events {
      OvertakenByHead(a.events, a.heads, e);
      if e.tag !in a.heads {
        FullByCount(a, e);
      }
    }
  }

  /**
   After any run the answer to an event is the one its archived events give,
   and the event is added if and only if that answer is Saved and the commit
   took effect. A decision whose commit failed is not told.
   */
  lemma AnswersFollowArchive(limits: Limits, offers: seq<Offer>, o: Offer)
    ensures var t, t' := Run(EMPTY, limits, offers).events, Run(EMPTY, limits, offers + [o]).events;
            var d := AnswerFrom(t, limits, o.event, o.receivedAt);
            && AnswerAt(limits, offers + [o], |offers|)
              == (if d.Err? || o.commit == Committed then d else Err(CommitFailed))
            && t' ==
               if d == Ok(Saved) && o.commit != RolledBack then t[o.event.id := RowOf(o.event, o.receivedAt)] else t
  {
    assert (offers + [o])[..|offers|] == offers;
    RunKeepsInv(limits, offers);
    AnsweredFrom(Run(EMPTY, limits, offers), limits, o.event, o.receivedAt);
  }

  lemma {:induction false} LaterIsSaved(a: Archive, limits: Limits, e: Event, now: nat)
    requires e.tag in a.heads && a.heads[e.tag] in a.events && e.id !in a.events && ValidAt(e, now) && now <= I64_MAX
    requires a.count < limits.maxEvents && a.bytes + e.size <= limits.maxBytes
    ensures e.createdAt > a.events[a.heads[e.tag]].event.createdAt ==> Decide(a, limits, e, now) == Ok(Saved)
    ensures e.createdAt < a.events[a.heads[e.tag]].event.createdAt ==> Decide(a, limits, e, now) == Ok(ReplacedByNewer)
  {
  }

  /**
   So an event signed later than the head of its coordinate, timely, under a
   new id and with room in the archive, is saved and leads from then on; an
   event signed earlier is not, whatever the room.
   */
  lemma {:induction false} LaterLeads(limits: Limits, offers: seq<Offer>, o: Offer)
    requires var a := Run(EMPTY, limits, offers);
             && o.event.tag in a.heads && a.heads[o.event.tag] in a.events && o.event.id !in a.events
             && |a.events| < limits.maxEvents && TotalBytes(a.events) + o.event.size <= limits.maxBytes
    requires o.commit == Committed && o.receivedAt <= I64_MAX && ValidAt(o.event, o.receivedAt)
    ensures var a, a' := Run(EMPTY, limits, offers), Run(EMPTY, limits, offers + [o]);
            var head, r := a.events[a.heads[o.event.tag]].event, AnswerAt(limits, offers + [o], |offers|);
            && (o.event.createdAt > head.createdAt ==> r == Ok(Saved) && a'.heads[o.event.tag] == o.event.id)
            && (o.event.createdAt < head.createdAt ==> r == Ok(ReplacedByNewer) && a' == a)
  {
    assert (offers + [o])[..|offers|] == offers;
    RunKeepsInv(limits, offers);
    LaterIsSaved(Run(EMPTY, limits, offers), limits, o.event, o.receivedAt);
  }
}
