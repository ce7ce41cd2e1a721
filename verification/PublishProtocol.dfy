/**
 The publisher's session against the relay: lossy connections, retries, other
 publishers, commits of unknown outcome.
 */
module PublishProtocol {
  import opened Wrappers
  import opened RelayEvents
  import opened RelayStore
  import opened RelayRuns
  import opened RelayAnswers

  const MAX_REPLY_BYTES: nat := 8 * 1024
  const MAX_TOTAL_REPLY_BYTES: nat := 8 * 1024 * 1024

  datatype Failure =
    MissingOk | Transport | ReplyTooLarge | NonTextReply | UnexpectedReply | DuplicateOk | RelayRejected

  /** What a strict OK reply carries. */
  datatype Ack = Ack(id: EventId, accepted: bool)

  /** `ack` is `None` for a text that is not a strict OK. */
  datatype Incoming = Text(length: nat, ack: Option<Ack>) | NonText(length: nat) | Close | Broken
  {
    function Length(): nat { if Text? || NonText? then length else 0 }
  }

  function TotalLength(inbox: seq<Incoming>): nat {
    if inbox == [] then 0 else TotalLength(inbox[..|inbox| - 1]) + inbox[|inbox| - 1].Length()
  }

  /** The `i`-th incoming message is an in-bounds positive OK for the `i`-th event, an event not confirmed before. */
  ghost predicate Confirms(events: seq<Event>, inbox: seq<Incoming>, i: nat) {
    && i < |events| && i < |inbox|
    && inbox[i].Text? && inbox[i].ack == Some(Ack(events[i].id, true))
    && inbox[i].length <= 8192 && TotalLength(inbox[..i + 1]) <= 8_388_608
    && forall j | 0 <= j < i :: events[j].id != events[i].id
  }

  /** Why the `k`-th incoming message does not confirm the `k`-th event, the earlier ones being confirmed. */
  function Reason(events: seq<Event>, inbox: seq<Incoming>, k: nat): Failure
    requires k < |events|
  {
    if k >= |inbox| || inbox[k].Close? then MissingOk
    else if inbox[k].Broken? then Transport
    else if inbox[k].length > 8192 || TotalLength(inbox[..k + 1]) > 8_388_608 then ReplyTooLarge
    else if inbox[k].NonText? then NonTextReply
    else if inbox[k].ack.None? then UnexpectedReply
    else if inbox[k].ack == Some(Ack(events[k].id, false)) then RelayRejected
    else if exists j | 0 <= j < k :: events[j].id == inbox[k].ack.value.id then DuplicateOk
    else UnexpectedReply
  }

  /** The first message that does not confirm its event, and why. */
  ghost predicate FailsAt(events: seq<Event>, inbox: seq<Incoming>, k: nat, f: Failure) {
    && k < |events| && (forall i: nat | i < k :: Confirms(events, inbox, i)) && !Confirms(events, inbox, k)
    && f == Reason(events, inbox, k)
  }

  /**
   The session succeeds exactly when every event got its own in-bounds
   positive OK in order; otherwise it fails for the first message that is not
   one, for what is wrong with that.
   */
  method PublishSession(events: seq<Event>, inbox: seq<Incoming>) returns (r: Result<nat, Failure>)
    ensures r.Ok? <==> forall i: nat | i < |events| :: Confirms(events, inbox, i)
    ensures r.Err? ==> exists k: nat :: FailsAt(events, inbox, k, r.error)
  {
    var confirmed: set<EventId> := {};
    var total := 0;
    for k := 0 to |events|
      invariant k <= |inbox| && total == TotalLength(inbox[..k]) <= MAX_TOTAL_REPLY_BYTES
      invariant confirmed == set j | 0 <= j < k :: events[j].id
      invariant forall i: nat | i < k :: Confirms(events, inbox, i)
    {
      assert !Confirms(events, inbox, k) ==> exists i: nat | i < |events| :: !Confirms(events, inbox, i);
      assert !Confirms(events, inbox, k) ==> FailsAt(events, inbox, k, Reason(events, inbox, k));
      if k >= |inbox| {
        return Err(MissingOk);
      }
      var message := inbox[k];
      if message.Broken? {
        return Err(Transport);
      }
      assert inbox[..k + 1][..k] == inbox[..k];
      total := total + message.Length();
      if message.Length() > MAX_REPLY_BYTES || total > MAX_TOTAL_REPLY_BYTES {
        return Err(ReplyTooLarge);
      }
      if !message.Text? {
        return Err(if message.Close? then MissingOk else NonTextReply);
      }
      if message.ack.None? {
        return Err(UnexpectedReply);
      }
      if message.ack.value.id != events[k].id {
        return Err(if message.ack.value.id in confirmed then DuplicateOk else UnexpectedReply);
      }
      if !message.ack.value.accepted {
        return Err(RelayRejected);
      }
      if events[k].id in confirmed {
        return Err(DuplicateOk);
      }
      confirmed := confirmed + {events[k].id};
    }
    return Ok(|events|);
  }

  // ----- the system: one relay archive, one publisher connection, anyone else's ingests

  /**
   `handled` events of this connection have reached the store's decision;
   `replies` are what the relay has put on the wire for them.
   */
  datatype System =
    System(archive: Archive, limits: Limits, sent: nat, handled: nat, replies: seq<Incoming>, open: bool)

  datatype Step =
    | Send
    | Handle(receivedAt: nat, commit: Commit, length: nat, delivered: bool)
    | NotStarted
    | Elsewhere(offer: Offer)
    | Drop
    | Reconnect

  /** One step; a step that is not enabled leaves the system as it is. */
  function After(s: System, events: seq<Event>, step: Step): System {
    match step
    case Send => if s.open && s.sent < |events| then s.(sent := s.sent + 1) else s
    case Handle(receivedAt, commit, length, delivered) =>
      if s.open && s.handled < s.sent && s.handled < |events| then
        var e := events[s.handled];
        var r := Reply(s.archive, s.limits, e, receivedAt, commit);
        var next := s.(archive := Next(s.archive, s.limits, e, receivedAt, commit), handled := s.handled + 1);
        if r.Ok? && delivered then next.(replies := s.replies + [Text(length, Some(Ack(e.id, Positive(r))))])
        else next.(open := false)
      else s
    case NotStarted => if s.handled < s.sent then s.(open := false) else s
    case Elsewhere(o) => s.(archive := Next(s.archive, s.limits, o.event, o.receivedAt, o.commit))
    case Drop => s.(open := false)
    case Reconnect => s.(sent := 0, handled := 0, replies := [], open := true)
  }

  function Execute(s: System, events: seq<Event>, steps: seq<Step>): System {
    if steps == [] then s
    else After(Execute(s, events, steps[..|steps| - 1]), events, steps[|steps| - 1])
  }

  function Start(archive: Archive, limits: Limits): System {
    System(archive, limits, 0, 0, [], true)
  }

  predicate Archived(a: Archive, e: Event) {
    e.id in a.events && a.events[e.id].event == e
  }

  /** Every reply answers its own event, and a positive one is backed by the archive as it is now. */
  ghost predicate Backed(s: System, events: seq<Event>) {
    && |s.replies| <= s.handled <= s.sent <= |events|
    && (s.open ==> |s.replies| == s.handled)
    && forall i | 0 <= i < |s.replies| ::
         && s.replies[i].Text? && s.replies[i].ack.Some? && s.replies[i].ack.value.id == events[i].id
         && (s.replies[i].ack.value.accepted ==> Archived(s.archive, events[i]))
  }

  lemma ArchiveOnlyGrows(a: Archive, limits: Limits, o: Offer, e: Event)
    requires Archived(a, e)
    ensures Archived(Next(a, limits, o.event, o.receivedAt, o.commit), e)
  {
  }

  lemma StepKeepsBacked(s: System, events: seq<Event>, step: Step)
    requires Backed(s, events)
    ensures Backed(After(s, events, step), events)
  {
    var s' := After(s, events, step);
    match step
    case Handle(receivedAt, commit, length, delivered) =>
      if s.open && s.handled < s.sent && s.handled < |events| {
        var o := Offer(events[s.handled], receivedAt, commit);
        forall i | 0 <= i < |s.replies| && s.replies[i].ack.value.accepted ensures Archived(s'.archive, events[i]) {
          ArchiveOnlyGrows(s.archive, s.limits, o, events[i]);
        }
      }
    case Elsewhere(o) =>
      forall i | 0 <= i < |s.replies| && s.replies[i].ack.value.accepted ensures Archived(s'.archive, events[i]) {
        ArchiveOnlyGrows(s.archive, s.limits, o, events[i]);
      }
    case _ =>
  }

  lemma {:induction false} RunKeepsBacked(s: System, events: seq<Event>, steps: seq<Step>)
    requires Backed(s, events)
    ensures Backed(Execute(s, events, steps), events)
  {
    if steps != [] {
      RunKeepsBacked(s, events, steps[..|steps| - 1]);
      StepKeepsBacked(Execute(s, events, steps[..|steps| - 1]), events, steps[|steps| - 1]);
    }
  }

  /**
   Over every run (lost replies, failed commits, retries, other publishers):
   when the replies read so far make the session succeed, every event is in
   the archive at that moment.
   */
  lemma SessionOkMeansArchived(archive: Archive, limits: Limits, events: seq<Event>, steps: seq<Step>, read: nat)
    requires read <= |Execute(Start(archive, limits), events, steps).replies|
    requires forall i: nat | i < |events| ::
               Confirms(events, Execute(Start(archive, limits), events, steps).replies[..read], i)
    ensures forall e | e in events :: Archived(Execute(Start(archive, limits), events, steps).archive, e)
  {
    var s := Execute(Start(archive, limits), events, steps);
    RunKeepsBacked(Start(archive, limits), events, steps);
    forall e | e in events ensures Archived(s.archive, e) {
      var i :| 0 <= i < |events| && events[i] == e;
      assert Confirms(events, s.replies[..read], i);
      assert s.replies[..read][i] == s.replies[i];
    }
  }

  /** The store can tell the outcome: the commit took, no other event has the id, and the clock fits the store. */
  predicate Tellable(s: System, e: Event, receivedAt: nat, commit: Commit) {
    && commit == Committed
    && (e.id in s.archive.events ==> s.archive.events[e.id].event == e)
    && (e.id !in s.archive.events && e.createdAt <= receivedAt ==> receivedAt <= 0x7fff_ffff_ffff_ffff)
  }

  /**
   An event that reaches the store is acknowledged exactly if the outcome can
   be told and the reply gets through; positively exactly if the archive holds
   the event afterwards. Otherwise the connection ends without a reply.
   */
  lemma AcknowledgedExactly(s: System, events: seq<Event>, step: Step)
    requires step.Handle? && s.open && s.handled < s.sent && s.handled < |events|
    ensures var s', e := After(s, events, step), events[s.handled];
            && s'.handled == s.handled + 1 && s'.sent == s.sent
            && if Tellable(s, e, step.receivedAt, step.commit) && step.delivered
               then s'.open && s'.replies == s.replies + [Text(step.length, Some(Ack(e.id, Archived(s'.archive, e))))]
               else !s'.open && s'.replies == s.replies
  {
  }

  /** Nothing else puts a reply on the wire, and only a new connection takes one back. */
  lemma OnlyHandlingReplies(s: System, events: seq<Event>, step: Step)
    requires !step.Handle?
    ensures var s' := After(s, events, step);
            if step.Reconnect? then s' == System(s.archive, s.limits, 0, 0, [], true)
            else s'.replies == s.replies && s'.handled == s.handled && (s'.open ==> s.open)
    ensures !step.Elsewhere? ==> After(s, events, step).archive == s.archive
  {
  }

  /** Everything is archived and no reply so far denies it. */
  ghost predicate Affirmed(s: System, events: seq<Event>) {
    && (forall e | e in events :: Archived(s.archive, e))
    && forall i | 0 <= i < |s.replies| ::
      s.replies[i].Text? && s.replies[i].ack.Some? && s.replies[i].ack.value.accepted
  }

  lemma StepKeepsAffirmed(s: System, events: seq<Event>, step: Step)
    requires Affirmed(s, events)
    ensures Affirmed(After(s, events, step), events)
  {
    var s' := After(s, events, step);
    forall e | e in events ensures Archived(s'.archive, e) {
      match step
      case Elsewhere(o) => ArchiveOnlyGrows(s.archive, s.limits, o, e);
      case Handle(receivedAt, commit, _, _) =>
        if s.open && s.handled < s.sent && s.handled < |events| {
          ArchiveOnlyGrows(s.archive, s.limits, Offer(events[s.handled], receivedAt, commit), e);
        }
      case _ =>
    }
    if step.Handle? && s.open && s.handled < s.sent && s.handled < |events| {
      assert Archived(s.archive, events[s.handled]);
    }
  }

  /**
   A retry of events that are already archived is never told no: in every
   later state of every run all replies on the connection are positive.
   */
  lemma {:induction false} RetryNeverRejected(s: System, events: seq<Event>, steps: seq<Step>)
    requires Affirmed(s, events)
    ensures Affirmed(Execute(s, events, steps), events)
  {
    if steps != [] {
      RetryNeverRejected(s, events, steps[..|steps| - 1]);
      StepKeepsAffirmed(Execute(s, events, steps[..|steps| - 1]), events, steps[|steps| - 1]);
    }
  }

  // ----- a session over a connection that loses nothing

  /** The events, each received at its clock, with commits that take. */
  function OffersOf(events: seq<Event>, clocks: seq<nat>): seq<Offer>
    requires |events| == |clocks|
  {
    seq(|events|, i requires 0 <= i < |events| => Offer(events[i], clocks[i], Committed))
  }

  /** Send an event, have it handled and answered, and so on. */
  function Lossless(clocks: seq<nat>, length: nat, n: nat): seq<Step>
    requires n <= |clocks|
  {
    if n == 0 then [] else Lossless(clocks, length, n - 1) + [Send] + [Handle(clocks[n - 1], Committed, length, true)]
  }

  /** The first `n` events got the replies `replies`, each positive just if the relay's answer is. */
  ghost predicate Answered(events: seq<Event>, limits: Limits, offers: seq<Offer>, length: nat, replies: seq<Incoming>)
  {
    |replies| <= |events| == |offers|
    && forall i | 0 <= i < |replies| ::
         replies[i] == Text(length, Some(Ack(events[i].id, Positive(AnswerAt(limits, offers, i)))))
  }

  lemma ExecuteOne(s: System, events: seq<Event>, steps: seq<Step>, step: Step)
    ensures Execute(s, events, steps + [step]) == After(Execute(s, events, steps), events, step)
  {
    assert (steps + [step])[..|steps|] == steps;
  }

  /** One event sent, handled and answered. */
  lemma OneEvent(s: System, events: seq<Event>, clock: nat, length: nat, r: Answer)
    requires s.open && s.sent == s.handled < |events|
    requires r == Reply(s.archive, s.limits, events[s.handled], clock, Committed) && r.Ok?
    ensures After(After(s, events, Send), events, Handle(clock, Committed, length, true)) ==
            System(Next(s.archive, s.limits, events[s.handled], clock, Committed), s.limits, s.sent + 1, s.handled + 1,
                   s.replies + [Text(length, Some(Ack(events[s.handled].id, Positive(r))))], true)
  {
  }

  /** The first `n` events have been handled and answered, and nothing else has happened. */
  ghost predicate Underway(s: System, limits: Limits, events: seq<Event>, offers: seq<Offer>, length: nat, n: nat)
    requires n <= |offers|
  {
    && s.open && s.limits == limits && s.sent == s.handled == |s.replies| == n
    && s.archive == Run(EMPTY, limits, offers[..n]) && Answered(events, limits, offers, length, s.replies)
  }

  lemma {:induction false} UnderwayNext(s: System, limits: Limits, events: seq<Event>, offers: seq<Offer>, length: nat,
                                        n: nat)
    requires n < |offers| == |events| && Underway(s, limits, events, offers, length, n)
    requires offers[n].event == events[n] && offers[n].commit == Committed && AnswerAt(limits, offers, n).Ok?
    ensures Underway(After(After(s, events, Send), events, Handle(offers[n].receivedAt, Committed, length, true)),
                     limits, events, offers, length, n + 1)
  {
    OneEvent(s, events, offers[n].receivedAt, length, AnswerAt(limits, offers, n));
    assert offers[..n + 1][..n] == offers[..n];
  }

  /** Every event reaches the store in turn and is answered as the store decides. */
  lemma {:induction false} LosslessRun(limits: Limits, events: seq<Event>, clocks: seq<nat>, length: nat, n: nat)
    requires n <= |events| == |clocks|
    requires forall i | 0 <= i < n :: AnswerAt(limits, OffersOf(events, clocks), i).Ok?
    ensures Underway(Execute(Start(EMPTY, limits), events, Lossless(clocks, length, n)), limits, events,
                     OffersOf(events, clocks), length, n)
  {
    if n > 0 {
      LosslessRun(limits, events, clocks, length, n - 1);
      var before := Lossless(clocks, length, n - 1);
      ExecuteOne(Start(EMPTY, limits), events, before, Send);
      ExecuteOne(Start(EMPTY, limits), events, before + [Send], Handle(clocks[n - 1], Committed, length, true));
      UnderwayNext(Execute(Start(EMPTY, limits), events, before), limits, events, OffersOf(events, clocks), length,
                   n - 1);
    }
  }

  /** Only what was offered is archived. */
  lemma {:induction false} ArchivedWasOffered(limits: Limits, offers: seq<Offer>, id: EventId)
    requires id in Run(EMPTY, limits, offers).events
    ensures exists i | 0 <= i < |offers| :: offers[i].event == Run(EMPTY, limits, offers).events[id].event
  {
    var n := |offers| - 1;
    if offers != [] {
      var before := Run(EMPTY, limits, offers[..n]);
      if id in before.events && Run(EMPTY, limits, offers).events[id] == before.events[id] {
        ArchivedWasOffered(limits, offers[..n], id);
        var i :| 0 <= i < n && offers[..n][i].event == before.events[id].event;
        assert offers[i].event == before.events[id].event;
      } else {
        assert offers[n].event == Run(EMPTY, limits, offers).events[id].event;
      }
    }
  }

  /** No two of the events share a coordinate. */
  predicate OnePerTag(events: seq<Event>) {
    forall i, j | 0 <= i < j < |events| :: events[i].tag != events[j].tag
  }

  lemma {:induction false} FreshTagSaved(limits: Limits, events: seq<Event>, clocks: seq<nat>, table: Table, i: nat)
    requires i < |events| == |clocks| && OnePerTag(events)
    requires Timely(OffersOf(events, clocks)) && Lists(table, OffersOf(events, clocks)) && Fits(limits, table)
    ensures Positive(AnswerAt(limits, OffersOf(events, clocks), i))
  {
    var offers := OffersOf(events, clocks);
    var a, o := Run(EMPTY, limits, offers[..i]), offers[i];
    GoodOffersTaken(limits, offers, table);
    AnswersFollowArchive(limits, offers[..i], o);
    assert (offers[..i] + [o])[..i] == offers[..i];
    forall id | id in a.events ensures a.events[id].event.tag != o.event.tag {
      ArchivedWasOffered(limits, offers[..i], id);
      var j :| 0 <= j < i && offers[..i][j].event == a.events[id].event;
      assert events[j].tag != events[i].tag;
    }
  }

  lemma {:induction false} TotalOf(replies: seq<Incoming>, length: nat)
    requires forall i | 0 <= i < |replies| :: replies[i].Text? && replies[i].length == length
    ensures TotalLength(replies) == |replies| * length
  {
    if replies != [] {
      TotalOf(replies[..|replies| - 1], length);
    }
  }

  /**
   Timely events, one per coordinate, that fit an empty relay all together are
   published by a session that loses nothing: it is confirmed event by event.
   */
  lemma {:induction false} LosslessSessionSucceeds(limits: Limits, events: seq<Event>, clocks: seq<nat>, length: nat,
                                                   table: Table)
    requires |events| == |clocks| && OnePerTag(events) && length <= 8192 && |events| * length <= 8_388_608
    requires Timely(OffersOf(events, clocks)) && Lists(table, OffersOf(events, clocks)) && Fits(limits, table)
    ensures var s := Execute(Start(EMPTY, limits), events, Lossless(clocks, length, |events|));
            forall i: nat | i < |events| :: Confirms(events, s.replies, i)
  {
    var offers, n := OffersOf(events, clocks), |events|;
    forall i | 0 <= i < n ensures Positive(AnswerAt(limits, offers, i)) {
      FreshTagSaved(limits, events, clocks, table, i);
    }
    LosslessRun(limits, events, clocks, length, n);
    DistinctIds(events, clocks, table);
    AllConfirmed(events, Execute(Start(EMPTY, limits), events, Lossless(clocks, length, n)).replies, length);
  }

  predicate OnePerId(events: seq<Event>) {
    forall i, j | 0 <= i < j < |events| :: events[i].id != events[j].id
  }

  lemma {:induction false} DistinctIds(events: seq<Event>, clocks: seq<nat>, table: Table)
    requires |events| == |clocks| && OnePerTag(events) && Lists(table, OffersOf(events, clocks))
    ensures OnePerId(events)
  {
    var offers := OffersOf(events, clocks);
    forall i, j | 0 <= i < j < |events| ensures events[i].id != events[j].id {
      assert table[offers[i].event.id].event == events[i] && table[offers[j].event.id].event == events[j];
    }
  }

  lemma {:induction false} AllConfirmed(events: seq<Event>, replies: seq<Incoming>, length: nat)
    requires |replies| == |events| && OnePerId(events) && length <= 8192 && |events| * length <= 8_388_608
    requires forall i | 0 <= i < |replies| :: replies[i] == Text(length, Some(Ack(events[i].id, true)))
    ensures forall i: nat | i < |events| :: Confirms(events, replies, i)
  {
    forall i: nat | i < |events| ensures Confirms(events, replies, i) {
      TotalOf(replies[..i + 1], length);
      TimesAtMost(i + 1, |events|, length);
    }
  }

  lemma TimesAtMost(k: nat, n: nat, length: nat)
    requires k <= n
    ensures k * length <= n * length
  {
  }
}
