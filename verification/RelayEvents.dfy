/**
 Directory events as the relay sees them after `validate_event_json`:
 the tag fixes the profile and the shard, the content carries the times
 that `validate_current_event_profile` compares with a clock.
 */
module RelayEvents {
  import opened Wrappers

  const SHARD_COUNT: nat := 16
  const MAX_VALIDITY_SECONDS: nat := 31 * 24 * 60 * 60

  type Shard = s: nat | s < SHARD_COUNT

  type ProviderId = p: Bytes | |p| == 32 witness seq(32, _ => 0)

  /** The 32 id bytes read as one big-endian number; array order in Rust is numeric order here. */
  type EventId = nat

  datatype Profile = Entry | Checkpoint

  /** The `d` tag: either an entry of one provider or the checkpoint of one shard. */
  datatype DTag = EntryTag(provider: ProviderId) | CheckpointTag(digit: Shard)
  {
    /** The shard is the provider's top nibble, or the checkpoint's own digit. */
    function Shard(): (s: Shard) {
      match this
      case EntryTag(provider) => provider[0] / 16
      case CheckpointTag(digit) => digit
    }

    function Profile(): Profile {
      if EntryTag? then Entry else Checkpoint
    }
  }

  datatype Window = Window(notBefore: nat, validUntil: nat) {
    predicate Holds(now: nat) { notBefore <= now <= validUntil }
  }

  /** `wellFormed` stands for every content check that reads no clock. */
  datatype Content =
    | EntryContent(wellFormed: bool, validUntil: nat, observedBucket: nat, assertion: Option<Window>)
    | CheckpointContent(wellFormed: bool, window: Window)

  /** A signed event; two events have the same canonical JSON exactly when they are equal. */
  datatype Event = Event(id: EventId, createdAt: nat, tag: DTag, content: Content, signature: nat, size: nat)

  /** `validate_current_event_profile` at clock `now`. */
  predicate ValidAt(e: Event, now: nat) {
    && 0 < e.createdAt <= now
    && match (e.tag, e.content)
       case (EntryTag(_), EntryContent(wellFormed, validUntil, bucket, assertion)) =>
         && wellFormed
         && now <= validUntil <= now + MAX_VALIDITY_SECONDS
         && bucket <= now
         && e.createdAt <= validUntil <= e.createdAt + MAX_VALIDITY_SECONDS
         && (assertion.Some? ==> assertion.value.Holds(now) && assertion.value.Holds(e.createdAt))
       case (CheckpointTag(_), CheckpointContent(wellFormed, window)) =>
         wellFormed && window.Holds(now) && window.Holds(e.createdAt)
       case _ => false
  }

  /** NIP-01 replacement: a later timestamp wins, then the lower id. */
  predicate Beats(a: Event, b: Event) {
    a.createdAt > b.createdAt || (a.createdAt == b.createdAt && a.id < b.id)
  }

  /** The health observation of an entry is not dated after the event itself. */
  predicate ObservedBeforeSigning(e: Event) {
    e.content.EntryContent? ==> e.content.observedBucket <= e.createdAt
  }

  /**
   An event accepted at some clock is still accepted when checked at its own
   timestamp, as startup does, exactly when its health bucket is not later
   than the timestamp.
   */
  lemma ValidAtSigningTime(e: Event, now: nat)
    requires ValidAt(e, now)
    ensures ValidAt(e, e.createdAt) <==> ObservedBeforeSigning(e)
  {
  }

  ghost predicate Covers(w: Window, t: nat) { w.notBefore <= t && t <= w.validUntil }

  /** What no clock changes: tag and content are of one kind, and the content's times cover the signing time. */
  ghost predicate Sound(e: Event) {
    && e.createdAt > 0 && e.content.wellFormed && (e.tag.EntryTag? <==> e.content.EntryContent?)
    && (e.content.EntryContent? ==>
        && e.createdAt <= e.content.validUntil && e.content.validUntil - e.createdAt <= 31 * 86400
        && (e.content.assertion.Some? ==> Covers(e.content.assertion.value, e.createdAt)))
    && (e.content.CheckpointContent? ==> Covers(e.content.window, e.createdAt))
  }

  /** The times before which the event cannot be current, and those after which it cannot. */
  ghost function Beginnings(e: Event): set<int> {
    match e.content
    case EntryContent(_, validUntil, bucket, assertion) =>
      {e.createdAt, bucket, validUntil - 31 * 86400} + if assertion.Some? then {assertion.value.notBefore} else {}
    case CheckpointContent(_, window) => {e.createdAt, window.notBefore}
  }

  ghost function Ends(e: Event): set<int> {
    match e.content
    case EntryContent(_, validUntil, _, assertion) =>
      {validUntil} + if assertion.Some? then {assertion.value.validUntil} else {}
    case CheckpointContent(_, window) => {window.validUntil}
  }

  /** A sound event is current from its last beginning to its first end, and no other is. */
  lemma CurrentExactly(e: Event, now: nat)
    ensures ValidAt(e, now) <==>
            Sound(e) && (forall t | t in Beginnings(e) :: t <= now) && (forall t | t in Ends(e) :: now <= t)
  {
    if e.content.EntryContent? {
      var c := e.content;
      assert {e.createdAt, c.observedBucket, c.validUntil - 31 * 86400} <= Beginnings(e) && c.validUntil in Ends(e);
      if c.assertion.Some? {
        assert c.assertion.value.notBefore in Beginnings(e) && c.assertion.value.validUntil in Ends(e);
      }
    } else {
      assert e.createdAt in Beginnings(e) && e.content.window.notBefore in Beginnings(e);
      assert e.content.window.validUntil in Ends(e);
    }
  }

  /** So it is current at every clock between two at which it is. */
  lemma CurrentBetween(e: Event, from: nat, now: nat, to: nat)
    requires ValidAt(e, from) && ValidAt(e, to) && from <= now <= to
    ensures ValidAt(e, now)
  {
    CurrentExactly(e, from);
    CurrentExactly(e, now);
    CurrentExactly(e, to);
  }
}
