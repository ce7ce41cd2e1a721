/** The relay's admission control: the per-second rate window and the lane and global permits. */
module RelayGates {

  /** One second in the clock's nanoseconds. */
  const SECOND: nat := 1_000_000_000
  const U32_MAX: nat := 0xffff_ffff

  /**
   `now` is the clock at the elapsed test, `later` the clock read when the
   window restarts; `locked` is false when the lock is poisoned.
   */
  datatype Call = Call(now: nat, later: nat, cost: nat, locked: bool)

  datatype Window = Window(started: nat, count: nat)

  function Expired(w: Window, c: Call): bool { c.now >= w.started + SECOND }

  /** The window after the elapsed test. */
  function Current(w: Window, c: Call): Window {
    if Expired(w, c) then Window(c.later, 0) else w
  }

  predicate Admits(w: Window, limit: nat, c: Call) {
    c.cost == 0 || (c.locked && Current(w, c).count + c.cost <= limit)
  }

  function After(w: Window, limit: nat, c: Call): Window {
    if c.cost == 0 || !c.locked then w
    else if Admits(w, limit, c) then Current(w, c).(count := Current(w, c).count + c.cost)
    else Current(w, c)
  }

  class RateGate {
    const limit: nat
    var started: nat
    var count: nat

    constructor (limit: nat, now: nat)
      ensures this.limit == limit && started == now && count == 0
    {
      this.limit, started, count := limit, now, 0;
    }

    /** The limit is a `u32`, so a sum that overflows `u32` is over the limit too. */
    method Admit(c: Call) returns (ok: bool)
      requires limit <= U32_MAX
      modifies this
      ensures ok <==> Admits(Window(old(started), old(count)), limit, c)
      ensures Window(started, count) == After(Window(old(started), old(count)), limit, c)
    {
      if c.cost == 0 {
        return true;
      }
      if !c.locked {
        return false;
      }
      if c.now >= started + SECOND {
        started, count := c.later, 0;
      }
      var next := count + c.cost;
      if next > U32_MAX || next > limit {
        return false;
      }
      count := next;
      return true;
    }
  }

  /** Calls take the lock one after the other. */
  ghost predicate Ordered(calls: seq<Call>) {
    && (forall i | 0 <= i < |calls| :: calls[i].now <= calls[i].later)
    && (forall i, j | 0 <= i < j < |calls| :: calls[i].later <= calls[j].now)
  }

  /** Cost admitted by calls whose clock lies in `[lo, hi)`. */
  function AdmittedIn(w: Window, limit: nat, calls: seq<Call>, lo: nat, hi: nat): nat
    decreases calls
  {
    if calls == [] then 0
    else
      var c := calls[0];
      (if Admits(w, limit, c) && lo <= c.now < hi then c.cost else 0)
      + AdmittedIn(After(w, limit, c), limit, calls[1..], lo, hi)
  }

  /** Restarts that fit before `hi` when the next one cannot come before `earliest`. */
  function Restarts(earliest: nat, hi: nat): nat {
    if earliest >= hi then 0 else (hi - earliest + SECOND - 1) / SECOND
  }

  function Earliest(w: Window, lo: nat): nat {
    if w.started + SECOND > lo then w.started + SECOND else lo
  }

  /** What can still be admitted before `hi`. */
  function Budget(w: Window, limit: nat, lo: nat, hi: nat): int {
    limit - w.count + limit * Restarts(Earliest(w, lo), hi)
  }

  /** A call pays for what it is admitted out of the budget. */
  lemma CallInBudget(w: Window, limit: nat, c: Call, lo: nat, hi: nat)
    requires w.count <= limit && lo <= c.now <= c.later && c.now < hi
    ensures After(w, limit, c).count <= limit
    ensures Budget(After(w, limit, c), limit, lo, hi) + (if Admits(w, limit, c) then c.cost else 0)
            <= Budget(w, limit, lo, hi)
  {
    if c.cost != 0 && c.locked && Expired(w, c) {
      var w' := After(w, limit, c);
      OneRestart(w.started, lo, c.now, c.later, hi);
      Monotone(limit, Restarts(Earliest(w', lo), hi), Restarts(Earliest(w, lo), hi) - 1);
    }
  }

  lemma OneRestart(started: nat, lo: nat, now: nat, later: nat, hi: nat)
    requires lo <= now <= later && now < hi && now >= started + SECOND
    ensures Restarts(Earliest(Window(later, 0), lo), hi) <= Restarts(Earliest(Window(started, 0), lo), hi) - 1
  {
  }

  lemma {:induction false} WindowBudget(w: Window, limit: nat, calls: seq<Call>, lo: nat, hi: nat)
    requires w.count <= limit && Ordered(calls)
    requires forall i | 0 <= i < |calls| :: lo <= calls[i].now
    ensures AdmittedIn(w, limit, calls, lo, hi) <= Budget(w, limit, lo, hi)
    decreases calls
  {
    if calls == [] || calls[0].now >= hi {
      NothingAfter(w, limit, calls, lo, hi);
      MulNonNegative(limit, Restarts(Earliest(w, lo), hi));
    } else {
      CallInBudget(w, limit, calls[0], lo, hi);
      WindowBudget(After(w, limit, calls[0]), limit, calls[1..], lo, hi);
    }
  }

  lemma MulNonNegative(a: nat, b: nat)
    ensures a * b >= 0
  {
  }

  lemma Monotone(limit: nat, a: nat, b: int)
    requires a <= b
    ensures limit * a + limit <= limit * (b + 1)
  {
    assert limit * (b + 1 - (a + 1)) >= 0;
    assert limit * (b + 1) == limit * (a + 1) + limit * (b + 1 - (a + 1));
  }

  lemma {:induction false} NothingAfter(w: Window, limit: nat, calls: seq<Call>, lo: nat, hi: nat)
    requires forall i | 0 <= i < |calls| :: calls[i].now >= hi
    ensures AdmittedIn(w, limit, calls, lo, hi) == 0
    decreases calls
  {
    if calls != [] {
      NothingAfter(After(w, limit, calls[0]), limit, calls[1..], lo, hi);
    }
  }

  /** Over every run, any interval of `n` seconds admits at most `(n + 1) * limit`. */
  lemma {:induction false} RateBound(w: Window, limit: nat, calls: seq<Call>, lo: nat, n: nat)
    requires w.count <= limit && Ordered(calls)
    ensures AdmittedIn(w, limit, calls, lo, lo + n * SECOND) <= (n + 1) * limit
    decreases calls
  {
    if calls == [] {
      assert (n + 1) * limit >= 0;
    } else if calls[0].now < lo {
      RateBound(After(w, limit, calls[0]), limit, calls[1..], lo, n);
    } else {
      assert forall i | 0 < i < |calls| :: lo <= calls[0].now <= calls[0].later <= calls[i].now;
      WindowBudget(w, limit, calls, lo, lo + n * SECOND);
      Monotone(limit, Restarts(Earliest(w, lo), lo + n * SECOND), n);
    }
  }

  // ----- what the gate does not refuse

  /** The window after the first `n` calls. */
  function WindowAt(w: Window, limit: nat, calls: seq<Call>, n: nat): Window
    requires n <= |calls|
  {
    if n == 0 then w else After(WindowAt(w, limit, calls, n - 1), limit, calls[n - 1])
  }

  /** The answer to the `j`-th call of a run. */
  predicate AdmittedAt(w: Window, limit: nat, calls: seq<Call>, j: nat)
    requires j < |calls|
  {
    Admits(WindowAt(w, limit, calls, j), limit, calls[j])
  }

  /** Cost admitted by the calls from `i` up to `j`. */
  function Spent(w: Window, limit: nat, calls: seq<Call>, i: nat, j: nat): nat
    requires i <= j <= |calls|
  {
    if i == j then 0
    else Spent(w, limit, calls, i, j - 1) + if AdmittedAt(w, limit, calls, j - 1) then calls[j - 1].cost else 0
  }

  lemma {:induction false} WindowTail(w: Window, limit: nat, calls: seq<Call>, n: nat)
    requires 0 < n <= |calls|
    ensures WindowAt(w, limit, calls, n) == WindowAt(After(w, limit, calls[0]), limit, calls[1..], n - 1)
  {
    if n > 1 {
      WindowTail(w, limit, calls, n - 1);
    }
  }

  lemma {:induction false} SpentTail(w: Window, limit: nat, calls: seq<Call>, j: nat)
    requires 0 < j <= |calls|
    ensures Spent(w, limit, calls, 0, j) ==
            (if Admits(w, limit, calls[0]) then calls[0].cost else 0)
            + Spent(After(w, limit, calls[0]), limit, calls[1..], 0, j - 1)
  {
    if j > 1 {
      SpentTail(w, limit, calls, j - 1);
      WindowTail(w, limit, calls, j - 1);
    }
  }

  /** Over an interval that holds all calls, what is admitted is what is spent. */
  lemma {:induction false} AdmittedIsSpent(w: Window, limit: nat, calls: seq<Call>, lo: nat, hi: nat)
    requires forall i | 0 <= i < |calls| :: lo <= calls[i].now < hi
    ensures AdmittedIn(w, limit, calls, lo, hi) == Spent(w, limit, calls, 0, |calls|)
    decreases calls
  {
    if calls != [] {
      AdmittedIsSpent(After(w, limit, calls[0]), limit, calls[1..], lo, hi);
      SpentTail(w, limit, calls, |calls|);
    }
  }

  /** When a window began: with the gate for 0, otherwise at the call before `i`. */
  function Began(start: nat, calls: seq<Call>, i: nat): nat
    requires i <= |calls|
  {
    if i == 0 then start else calls[i - 1].later
  }

  /**
   The window before the `j`-th call of a new gate's run began with the gate
   or at an earlier call, and counts just what was admitted from then on.
   */
  lemma {:induction false} WindowCounts(start: nat, limit: nat, calls: seq<Call>, j: nat) returns (i: nat)
    requires j <= |calls|
    ensures i <= j
    ensures var w := Window(start, 0);
            WindowAt(w, limit, calls, j)
              == Window(Began(start, calls, i), Spent(w, limit, calls, if i == 0 then 0 else i - 1, j))
  {
    var w := Window(start, 0);
    if j == 0 {
      i := 0;
    } else {
      i := WindowCounts(start, limit, calls, j - 1);
      var before, c := WindowAt(w, limit, calls, j - 1), calls[j - 1];
      if c.cost != 0 && c.locked && Expired(before, c) {
        i := j;
        assert Spent(w, limit, calls, j - 1, j - 1) == 0;
      }
    }
  }

  /**
   A call whose lock is sound and whose cost is within the limit is refused
   only if less than a second passed since the gate was made, or since an
   earlier call, and what was admitted from then on leaves no room for it.
   */
  lemma RefusedOnlyWhenFull(start: nat, limit: nat, calls: seq<Call>, j: nat)
    requires j < |calls| && calls[j].locked && calls[j].cost <= limit
    requires !AdmittedAt(Window(start, 0), limit, calls, j)
    ensures exists i: nat | i <= j ::
              && calls[j].now < Began(start, calls, i) + 1_000_000_000
              && Spent(Window(start, 0), limit, calls, if i == 0 then 0 else i - 1, j) + calls[j].cost > limit
  {
    var i := WindowCounts(start, limit, calls, j);
  }

  lemma {:induction false} SpentByCall(w: Window, limit: nat, calls: seq<Call>, i: nat, j: nat) returns (k: nat)
    requires i <= j <= |calls| && Spent(w, limit, calls, i, j) > 0
    ensures i <= k < j && AdmittedAt(w, limit, calls, k) && calls[k].cost > 0
  {
    if AdmittedAt(w, limit, calls, j - 1) && calls[j - 1].cost > 0 {
      k := j - 1;
    } else {
      k := SpentByCall(w, limit, calls, i, j - 1);
    }
  }

  /** So a call is admitted if every earlier one that was charged had returned a second before. */
  lemma AdmittedAfterPause(start: nat, limit: nat, calls: seq<Call>, j: nat)
    requires j < |calls| && calls[j].locked && calls[j].cost <= limit
    requires Ordered(calls) && start <= calls[0].now
    requires forall k | 0 <= k < j && calls[k].cost > 0 && AdmittedAt(Window(start, 0), limit, calls, k) ::
               calls[j].now >= calls[k].later + 1_000_000_000
    ensures AdmittedAt(Window(start, 0), limit, calls, j)
  {
    var w := Window(start, 0);
    if !AdmittedAt(w, limit, calls, j) {
      RefusedOnlyWhenFull(start, limit, calls, j);
      var i: nat :| i <= j && calls[j].now < Began(start, calls, i) + 1_000_000_000
                    && Spent(w, limit, calls, if i == 0 then 0 else i - 1, j) + calls[j].cost > limit;
      var k := SpentByCall(w, limit, calls, if i == 0 then 0 else i - 1, j);
      assert false;
    }
  }

  /** A call of no cost is always admitted, one with a cost never when the lock is poisoned or it exceeds the limit. */
  lemma AdmittedOrNot(w: Window, limit: nat, calls: seq<Call>, j: nat)
    requires j < |calls|
    ensures calls[j].cost == 0 ==> AdmittedAt(w, limit, calls, j)
    ensures calls[j].cost > 0 && (!calls[j].locked || calls[j].cost > limit) ==> !AdmittedAt(w, limit, calls, j)
  {
  }

  // ----- permits

  datatype Lane = Public | Publisher

  /** One lane's free permits and its holders: waiting for the global permit, working with both, giving back. */
  datatype Slots = Slots(free: nat, acquiring: nat, working: nat, closing: nat)

  /**
   `globalFirst` is the order of release: connections drop the global permit
   first (parameters drop in reverse), operations drop the lane permit first
   (tuple fields drop in order).
   */
  datatype Permits = Permits(globalFirst: bool, publicLane: Slots, publisherLane: Slots, freeGlobal: nat)
  {
    function At(l: Lane): Slots { if l == Public then publicLane else publisherLane }

    function With(l: Lane, s: Slots, g: nat): Permits {
      if l == Public then this.(publicLane := s, freeGlobal := g) else this.(publisherLane := s, freeGlobal := g)
    }
  }

  /** `GiveUp` is a wait for the global permit that times out or is refused: it returns the lane permit. */
  datatype Move =
    | TakeLane(lane: Lane)
    | TakeGlobal(lane: Lane)
    | GiveUp(lane: Lane)
    | GiveFirst(lane: Lane)
    | GiveSecond(lane: Lane)

  /** One move; a move that is not possible changes nothing. */
  function Moved(p: Permits, m: Move): Permits {
    var s, g := p.At(m.lane), p.freeGlobal;
    match m
    case TakeLane(l) =>
      if s.free == 0 then p else p.With(l, s.(free := s.free - 1, acquiring := s.acquiring + 1), g)
    case TakeGlobal(l) =>
      if s.acquiring == 0 || g == 0 then p
      else p.With(l, s.(acquiring := s.acquiring - 1, working := s.working + 1), g - 1)
    case GiveUp(l) =>
      if s.acquiring == 0 then p else p.With(l, s.(free := s.free + 1, acquiring := s.acquiring - 1), g)
    case GiveFirst(l) =>
      if s.working == 0 then p
      else if p.globalFirst then p.With(l, s.(working := s.working - 1, closing := s.closing + 1), g + 1)
      else p.With(l, s.(free := s.free + 1, working := s.working - 1, closing := s.closing + 1), g)
    case GiveSecond(l) =>
      if s.closing == 0 then p
      else if p.globalFirst then p.With(l, s.(free := s.free + 1, closing := s.closing - 1), g)
      else p.With(l, s.(closing := s.closing - 1), g + 1)
  }

  function Initial(globalFirst: bool, publicMax: nat, publisherMax: nat): Permits {
    Permits(globalFirst, Slots(publicMax, 0, 0, 0), Slots(publisherMax, 0, 0, 0), publicMax + publisherMax)
  }

  function Moves(p: Permits, moves: seq<Move>): Permits {
    if moves == [] then p else Moved(Moves(p, moves[..|moves| - 1]), moves[|moves| - 1])
  }

  function LanePermits(s: Slots, globalFirst: bool): nat {
    s.free + s.acquiring + s.working + (if globalFirst then s.closing else 0)
  }

  function GlobalHeld(s: Slots, globalFirst: bool): nat {
    s.working + (if globalFirst then 0 else s.closing)
  }

  /** Every permit is either free or held by exactly one holder in the right phase. */
  ghost predicate Conserved(p: Permits, globalFirst: bool, publicMax: nat, publisherMax: nat) {
    && p.globalFirst == globalFirst
    && LanePermits(p.publicLane, globalFirst) == publicMax
    && LanePermits(p.publisherLane, globalFirst) == publisherMax
    && p.freeGlobal + GlobalHeld(p.publicLane, globalFirst) + GlobalHeld(p.publisherLane, globalFirst)
       == publicMax + publisherMax
  }

  lemma MoveConserves(p: Permits, m: Move, globalFirst: bool, publicMax: nat, publisherMax: nat)
    requires Conserved(p, globalFirst, publicMax, publisherMax)
    ensures Conserved(Moved(p, m), globalFirst, publicMax, publisherMax)
  {
    if m.lane == Public {
    } else {
    }
  }

  lemma {:induction false} PermitsConserved(globalFirst: bool, publicMax: nat, publisherMax: nat, moves: seq<Move>)
    ensures Conserved(Moves(Initial(globalFirst, publicMax, publisherMax), moves), globalFirst, publicMax, publisherMax)
  {
    if moves != [] {
      PermitsConserved(globalFirst, publicMax, publisherMax, moves[..|moves| - 1]);
      MoveConserves(Moves(Initial(globalFirst, publicMax, publisherMax), moves[..|moves| - 1]), moves[|moves| - 1],
                    globalFirst, publicMax, publisherMax);
    }
  }

  /**
   With lanes that exactly partition the global maximum and the global
   permit released first, whoever got a lane permit finds a global one.
   */
  lemma LaneHolderGetsGlobal(publicMax: nat, publisherMax: nat, moves: seq<Move>, lane: Lane)
    requires Moves(Initial(true, publicMax, publisherMax), moves).At(lane).acquiring > 0
    ensures Moves(Initial(true, publicMax, publisherMax), moves).freeGlobal > 0
  {
    PermitsConserved(true, publicMax, publisherMax, moves);
  }

  /** Lane permits that nobody works with: free, or held while waiting for a global permit. */
  function Idle(p: Permits): nat {
    p.publicLane.free + p.publicLane.acquiring + p.publisherLane.free + p.publisherLane.acquiring
  }

  /** Holders that have given back their lane permit and not yet their global one. */
  function Closers(p: Permits): nat { p.publicLane.closing + p.publisherLane.closing }

  /**
   With the lane permit released first this fails: there is no global permit
   exactly when as many holders are giving one back as lane permits are idle.
   */
  lemma LaneFirstWaitsExactly(publicMax: nat, publisherMax: nat, moves: seq<Move>)
    ensures var p := Moves(Initial(false, publicMax, publisherMax), moves);
            p.freeGlobal + Closers(p) == Idle(p) && (p.freeGlobal == 0 <==> Closers(p) == Idle(p))
  {
    PermitsConserved(false, publicMax, publisherMax, moves);
  }

  /** So whoever waits is waiting for a holder that is already giving its global permit back. */
  lemma LaneFirstWaitsOnlyForClosers(publicMax: nat, publisherMax: nat, moves: seq<Move>, lane: Lane)
    requires Moves(Initial(false, publicMax, publisherMax), moves).At(lane).acquiring > 0
    ensures var p := Moves(Initial(false, publicMax, publisherMax), moves);
            p.freeGlobal > 0 || Closers(p) > 0
  {
    LaneFirstWaitsExactly(publicMax, publisherMax, moves);
  }

  lemma LaneFirstCanWait()
    ensures exists moves: seq<Move> ::
              var p := Moves(Initial(false, 1, 0), moves); p.publicLane.acquiring > 0 && p.freeGlobal == 0
  {
    var p0 := Initial(false, 1, 0);
    var m1 := [] + [TakeLane(Public)];
    var m2 := m1 + [TakeGlobal(Public)];
    var m3 := m2 + [GiveFirst(Public)];
    var m4 := m3 + [TakeLane(Public)];
    MovesSnoc(p0, [], TakeLane(Public), p0);
    MovesSnoc(p0, m1, TakeGlobal(Public), Permits(false, Slots(0, 1, 0, 0), Slots(0, 0, 0, 0), 1));
    MovesSnoc(p0, m2, GiveFirst(Public), Permits(false, Slots(0, 0, 1, 0), Slots(0, 0, 0, 0), 0));
    MovesSnoc(p0, m3, TakeLane(Public), Permits(false, Slots(1, 0, 0, 1), Slots(0, 0, 0, 0), 0));
    assert Moves(p0, m4).publicLane.acquiring > 0 && Moves(p0, m4).freeGlobal == 0;
  }

  lemma MovesSnoc(p: Permits, moves: seq<Move>, m: Move, q: Permits)
    requires Moves(p, moves) == q
    ensures Moves(p, moves + [m]) == Moved(q, m)
  {
    assert (moves + [m])[..|moves|] == moves;
  }
}
