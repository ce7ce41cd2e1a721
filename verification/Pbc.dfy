/** The planner that spreads the items of a batch over rounds, each of them a cuckoo placement into PBC groups. */
module Pbc {
  import opened Wrappers
  import opened Cuckoo

  const MAX_KICKS: nat := 500

  /** An entry of a round: the item and the group it queries. */
  type Entry = (nat, nat)

  ghost function Items(round: seq<Entry>): set<nat> {
    set k | 0 <= k < |round| :: round[k].0
  }

  /** A round queries each group at most once, each item at most once, and each item in a candidate group. */
  ghost predicate RoundOk(itemGroups: seq<seq<nat>>, numGroups: nat, round: seq<Entry>) {
    && round != []
    && (forall k | 0 <= k < |round| ::
        round[k].0 < |itemGroups| && round[k].1 < numGroups && round[k].1 in itemGroups[round[k].0])
    && (forall j, k | 0 <= j < k < |round| :: round[j].1 < round[k].1 && round[j].0 != round[k].0)
  }

  ghost predicate InSomeRound(rounds: seq<seq<Entry>>, i: nat) {
    exists r | 0 <= r < |rounds| :: i in Items(rounds[r])
  }

  ghost predicate Increasing(s: seq<nat>) {
    forall i, j | 0 <= i < j < |s| :: s[i] < s[j]
  }

  ghost function Elements(s: seq<nat>): set<nat> {
    set i | 0 <= i < |s| :: s[i]
  }

  function Without(s: seq<nat>, drop: set<nat>): (r: seq<nat>)
    ensures forall x :: x in r <==> x in s && x !in drop
    ensures |r| <= |s|
  {
    if s == [] then [] else (if s[0] in drop then [] else [s[0]]) + Without(s[1..], drop)
  }

  lemma {:induction false} WithoutIncreasing(s: seq<nat>, drop: set<nat>)
    requires Increasing(s)
    ensures Increasing(Without(s, drop))
  {
    if s != [] {
      WithoutIncreasing(s[1..], drop);
      var rest := Without(s[1..], drop);
      forall k | 0 <= k < |rest| ensures s[0] < rest[k] {
        assert rest[k] in s[1..];
        var j :| 0 <= j < |s| - 1 && s[1..][j] == rest[k];
      }
    }
  }

  // ----- placing the items of one round

  /** Who owns which group, and which items were placed, in order. */
  datatype Tally = Tally(owner: seq<Slot>, placed: seq<nat>)

  /** A turn of the item: it is placed, or left out. Once as many are placed as there are groups, there are no turns. */
  ghost function Next(cands: seq<seq<nat>>, n: nat, kicks: nat, li: nat, t: Tally): Tally {
    if |t.placed| >= |t.owner| || !Unplaced(cands, n, t.owner, li) then t
    else
      match Placed(cands, n, t.owner, li, kicks)
      case None => t
      case Some(g) => Tally(g, t.placed + [li])
  }

  /** The tally after the first `li` items had their turn. */
  ghost function Placing(cands: seq<seq<nat>>, numGroups: nat, n: nat, kicks: nat, li: nat): Tally {
    if li == 0 then Tally(seq(numGroups, _ => None), [])
    else Next(cands, n, kicks, li - 1, Placing(cands, numGroups, n, kicks, li - 1))
  }

  ghost predicate Tallied(cands: seq<seq<nat>>, numGroups: nat, li: nat, t: Tally) {
    && |t.owner| == numGroups && Placement(cands, t.owner) && Owners(t.owner) == Elements(t.placed)
    && forall x | x in t.placed :: x < li
  }

  /** Every item that gets a turn is without a group then. */
  lemma UnplacedYet(cands: seq<seq<nat>>, numGroups: nat, n: nat, li: nat, t: Tally)
    requires InRange(cands, numGroups, n) && li < |cands| && Tallied(cands, numGroups, li, t)
    ensures Unplaced(cands, n, t.owner, li)
  {
    assert li !in Elements(t.placed) by { assert li !in t.placed; }
  }

  lemma NextTallied(cands: seq<seq<nat>>, numGroups: nat, n: nat, kicks: nat, li: nat, t: Tally)
    requires Tallied(cands, numGroups, li, t)
    ensures Tallied(cands, numGroups, li + 1, Next(cands, n, kicks, li, t))
    ensures t.placed <= Next(cands, n, kicks, li, t).placed
  {
    if Unplaced(cands, n, t.owner, li) && Placed(cands, n, t.owner, li, kicks).Some? {
      PlacedAdds(cands, n, t.owner, li, kicks);
      ElementsAppend(t.placed, li);
    }
  }

  lemma {:induction false} PlacingTallied(cands: seq<seq<nat>>, numGroups: nat, n: nat, kicks: nat, li: nat)
    ensures Tallied(cands, numGroups, li, Placing(cands, numGroups, n, kicks, li))
  {
    if li == 0 {
      assert Owners(seq(numGroups, _ => None)) == {};
    } else {
      PlacingTallied(cands, numGroups, n, kicks, li - 1);
      NextTallied(cands, numGroups, n, kicks, li - 1, Placing(cands, numGroups, n, kicks, li - 1));
    }
  }

  /** The first item finds every group free, and stays placed. */
  lemma {:induction false} FirstIsPlaced(cands: seq<seq<nat>>, numGroups: nat, n: nat, kicks: nat, li: nat)
    requires InRange(cands, numGroups, n) && 0 < li <= |cands|
    ensures 0 in Placing(cands, numGroups, n, kicks, li).placed
  {
    var t := Placing(cands, numGroups, n, kicks, li - 1);
    PlacingTallied(cands, numGroups, n, kicks, li - 1);
    if li == 1 {
      FirstTurn(cands, numGroups, n, kicks, t);
    } else {
      FirstIsPlaced(cands, numGroups, n, kicks, li - 1);
      NextTallied(cands, numGroups, n, kicks, li - 1, t);
    }
  }

  lemma FirstTurn(cands: seq<seq<nat>>, numGroups: nat, n: nat, kicks: nat, t: Tally)
    requires InRange(cands, numGroups, n) && cands != [] && t == Tally(seq(numGroups, _ => None), [])
    requires Tallied(cands, numGroups, 0, t)
    ensures 0 in Next(cands, n, kicks, 0, t).placed
  {
    UnplacedYet(cands, numGroups, n, 0, t);
    CandidatesInRange(cands, n, t.owner, 0);
    assert cands[0][0] < numGroups && t.owner[cands[0][0]].None?;
  }

  /** A full round stays as it is. */
  lemma {:induction false} FullStays(cands: seq<seq<nat>>, numGroups: nat, n: nat, kicks: nat, li: nat, later: nat)
    requires li <= later
    requires var t := Placing(cands, numGroups, n, kicks, li); |t.placed| >= |t.owner|
    ensures Placing(cands, numGroups, n, kicks, later) == Placing(cands, numGroups, n, kicks, li)
    decreases later
  {
    if li < later {
      FullStays(cands, numGroups, n, kicks, li, later - 1);
    }
  }

  /** The placement loop of one round, over the local indices of `remaining`. */
  method PlaceRound(candGroups: seq<seq<nat>>, numGroups: nat, numHashes: nat, maxKicks: nat)
    returns (owner: seq<Slot>, placed: seq<nat>)
    requires InRange(candGroups, numGroups, numHashes)
    ensures Tally(owner, placed) == Placing(candGroups, numGroups, numHashes, maxKicks, |candGroups|)
  {
    var groupOwner := new Slot[numGroups](_ => None);
    placed := [];
    assert groupOwner[..] == seq(numGroups, _ => None);
    for li := 0 to |candGroups|
      invariant fresh(groupOwner) && groupOwner.Length == numGroups
      invariant Tally(groupOwner[..], placed) == Placing(candGroups, numGroups, numHashes, maxKicks, li)
    {
      if |placed| >= numGroups {
        FullStays(candGroups, numGroups, numHashes, maxKicks, li, |candGroups|);
        return groupOwner[..], placed;
      }
      PlacingTallied(candGroups, numGroups, numHashes, maxKicks, li);
      UnplacedYet(candGroups, numGroups, numHashes, li, Tally(groupOwner[..], placed));
      placed := PlaceOne(candGroups, groupOwner, placed, li, numHashes, maxKicks);
    }
    owner := groupOwner[..];
  }

  /** Place the item, or put the groups back as they were. */
  method PlaceOne(candGroups: seq<seq<nat>>, groupOwner: array<Slot>, before: seq<nat>, li: nat, numHashes: nat,
                  maxKicks: nat)
    returns (placed: seq<nat>)
    requires Unplaced(candGroups, numHashes, groupOwner[..], li) && |before| < groupOwner.Length
    modifies groupOwner
    ensures Tally(groupOwner[..], placed)
            == Next(candGroups, numHashes, maxKicks, li, Tally(old(groupOwner[..]), before))
  {
    var saved := groupOwner[..];
    var ok := CuckooPlace(candGroups, groupOwner, li, maxKicks, numHashes);
    if ok {
      return before + [li];
    }
    for b := 0 to groupOwner.Length
      invariant forall k | 0 <= k < b :: groupOwner[k] == saved[k]
    {
      groupOwner[b] := saved[b];
    }
    assert groupOwner[..] == saved;
    return before;
  }

  lemma ElementsAppend(s: seq<nat>, x: nat)
    ensures Elements(s + [x]) == Elements(s) + {x}
  {
    var t := s + [x];
    assert t[|s|] == x;
    forall y | y in Elements(s) ensures y in Elements(t) {
      var i :| 0 <= i < |s| && s[i] == y;
      assert t[i] == y;
    }
  }

  ghost predicate Lists(round: seq<Entry>, group: nat) {
    exists k | 0 <= k < |round| :: round[k].1 == group
  }

  lemma ListsMore(round: seq<Entry>, e: Entry)
    ensures Lists(round + [e], e.1)
    ensures forall c | Lists(round, c) :: Lists(round + [e], c)
  {
    var more := round + [e];
    assert more[|round|].1 == e.1;
    forall c | Lists(round, c) ensures Lists(more, c) {
      var k :| 0 <= k < |round| && round[k].1 == c;
      assert more[k].1 == c;
    }
  }

  /** The entries so far are the occupied groups below `b`, in order. */
  ghost predicate ReadUpTo(owner: seq<Slot>, remaining: seq<nat>, round: seq<Entry>, b: nat) {
    && (forall k | 0 <= k < |round| :: round[k].1 < b && round[k].1 < |owner| && owner[round[k].1].Some?
                                       && owner[round[k].1].value < |remaining|
                                       && round[k].0 == remaining[owner[round[k].1].value])
    && (forall j, k | 0 <= j < k < |round| :: round[j].1 < round[k].1)
    && (forall c: nat | c < b && c < |owner| && owner[c].Some? :: Lists(round, c))
  }

  /** The owner table read in group order, as entries over the original items. */
  method RoundEntries(owner: seq<Slot>, remaining: seq<nat>) returns (round: seq<Entry>)
    requires forall b | 0 <= b < |owner| && owner[b].Some? :: owner[b].value < |remaining|
    ensures ReadUpTo(owner, remaining, round, |owner|)
  {
    round := [];
    for b := 0 to |owner|
      invariant ReadUpTo(owner, remaining, round, b)
    {
      if owner[b].Some? {
        ListsMore(round, (remaining[owner[b].value], b));
        round := round + [(remaining[owner[b].value], b)];
      }
    }
  }

  lemma EntriesDistinct(owner: seq<Slot>, remaining: seq<nat>, round: seq<Entry>, candGroups: seq<seq<nat>>)
    requires ReadUpTo(owner, remaining, round, |owner|) && Placement(candGroups, owner) && Increasing(remaining)
    ensures forall j, k | 0 <= j < k < |round| :: round[j].0 != round[k].0
  {
    forall j, k | 0 <= j < k < |round| ensures round[j].0 != round[k].0 {
      assert owner[round[j].1] != owner[round[k].1];
    }
  }

  lemma EntriesCover(owner: seq<Slot>, remaining: seq<nat>, round: seq<Entry>)
    requires ReadUpTo(owner, remaining, round, |owner|)
    ensures Items(round) == set x | x in Owners(owner) && x < |remaining| :: remaining[x]
  {
    forall i | i in Items(round) ensures exists x | x in Owners(owner) && x < |remaining| :: remaining[x] == i {
      var k :| 0 <= k < |round| && round[k].0 == i;
      assert owner[round[k].1].value in Owners(owner);
    }
    forall x | x in Owners(owner) && x < |remaining| ensures remaining[x] in Items(round) {
      var c :| 0 <= c < |owner| && owner[c].Some? && owner[c].value == x;
      assert Lists(round, c);
      var k :| 0 <= k < |round| && round[k].1 == c;
      assert round[k].0 == remaining[x];
    }
  }

  // ----- the rounds of a batch

  /** The candidate groups of the items that remain. */
  function CandidatesOf(itemGroups: seq<seq<nat>>, remaining: seq<nat>): seq<seq<nat>>
    requires forall k | 0 <= k < |remaining| :: remaining[k] < |itemGroups|
  {
    seq(|remaining|, i requires 0 <= i < |remaining| => itemGroups[remaining[i]])
  }

  /** The round holds what its placement gives, in the order of the groups. */
  ghost predicate IsRound(itemGroups: seq<seq<nat>>, remaining: seq<nat>, numGroups: nat, n: nat, kicks: nat,
                          round: seq<Entry>)
  {
    && (forall k | 0 <= k < |remaining| :: remaining[k] < |itemGroups|)
    && var owner := Placing(CandidatesOf(itemGroups, remaining), numGroups, n, kicks, |remaining|).owner;
       |owner| == numGroups && ReadUpTo(owner, remaining, round, numGroups)
  }

  /** The items of a batch of `m` that are in none of the rounds, in order. */
  ghost function Remaining(m: nat, rounds: seq<seq<Entry>>): seq<nat> {
    if rounds == [] then seq(m, i => i)
    else Without(Remaining(m, rounds[..|rounds| - 1]), Items(rounds[|rounds| - 1]))
  }

  /** Every round is the placement of what the rounds before it left. */
  ghost predicate RoundByRound(itemGroups: seq<seq<nat>>, numGroups: nat, n: nat, kicks: nat, rounds: seq<seq<Entry>>) {
    var last := |rounds| - 1;
    rounds == []
    || (RoundByRound(itemGroups, numGroups, n, kicks, rounds[..last])
        && IsRound(itemGroups, Remaining(|itemGroups|, rounds[..last]), numGroups, n, kicks, rounds[last]))
  }

  lemma OneMoreRound(itemGroups: seq<seq<nat>>, numGroups: nat, n: nat, kicks: nat, rounds: seq<seq<Entry>>,
                     round: seq<Entry>)
    requires RoundByRound(itemGroups, numGroups, n, kicks, rounds)
    requires IsRound(itemGroups, Remaining(|itemGroups|, rounds), numGroups, n, kicks, round)
    ensures RoundByRound(itemGroups, numGroups, n, kicks, rounds + [round])
    ensures Remaining(|itemGroups|, rounds + [round]) == Without(Remaining(|itemGroups|, rounds), Items(round))
  {
    assert (rounds + [round])[..|rounds|] == rounds;
  }

  /** Valid rounds without an item in common, and the items they leave. */
  ghost predicate Planned(itemGroups: seq<seq<nat>>, numGroups: nat, rounds: seq<seq<Entry>>, left: seq<nat>) {
    && Increasing(left) && (forall x | x in left :: x < |itemGroups|)
    && (forall r | 0 <= r < |rounds| :: RoundOk(itemGroups, numGroups, rounds[r]))
    && (forall r, s | 0 <= r < s < |rounds| :: Items(rounds[r]) !! Items(rounds[s]))
    && (forall r, x | 0 <= r < |rounds| && x in left :: x !in Items(rounds[r]))
    && (forall i | 0 <= i < |itemGroups| :: i in left || InSomeRound(rounds, i))
  }

  lemma PlanBegins(itemGroups: seq<seq<nat>>, numGroups: nat)
    ensures Planned(itemGroups, numGroups, [], seq(|itemGroups|, i => i))
  {
    var left: seq<nat> := seq(|itemGroups|, i => i);
    forall i | 0 <= i < |itemGroups| ensures i in left {
      assert left[i] == i;
    }
  }

  lemma PlanGrows(itemGroups: seq<seq<nat>>, numGroups: nat, rounds: seq<seq<Entry>>, left: seq<nat>, round: seq<Entry>)
    requires Planned(itemGroups, numGroups, rounds, left) && RoundOk(itemGroups, numGroups, round)
    requires forall x | x in Items(round) :: x in left
    ensures Planned(itemGroups, numGroups, rounds + [round], Without(left, Items(round)))
  {
    var more, rest := rounds + [round], Without(left, Items(round));
    assert more[|rounds|] == round;
    WithoutIncreasing(left, Items(round));
    forall i | 0 <= i < |itemGroups| && i !in rest ensures InSomeRound(more, i) {
      if i in left {
        assert i in Items(more[|rounds|]);
      } else {
        var r :| 0 <= r < |rounds| && i in Items(rounds[r]);
        assert more[r] == rounds[r];
      }
    }
    forall r, s | 0 <= r < s < |more| ensures Items(more[r]) !! Items(more[s]) {
      if s == |rounds| {
        assert forall x | x in Items(round) :: x !in Items(rounds[r]);
      }
    }
  }

  /**
   Every item is in exactly one round, in one of its candidate groups; no
   round is empty or uses a group twice; the planner never gets stuck. Every
   round is the placement of what the rounds before it left.
   */
  method PlanRounds(itemGroups: seq<seq<nat>>, numGroups: nat, numHashes: nat, maxKicks: nat)
    returns (rounds: seq<seq<Entry>>)
    requires InRange(itemGroups, numGroups, numHashes)
    ensures forall r | 0 <= r < |rounds| :: RoundOk(itemGroups, numGroups, rounds[r])
    ensures forall r, s | 0 <= r < s < |rounds| :: Items(rounds[r]) !! Items(rounds[s])
    ensures forall i | 0 <= i < |itemGroups| :: InSomeRound(rounds, i)
    ensures RoundByRound(itemGroups, numGroups, numHashes, maxKicks, rounds)
  {
    var remaining: seq<nat> := seq(|itemGroups|, i => i);
    rounds := [];
    PlanBegins(itemGroups, numGroups);
    while |remaining| > 0
      invariant Planned(itemGroups, numGroups, rounds, remaining)
      invariant remaining == Remaining(|itemGroups|, rounds)
      invariant RoundByRound(itemGroups, numGroups, numHashes, maxKicks, rounds)
      decreases |remaining|
    {
      assert forall k | 0 <= k < |remaining| :: remaining[k] in remaining;
      var round, rest := OneRound(itemGroups, remaining, numGroups, numHashes, maxKicks);
      PlanGrows(itemGroups, numGroups, rounds, remaining, round);
      OneMoreRound(itemGroups, numGroups, numHashes, maxKicks, rounds, round);
      rounds, remaining := rounds + [round], rest;
    }
  }

  /** One turn of the planner: a non-empty round and what it leaves. */
  method OneRound(itemGroups: seq<seq<nat>>, remaining: seq<nat>, numGroups: nat, numHashes: nat, maxKicks: nat)
    returns (round: seq<Entry>, rest: seq<nat>)
    requires InRange(itemGroups, numGroups, numHashes)
    requires remaining != [] && Increasing(remaining) && forall k | 0 <= k < |remaining| :: remaining[k] < |itemGroups|
    ensures RoundOk(itemGroups, numGroups, round)
    ensures IsRound(itemGroups, remaining, numGroups, numHashes, maxKicks, round)
    ensures rest == Without(remaining, Items(round)) && |rest| < |remaining|
    ensures forall x | x in Items(round) :: x in remaining
  {
    var candGroups := CandidatesOf(itemGroups, remaining);
    var owner, placed := PlaceRound(candGroups, numGroups, numHashes, maxKicks);
    PlacingTallied(candGroups, numGroups, numHashes, maxKicks, |candGroups|);
    FirstIsPlaced(candGroups, numGroups, numHashes, maxKicks, |candGroups|);
    round := RoundEntries(owner, remaining);
    EntriesDistinct(owner, remaining, round, candGroups);
    EntriesCover(owner, remaining, round);
    assert forall x | x in Owners(owner) :: x < |remaining|;
    var placedItems := set li | li in placed && li < |remaining| :: remaining[li];
    assert placedItems == Items(round) by {
      assert forall li :: li in placed <==> li in Elements(placed);
    }
    assert remaining[0] in Items(round);
    rest := Without(remaining, placedItems);
    WithoutShorter(remaining, placedItems);
  }

  lemma WithoutShorter(s: seq<nat>, drop: set<nat>)
    requires s != [] && s[0] in drop
    ensures |Without(s, drop)| < |s|
  {
  }

  // ----- who has to wait for a later round

  /** At its turn the round is full, or the item finds no place by as many evictions as are allowed. */
  ghost predicate NoPlace(cands: seq<seq<nat>>, n: nat, kicks: nat, li: nat, t: Tally)
    requires li < |cands| && cands[li] != []
  {
    || |t.placed| >= |t.owner|
    || (NoneFree(cands, t.owner, li) && AllVain(cands, 0, Homeless(t.owner, li, cands[li][0]), kicks))
  }

  lemma TurnPlaces(cands: seq<seq<nat>>, numGroups: nat, n: nat, kicks: nat, li: nat, t: Tally)
    requires InRange(cands, numGroups, n) && li < |cands| && Tallied(cands, numGroups, li, t)
    ensures li in Next(cands, n, kicks, li, t).placed <==> !NoPlace(cands, n, kicks, li, t)
  {
    UnplacedYet(cands, numGroups, n, li, t);
    NoPlaceExactly(cands, n, t.owner, li, kicks);
    assert li !in t.placed;
  }

  lemma {:induction false} DecidedAtTurn(cands: seq<seq<nat>>, numGroups: nat, n: nat, kicks: nat, li: nat, end: nat)
    requires li < end
    ensures li in Placing(cands, numGroups, n, kicks, end).placed <==>
            li in Placing(cands, numGroups, n, kicks, li + 1).placed
    decreases end
  {
    if li + 1 < end {
      DecidedAtTurn(cands, numGroups, n, kicks, li, end - 1);
    }
  }

  /**
   An item waits for a later round exactly if, at its turn, the round is full
   or its candidates are all owned and every eviction allowed is in vain.
   */
  lemma WaitsExactly(itemGroups: seq<seq<nat>>, remaining: seq<nat>, numGroups: nat, n: nat, kicks: nat,
                     round: seq<Entry>, li: nat)
    requires InRange(itemGroups, numGroups, n) && Increasing(remaining) && li < |remaining|
    requires IsRound(itemGroups, remaining, numGroups, n, kicks, round)
    ensures var cands := CandidatesOf(itemGroups, remaining);
            && |cands[li]| == n
            && (remaining[li] !in Items(round) <==>
                NoPlace(cands, n, kicks, li, Placing(cands, numGroups, n, kicks, li)))
  {
    var cands := CandidatesOf(itemGroups, remaining);
    var t := Placing(cands, numGroups, n, kicks, |remaining|);
    PlacingTallied(cands, numGroups, n, kicks, li);
    PlacingTallied(cands, numGroups, n, kicks, |remaining|);
    EntriesCover(t.owner, remaining, round);
    TurnPlaces(cands, numGroups, n, kicks, li, Placing(cands, numGroups, n, kicks, li));
    DecidedAtTurn(cands, numGroups, n, kicks, li, |remaining|);
    InRound(remaining, t, round, li);
  }

  lemma InRound(remaining: seq<nat>, t: Tally, round: seq<Entry>, li: nat)
    requires Increasing(remaining) && li < |remaining| && Owners(t.owner) == Elements(t.placed)
    requires Items(round) == set x | x in Owners(t.owner) && x < |remaining| :: remaining[x]
    ensures remaining[li] in Items(round) <==> li in t.placed
  {
    if remaining[li] in Items(round) {
      var x :| x in Owners(t.owner) && x < |remaining| && remaining[x] == remaining[li];
      assert x == li;
    }
    if li in t.placed {
      assert li in Elements(t.placed);
    }
  }
}
