/** Cuckoo placement of batch items into PBC groups: one item, by evictions, against a chain of owner tables. */
module Cuckoo {
  import opened Wrappers
  import opened Arithmetic

  type Slot = Option<nat>

  /** The items that own some group. */
  ghost function Owners(g: seq<Slot>): set<nat> {
    set b | 0 <= b < |g| && g[b].Some? :: g[b].value
  }

  /** Every candidate list has `numHashes` groups below `numGroups`. */
  predicate InRange(cands: seq<seq<nat>>, numGroups: nat, numHashes: nat) {
    && numHashes > 0
    && (forall i | 0 <= i < |cands| :: |cands[i]| == numHashes)
    && (forall i, h | 0 <= i < |cands| && 0 <= h < |cands[i]| :: cands[i][h] < numGroups)
  }

  /** Every owner sits in one of its own candidate groups, and in one only. */
  ghost predicate Placement(cands: seq<seq<nat>>, g: seq<Slot>) {
    && (forall b | 0 <= b < |g| && g[b].Some? :: g[b].value < |cands| && b in cands[g[b].value])
    && (forall b, c | 0 <= b < c < |g| && g[b].Some? :: g[b] != g[c])
  }

  /** Filling a free candidate group adds exactly the new owner. */
  lemma FillFree(cands: seq<seq<nat>>, g: seq<Slot>, c: nat, i: nat)
    requires Placement(cands, g) && c < |g| && g[c].None?
    requires i < |cands| && c in cands[i] && i !in Owners(g)
    ensures Placement(cands, g[c := Some(i)]) && Owners(g[c := Some(i)]) == Owners(g) + {i}
  {
    var g' := g[c := Some(i)];
    assert g'[c] == Some(i);
    forall x | x in Owners(g) ensures x in Owners(g') {
      var b :| 0 <= b < |g| && g[b].Some? && g[b].value == x;
      assert g'[b] == g[b];
    }
    forall x | x in Owners(g') ensures x in Owners(g) + {i} {
      var b :| 0 <= b < |g'| && g'[b].Some? && g'[b].value == x;
      if b != c { assert g[b] == g'[b]; }
    }
    forall b | 0 <= b < |g| && g[b].Some? ensures g[b].value != i {
      assert g[b].value in Owners(g);
    }
  }

  /** Evicting swaps one owner for another. */
  lemma Evict(cands: seq<seq<nat>>, g: seq<Slot>, c: nat, i: nat)
    requires Placement(cands, g) && c < |g| && g[c].Some?
    requires i < |cands| && c in cands[i] && i !in Owners(g)
    ensures Placement(cands, g[c := Some(i)])
    ensures Owners(g[c := Some(i)]) == Owners(g) - {g[c].value} + {i}
    ensures g[c].value !in Owners(g[c := Some(i)]) && g[c].value in Owners(g)
  {
    var freed := g[c := None];
    assert g[c].value in Owners(g);
    forall x | x in Owners(g) - {g[c].value} ensures x in Owners(freed) {
      var b :| 0 <= b < |g| && g[b].Some? && g[b].value == x;
      assert freed[b] == g[b];
    }
    forall x | x in Owners(freed) ensures x in Owners(g) - {g[c].value} {
      var b :| 0 <= b < |freed| && freed[b].Some? && freed[b].value == x;
      assert g[b] == freed[b] && b != c;
    }
    FillFree(cands, freed, c, i);
    assert freed[c := Some(i)] == g[c := Some(i)];
  }

  // ----- the order of probing

  /** The candidates from the one the kick begins with, then those before it. */
  function Rotated(cs: seq<nat>, kick: nat): (r: seq<nat>)
    requires cs != []
    ensures |r| == |cs| && forall c :: c in r <==> c in cs
  {
    var k := kick % |cs|;
    assert cs == cs[..k] + cs[k..];
    cs[k..] + cs[..k]
  }

  /** The candidate index probed at an offset of a kick. */
  function Probe(kick: nat, offset: nat, n: nat): (k: nat)
    requires n > 0
    ensures k < n
  {
    (kick + offset) % n
  }

  lemma RotatedAt(cs: seq<nat>, kick: nat, offset: nat)
    requires offset < |cs|
    ensures Rotated(cs, kick)[offset] == cs[Probe(kick, offset, |cs|)]
  {
    var n := |cs|;
    var q, k := kick / n, kick % n;
    assert kick == q * n + k;
    if k + offset < n {
      DivModUnique(kick + offset, n, q, k + offset);
    } else {
      Distribute(q, 1, n);
      DivModUnique(kick + offset, n, q + 1, k + offset - n);
    }
  }

  /** The first group of the list that nobody owns. */
  function FirstFree(cs: seq<nat>, g: seq<Slot>): (r: Option<nat>)
    requires forall k | 0 <= k < |cs| :: cs[k] < |g|
    ensures r.None? <==> forall k | 0 <= k < |cs| :: g[cs[k]].Some?
    ensures r.Some? ==> r.value in cs && r.value < |g| && g[r.value].None?
  {
    if cs == [] then None else if g[cs[0]].None? then Some(cs[0]) else FirstFree(cs[1..], g)
  }

  lemma {:induction false} FirstFreeIs(cs: seq<nat>, g: seq<Slot>, k: nat)
    requires forall i | 0 <= i < |cs| :: cs[i] < |g|
    requires k < |cs| && g[cs[k]].None? && forall i | 0 <= i < k :: g[cs[i]].Some?
    ensures FirstFree(cs, g) == Some(cs[k])
  {
    if k > 0 {
      FirstFreeIs(cs[1..], g, k - 1);
    }
  }

  /** The first group of the list other than `group`. */
  function FirstOther(cs: seq<nat>, group: nat): (r: Option<nat>)
    ensures r.None? <==> forall k | 0 <= k < |cs| :: cs[k] == group
    ensures r.Some? ==> r.value in cs && r.value != group
  {
    if cs == [] then None else if cs[0] != group then Some(cs[0]) else FirstOther(cs[1..], group)
  }

  lemma {:induction false} FirstOtherIs(cs: seq<nat>, group: nat, k: nat)
    requires k < |cs| && cs[k] != group && forall i | 0 <= i < k :: cs[i] == group
    ensures FirstOther(cs, group) == Some(cs[k])
  {
    if k > 0 {
      FirstOtherIs(cs[1..], group, k - 1);
    }
  }

  // ----- evictions

  /** The owners, an item without a group, and the group it will take from its owner. */
  datatype Homeless = Homeless(groups: seq<Slot>, item: nat, group: nat)

  ghost predicate Waiting(cands: seq<seq<nat>>, n: nat, h: Homeless) {
    && InRange(cands, |h.groups|, n) && Placement(cands, h.groups)
    && h.item < |cands| && h.item !in Owners(h.groups)
    && h.group in cands[h.item] && h.group < |h.groups| && h.groups[h.group].Some?
  }

  /** The owners once it has taken it. */
  function Taken(h: Homeless): seq<Slot>
    requires h.group < |h.groups|
  {
    h.groups[h.group := Some(h.item)]
  }

  /** The group that the evicted item goes for when none of its candidates is free. */
  function NextGroup(cs: seq<nat>, kick: nat, group: nat): (r: nat)
    requires cs != []
    ensures r in cs
  {
    var other := FirstOther(Rotated(cs, kick), group);
    if other.Some? then other.value else cs[0]
  }

  /** The next item without a group. */
  function Evicted(cands: seq<seq<nat>>, kick: nat, h: Homeless): Homeless
    requires h.group < |h.groups| && h.groups[h.group].Some?
    requires h.groups[h.group].value < |cands| && cands[h.groups[h.group].value] != []
  {
    var item := h.groups[h.group].value;
    Homeless(Taken(h), item, NextGroup(cands[item], kick, h.group))
  }

  lemma StillWaiting(cands: seq<seq<nat>>, n: nat, kick: nat, h: Homeless)
    requires Waiting(cands, n, h)
    ensures var h' := Evicted(cands, kick, h);
            && h'.item < |cands| && |cands[h'.item]| == n && h'.item !in Owners(h'.groups)
            && Placement(cands, h'.groups) && InRange(cands, |h'.groups|, n)
            && Owners(h'.groups) + {h'.item} == Owners(h.groups) + {h.item}
            && (forall k | 0 <= k < n :: Rotated(cands[h'.item], kick)[k] < |h'.groups|)
            && (FirstFree(Rotated(cands[h'.item], kick), h'.groups).None? ==> Waiting(cands, n, h'))
  {
    var item := h.groups[h.group].value;
    Evict(cands, h.groups, h.group, h.item);
    var cs := Rotated(cands[item], kick);
    forall k | 0 <= k < n ensures cs[k] < |h.groups| {
      assert cs[k] in cands[item];
      var i :| 0 <= i < n && cands[item][i] == cs[k];
    }
    var h' := Evicted(cands, kick, h);
    if FirstFree(cs, h'.groups).None? {
      assert h'.group in cs;
    }
  }

  /** The owners when the evictions end, `None` if `left` of them find no free group. */
  ghost function Kicks(cands: seq<seq<nat>>, n: nat, h: Homeless, kick: nat, left: nat): Option<seq<Slot>>
    requires Waiting(cands, n, h)
    decreases left
  {
    if left == 0 then None
    else
      StillWaiting(cands, n, kick, h);
      var h' := Evicted(cands, kick, h);
      var free := FirstFree(Rotated(cands[h'.item], kick), h'.groups);
      if free.Some? then Some(h'.groups[free.value := Some(h'.item)]) else Kicks(cands, n, h', kick + 1, left - 1)
  }

  ghost predicate Unplaced(cands: seq<seq<nat>>, n: nat, g: seq<Slot>, item: nat) {
    InRange(cands, |g|, n) && Placement(cands, g) && item < |cands| && item !in Owners(g)
  }

  lemma CandidatesInRange(cands: seq<seq<nat>>, n: nat, g: seq<Slot>, item: nat)
    requires Unplaced(cands, n, g, item)
    ensures forall k | 0 <= k < |cands[item]| :: cands[item][k] < |g|
    ensures FirstFree(cands[item], g).None? ==> Waiting(cands, n, Homeless(g, item, cands[item][0]))
  {
  }

  /** The owners after placing an item, `None` if there is no place for it. */
  ghost function Placed(cands: seq<seq<nat>>, n: nat, g: seq<Slot>, item: nat, maxKicks: nat): Option<seq<Slot>>
    requires Unplaced(cands, n, g, item)
  {
    CandidatesInRange(cands, n, g, item);
    var free := FirstFree(cands[item], g);
    if free.Some? then Some(g[free.value := Some(item)])
    else Kicks(cands, n, Homeless(g, item, cands[item][0]), 0, maxKicks)
  }

  lemma {:induction false} KicksPlace(cands: seq<seq<nat>>, n: nat, h: Homeless, kick: nat, left: nat)
    requires Waiting(cands, n, h) && Kicks(cands, n, h, kick, left).Some?
    ensures var g := Kicks(cands, n, h, kick, left).value;
            |g| == |h.groups| && Placement(cands, g) && Owners(g) == Owners(h.groups) + {h.item}
    decreases left
  {
    StillWaiting(cands, n, kick, h);
    var h' := Evicted(cands, kick, h);
    var free := FirstFree(Rotated(cands[h'.item], kick), h'.groups);
    if free.Some? {
      FillFree(cands, h'.groups, free.value, h'.item);
    } else {
      KicksPlace(cands, n, h', kick + 1, left - 1);
    }
  }

  /** Placing adds exactly the item, and every owner is still in a candidate group of its own, and in one only. */
  lemma PlacedAdds(cands: seq<seq<nat>>, n: nat, g: seq<Slot>, item: nat, maxKicks: nat)
    requires Unplaced(cands, n, g, item) && Placed(cands, n, g, item, maxKicks).Some?
    ensures var g' := Placed(cands, n, g, item, maxKicks).value;
            |g'| == |g| && Placement(cands, g') && Owners(g') == Owners(g) + {item}
  {
    CandidatesInRange(cands, n, g, item);
    var free := FirstFree(cands[item], g);
    if free.Some? {
      FillFree(cands, g, free.value, item);
    } else {
      KicksPlace(cands, n, Homeless(g, item, cands[item][0]), 0, maxKicks);
    }
  }

  // ----- the method

  method CuckooPlace(candGroups: seq<seq<nat>>, groups: array<Slot>, qi: nat, maxKicks: nat, numHashes: nat)
    returns (ok: bool)
    requires Unplaced(candGroups, numHashes, groups[..], qi)
    modifies groups
    ensures var placed := Placed(candGroups, numHashes, old(groups[..]), qi, maxKicks);
            ok == placed.Some? && (ok ==> groups[..] == placed.value)
  {
    CandidatesInRange(candGroups, numHashes, groups[..], qi);
    ok := TakeFree(candGroups[qi], groups, qi);
    if !ok {
      ghost var all := Placed(candGroups, numHashes, groups[..], qi, maxKicks);
      PromisedIs(candGroups, numHashes, Homeless(groups[..], qi, candGroups[qi][0]), 0, maxKicks, all, 2);
      ok := EvictionLoop(candGroups, groups, qi, maxKicks, numHashes, all, 2);
    }
  }

  method TakeFree(cands: seq<nat>, groups: array<Slot>, qi: nat) returns (ok: bool)
    requires forall k | 0 <= k < |cands| :: cands[k] < groups.Length
    modifies groups
    ensures var free := FirstFree(cands, old(groups[..]));
            ok == free.Some? && groups[..] == if ok then old(groups[..])[free.value := Some(qi)] else old(groups[..])
  {
    ghost var before := groups[..];
    for h := 0 to |cands|
      invariant groups[..] == before && forall k | 0 <= k < h :: before[cands[k]].Some?
    {
      if groups[cands[h]].None? {
        FirstFreeIs(cands, before, h);
        groups[cands[h]] := Some(qi);
        return true;
      }
    }
    return false;
  }

  /** The evictions from `h` on end with the owners `all`, or with none. */
  ghost predicate LeadsTo(cands: seq<seq<nat>>, n: nat, h: Homeless, kick: nat, left: nat, all: Option<seq<Slot>>) {
    Waiting(cands, n, h) && Kicks(cands, n, h, kick, left) == all
  }

  /** The same, `d` definitions away, for a loop that has no need to look inside. */
  ghost predicate Promised(cands: seq<seq<nat>>, n: nat, h: Homeless, kick: nat, left: nat, all: Option<seq<Slot>>,
                           d: nat)
    decreases d
  {
    if d == 0 then LeadsTo(cands, n, h, kick, left, all) else Promised(cands, n, h, kick, left, all, d - 1)
  }

  lemma {:induction false} PromisedIs(cands: seq<seq<nat>>, n: nat, h: Homeless, kick: nat, left: nat,
                                      all: Option<seq<Slot>>, d: nat)
    ensures Promised(cands, n, h, kick, left, all, d) <==> LeadsTo(cands, n, h, kick, left, all)
    decreases d
  {
    if d > 0 {
      PromisedIs(cands, n, h, kick, left, all, d - 1);
    }
  }

  lemma {:induction false} PromisedNone(cands: seq<seq<nat>>, n: nat, h: Homeless, kick: nat, all: Option<seq<Slot>>,
                                        d: nat)
    requires Promised(cands, n, h, kick, 0, all, d)
    ensures all.None?
  {
    PromisedIs(cands, n, h, kick, 0, all, d);
  }

  method EvictionLoop(candGroups: seq<seq<nat>>, groups: array<Slot>, qi: nat, maxKicks: nat, numHashes: nat,
                      ghost all: Option<seq<Slot>>, ghost d: nat)
    returns (ok: bool)
    requires qi < |candGroups| && candGroups[qi] != [] && d > 1
    requires Promised(candGroups, numHashes, Homeless(groups[..], qi, candGroups[qi][0]), 0, maxKicks, all, d)
    modifies groups
    ensures ok ==> all == Some(groups[..])
    ensures !ok ==> all.None?
  {
    var currentQi: nat, currentGroup: nat := qi, candGroups[qi][0];
    for kick := 0 to maxKicks
      invariant Promised(candGroups, numHashes, Homeless(groups[..], currentQi, currentGroup), kick, maxKicks - kick,
                         all, d)
    {
      currentQi, currentGroup, ok :=
        Kick(candGroups, groups, currentQi, currentGroup, kick, numHashes, maxKicks - kick, all, d);
      if ok {
        return;
      }
    }
    PromisedNone(candGroups, numHashes, Homeless(groups[..], currentQi, currentGroup), maxKicks, all, d);
    return false;
  }

  /** One turn of the eviction loop: take the group, then find the evicted item a free candidate or the next group. */
  method Kick(candGroups: seq<seq<nat>>, groups: array<Slot>, qi: nat, group: nat, kick: nat, numHashes: nat,
              ghost left: nat, ghost all: Option<seq<Slot>>, ghost d: nat)
    returns (evictedQi: nat, nextGroup: nat, ok: bool)
    requires Promised(candGroups, numHashes, Homeless(groups[..], qi, group), kick, left, all, d) && left > 0
    modifies groups
    ensures ok ==> all == Some(groups[..])
    ensures !ok ==>
            Promised(candGroups, numHashes, Homeless(groups[..], evictedQi, nextGroup), kick + 1, left - 1, all, d)
  {
    PromisedIs(candGroups, numHashes, Homeless(groups[..], qi, group), kick, left, all, d);
    ghost var h := Homeless(groups[..], qi, group);
    ghost var h' := Evicted(candGroups, kick, h);
    StillWaiting(candGroups, numHashes, kick, h);
    evictedQi := groups[group].value;
    groups[group] := Some(qi);
    assert groups[..] == h'.groups;
    var cands := candGroups[evictedQi];
    ghost var order := Rotated(cands, kick);
    for offset := 0 to numHashes
      invariant groups[..] == h'.groups && forall k | 0 <= k < offset :: h'.groups[order[k]].Some?
    {
      RotatedAt(cands, kick, offset);
      var c := cands[Probe(kick, offset, numHashes)];
      if c != group && groups[c].None? {
        FirstFreeIs(order, h'.groups, offset);
        groups[c] := Some(evictedQi);
        assert groups[..] == h'.groups[c := Some(evictedQi)];
        return evictedQi, c, true;
      }
    }
    nextGroup := FindNext(cands, kick, group);
    PromisedIs(candGroups, numHashes, h', kick + 1, left - 1, all, d);
    return evictedQi, nextGroup, false;
  }

  method FindNext(cands: seq<nat>, kick: nat, group: nat) returns (nextGroup: nat)
    requires cands != []
    ensures nextGroup == NextGroup(cands, kick, group)
  {
    ghost var order := Rotated(cands, kick);
    for offset := 0 to |cands|
      invariant forall k | 0 <= k < offset :: order[k] == group
    {
      RotatedAt(cands, kick, offset);
      var c := cands[Probe(kick, offset, |cands|)];
      if c != group {
        FirstOtherIs(order, group, offset);
        return c;
      }
    }
    return cands[0];
  }

  // ----- when an item finds no place

  /** Nobody takes a free group: every candidate of the item is owned. */
  ghost predicate NoneFree(cands: seq<seq<nat>>, g: seq<Slot>, item: nat) {
    item < |cands| && forall c | c in cands[item] :: c < |g| && g[c].Some?
  }

  /**
   The `kick`-th eviction in vain: the item takes the group from its owner,
   who finds all its candidates owned and goes for the first of them, in the
   kick's order, that it was not just evicted from.
   */
  ghost predicate InVain(cands: seq<seq<nat>>, kick: nat, h: Homeless, h': Homeless) {
    && h.group < |h.groups| && h.groups[h.group] == Some(h'.item) && h'.groups == h.groups[h.group := Some(h.item)]
    && NoneFree(cands, h'.groups, h'.item)
    && GoesFor(cands[h'.item], kick, h.group, h'.group)
  }

  ghost predicate GoesFor(cs: seq<nat>, kick: nat, from: nat, to: nat) {
    if forall c | c in cs :: c == from then cs != [] && to == cs[0]
    else exists o: nat | o < |cs| :: ProbedFirst(cs, kick, from, to, o)
  }

  ghost predicate ProbedFirst(cs: seq<nat>, kick: nat, from: nat, to: nat, o: nat)
    requires o < |cs|
  {
    cs[Probe(kick, o, |cs|)] == to != from && forall p: nat | p < o :: cs[Probe(kick, p, |cs|)] == from
  }

  lemma GoesForNext(cs: seq<nat>, kick: nat, from: nat, to: nat)
    requires cs != []
    ensures GoesFor(cs, kick, from, to) <==> to == NextGroup(cs, kick, from)
  {
    var order := Rotated(cs, kick);
    forall o: nat | o < |cs| ensures order[o] == cs[Probe(kick, o, |cs|)] { RotatedAt(cs, kick, o); }
    if forall c | c in cs :: c == from {
      assert forall k | 0 <= k < |order| :: order[k] in cs;
      assert FirstOther(order, from).None?;
    } else {
      var c :| c in cs && c != from;
      assert c in order;
      var k := FirstOtherAt(order, from);
      assert ProbedFirst(cs, kick, from, order[k], k);
      if GoesFor(cs, kick, from, to) {
        var o: nat :| o < |cs| && ProbedFirst(cs, kick, from, to, o);
        FirstOtherIs(order, from, o);
      }
    }
  }

  lemma {:induction false} FirstOtherAt(cs: seq<nat>, group: nat) returns (k: nat)
    requires exists i | 0 <= i < |cs| :: cs[i] != group
    ensures k < |cs| && FirstOther(cs, group) == Some(cs[k]) && cs[k] != group
            && forall i | 0 <= i < k :: cs[i] == group
  {
    if cs[0] != group {
      k := 0;
    } else {
      k := FirstOtherAt(cs[1..], group);
      k := k + 1;
    }
  }

  /** An eviction is in vain exactly if the one evicted finds nothing free. */
  lemma InVainIs(cands: seq<seq<nat>>, n: nat, kick: nat, h: Homeless, h': Homeless)
    requires Waiting(cands, n, h)
    ensures InVain(cands, kick, h, h') <==>
            h' == Evicted(cands, kick, h) && NoneFree(cands, h'.groups, h'.item)
  {
    var item := h.groups[h.group].value;
    GoesForNext(cands[item], kick, h.group, h'.group);
  }

  lemma NoneFreeIs(cands: seq<seq<nat>>, cs: seq<nat>, g: seq<Slot>, item: nat)
    requires item < |cands| && (forall c :: c in cs <==> c in cands[item]) && forall k | 0 <= k < |cs| :: cs[k] < |g|
    ensures NoneFree(cands, g, item) <==> FirstFree(cs, g).None?
  {
    assert forall k | 0 <= k < |cs| :: cs[k] in cands[item];
  }

  /** The `kick`-th eviction ends the search: the evicted item takes its first free candidate in the kick's order. */
  ghost predicate Settles(cands: seq<seq<nat>>, kick: nat, h: Homeless, g: seq<Slot>) {
    && h.group < |h.groups| && h.groups[h.group].Some? && h.groups[h.group].value < |cands|
    && var item, taken := h.groups[h.group].value, h.groups[h.group := Some(h.item)];
       SettlesFrom(cands[item], kick, taken, item, g)
  }

  ghost predicate SettlesFrom(cs: seq<nat>, kick: nat, taken: seq<Slot>, item: nat, g: seq<Slot>) {
    exists o: nat | o < |cs| :: SettlesIn(cs, kick, taken, item, o, g)
  }

  ghost predicate SettlesIn(cs: seq<nat>, kick: nat, taken: seq<Slot>, item: nat, o: nat, g: seq<Slot>)
    requires o < |cs|
  {
    && (forall p: nat | p <= o ::
        cs[Probe(kick, p, |cs|)] < |taken| && (taken[cs[Probe(kick, p, |cs|)]].None? <==> p == o))
    && g == taken[cs[Probe(kick, o, |cs|)] := Some(item)]
  }

  lemma FreeSettles(cs: seq<nat>, kick: nat, taken: seq<Slot>, item: nat)
    requires cs != [] && (forall k | 0 <= k < |cs| :: Rotated(cs, kick)[k] < |taken|)
    requires FirstFree(Rotated(cs, kick), taken).Some?
    ensures SettlesFrom(cs, kick, taken, item, taken[FirstFree(Rotated(cs, kick), taken).value := Some(item)])
  {
    var order := Rotated(cs, kick);
    forall o: nat | o < |cs| ensures order[o] == cs[Probe(kick, o, |cs|)] { RotatedAt(cs, kick, o); }
    var o := FirstFreeAt(order, taken);
    assert SettlesIn(cs, kick, taken, item, o, taken[order[o] := Some(item)]);
  }

  lemma {:induction false} FirstFreeAt(cs: seq<nat>, g: seq<Slot>) returns (k: nat)
    requires (forall i | 0 <= i < |cs| :: cs[i] < |g|) && FirstFree(cs, g).Some?
    ensures k < |cs| && FirstFree(cs, g) == Some(cs[k]) && g[cs[k]].None? && forall i | 0 <= i < k :: g[cs[i]].Some?
  {
    if g[cs[0]].None? {
      k := 0;
    } else {
      k := FirstFreeAt(cs[1..], g);
      k := k + 1;
    }
  }

  /** One turn, told by the owners: in vain, and then the rest decides, or it settles. */
  lemma OneKick(cands: seq<seq<nat>>, n: nat, h: Homeless, kick: nat, left: nat) returns (h': Homeless, vain: bool)
    requires Waiting(cands, n, h) && left > 0
    ensures vain <==> InVain(cands, kick, h, h')
    ensures forall x :: InVain(cands, kick, h, x) ==> x == h'
    ensures vain ==> Waiting(cands, n, h') && Kicks(cands, n, h, kick, left) == Kicks(cands, n, h', kick + 1, left - 1)
    ensures !vain ==>
            Kicks(cands, n, h, kick, left).Some? && Settles(cands, kick, h, Kicks(cands, n, h, kick, left).value)
  {
    h' := Evicted(cands, kick, h);
    StillWaiting(cands, n, kick, h);
    forall x ensures InVain(cands, kick, h, x) <==> x == h' && NoneFree(cands, h'.groups, h'.item) {
      InVainIs(cands, n, kick, h, x);
    }
    vain := NoneFree(cands, h'.groups, h'.item);
    NoneFreeIs(cands, Rotated(cands[h'.item], kick), h'.groups, h'.item);
    if !vain {
      FreeSettles(cands[h'.item], kick, h'.groups, h'.item);
    }
  }

  /** `m` evictions in vain, one after the other. */
  ghost predicate AllVain(cands: seq<seq<nat>>, kick: nat, h: Homeless, m: nat)
    decreases m
  {
    m > 0 ==> exists h' :: InVain(cands, kick, h, h') && AllVain(cands, kick + 1, h', m - 1)
  }

  /** Fewer than `m` evictions in vain, and then one that settles with the owners `g`. */
  ghost predicate SettlesWithin(cands: seq<seq<nat>>, kick: nat, h: Homeless, m: nat, g: seq<Slot>)
    decreases m
  {
    m > 0 && (Settles(cands, kick, h, g)
              || exists h' :: InVain(cands, kick, h, h') && SettlesWithin(cands, kick + 1, h', m - 1, g))
  }

  lemma VainStep(cands: seq<seq<nat>>, kick: nat, h: Homeless, h': Homeless, m: nat)
    requires forall x :: InVain(cands, kick, h, x) ==> x == h'
    ensures AllVain(cands, kick, h, m + 1) <==> InVain(cands, kick, h, h') && AllVain(cands, kick + 1, h', m)
  {
  }

  lemma SettleStep(cands: seq<seq<nat>>, kick: nat, h: Homeless, h': Homeless, m: nat, g: seq<Slot>)
    requires Settles(cands, kick, h, g) || (InVain(cands, kick, h, h') && SettlesWithin(cands, kick + 1, h', m, g))
    ensures SettlesWithin(cands, kick, h, m + 1, g)
  {
  }

  /** The evictions fail exactly if as many as allowed are in vain. */
  lemma {:induction false} KicksFail(cands: seq<seq<nat>>, n: nat, h: Homeless, kick: nat, left: nat)
    requires Waiting(cands, n, h)
    ensures Kicks(cands, n, h, kick, left).None? <==> AllVain(cands, kick, h, left)
    decreases left
  {
    if left > 0 {
      var h', vain := OneKick(cands, n, h, kick, left);
      VainStep(cands, kick, h, h', left - 1);
      if vain {
        KicksFail(cands, n, h', kick + 1, left - 1);
      }
    }
  }

  /** They succeed with the owners of the one that settles. */
  lemma {:induction false} KicksSettle(cands: seq<seq<nat>>, n: nat, h: Homeless, kick: nat, left: nat)
    requires Waiting(cands, n, h) && Kicks(cands, n, h, kick, left).Some?
    ensures SettlesWithin(cands, kick, h, left, Kicks(cands, n, h, kick, left).value)
    decreases left
  {
    var h', vain := OneKick(cands, n, h, kick, left);
    if vain {
      KicksSettle(cands, n, h', kick + 1, left - 1);
    }
    SettleStep(cands, kick, h, h', left - 1, Kicks(cands, n, h, kick, left).value);
  }

  /**
   An item finds no place exactly if all its candidates are owned and, from
   the first of them on, `maxKicks` evictions are in vain.
   */
  lemma NoPlaceExactly(cands: seq<seq<nat>>, n: nat, g: seq<Slot>, item: nat, maxKicks: nat)
    requires Unplaced(cands, n, g, item)
    ensures Placed(cands, n, g, item, maxKicks).None? <==>
            NoneFree(cands, g, item)
            && AllVain(cands, 0, Homeless(g, item, cands[item][0]), maxKicks)
  {
    CandidatesInRange(cands, n, g, item);
    NoneFreeIs(cands, cands[item], g, item);
    if NoneFree(cands, g, item) {
      KicksFail(cands, n, Homeless(g, item, cands[item][0]), 0, maxKicks);
    }
  }

  /** If all its candidates are owned, it finds a place exactly by fewer evictions in vain and one that settles. */
  lemma PlaceByEviction(cands: seq<seq<nat>>, n: nat, g: seq<Slot>, item: nat, maxKicks: nat)
    requires Unplaced(cands, n, g, item) && NoneFree(cands, g, item) && Placed(cands, n, g, item, maxKicks).Some?
    ensures SettlesWithin(cands, 0, Homeless(g, item, cands[item][0]), maxKicks,
                          Placed(cands, n, g, item, maxKicks).value)
  {
    CandidatesInRange(cands, n, g, item);
    NoneFreeIs(cands, cands[item], g, item);
    KicksSettle(cands, n, Homeless(g, item, cands[item][0]), 0, maxKicks);
  }

  /** So one eviction is enough if the owner of the first candidate has a free candidate. */
  lemma OneKickPlaces(cands: seq<seq<nat>>, n: nat, g: seq<Slot>, item: nat, maxKicks: nat)
    requires Unplaced(cands, n, g, item) && maxKicks > 0
    requires g[cands[item][0]].Some? ==>
             exists c | c in cands[g[cands[item][0]].value] :: c < |g| && g[c].None?
    ensures Placed(cands, n, g, item, maxKicks).Some?
  {
    NoPlaceExactly(cands, n, g, item, maxKicks);
    assert cands[item][0] in cands[item];
  }
}
