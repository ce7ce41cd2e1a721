/**
 The wallet's spendable and in-flight proofs under any interleaving of
 receive, present and the two halves of reconcile.
 */
module CashuWallet {
  import opened Wrappers
  import opened Arithmetic
  import opened CashuSelect

  datatype InFlight = InFlight(at: int, proofs: seq<Proof>)

  /** `pending` says whether a top-up is under way; `ready` whether the mint is known. */
  datatype Wallet = Wallet(ready: bool, creditSat: nat, proofs: seq<Proof>, inFlight: seq<InFlight>, pending: bool)

  /** The mint's answer for one proof (NUT-07). */
  datatype MintState = Unspent | Pending | Spent

  function Secrets(proofs: seq<Proof>): set<string> {
    set i | 0 <= i < |proofs| :: proofs[i].secret
  }

  function Flatten(flights: seq<InFlight>): seq<Proof> {
    if flights == [] then [] else flights[0].proofs + Flatten(flights[1..])
  }

  /** All proofs the wallet knows, spendable first. */
  function Held(w: Wallet): seq<Proof> { w.proofs + Flatten(w.inFlight) }

  function Keep(proofs: seq<Proof>, drop: set<string>): seq<Proof> {
    if proofs == [] then []
    else (if proofs[0].secret in drop then [] else [proofs[0]]) + Keep(proofs[1..], drop)
  }

  /** Drop secrets from every flight, then drop the flights left empty. */
  function KeepFlights(flights: seq<InFlight>, drop: set<string>): seq<InFlight> {
    if flights == [] then []
    else
      var kept := Keep(flights[0].proofs, drop);
      (if kept == [] then [] else [InFlight(flights[0].at, kept)]) + KeepFlights(flights[1..], drop)
  }

  function Due(flights: seq<InFlight>, now: int, grace: int): seq<Proof> {
    if flights == [] then []
    else DueOf(flights[0], now, grace) + Due(flights[1..], now, grace)
  }

  function InState(due: seq<Proof>, states: seq<MintState>, want: MintState): seq<Proof>
    requires |due| == |states|
  {
    if due == [] then []
    else (if states[0] == want then [due[0]] else []) + InState(due[1..], states[1..], want)
  }

  function Received(w: Wallet, proofs: seq<Proof>): Wallet {
    w.(proofs := w.proofs + Keep(proofs, Secrets(Held(w))), pending := false)
  }

  function Worth(proofs: seq<Proof>, creditSat: nat): nat
    requires creditSat > 0
  {
    Quotient(SumSat(proofs), creditSat)
  }

  /** What `present` hands over, if anything. */
  function Handed(w: Wallet, credits: nat): Option<seq<Proof>> {
    if !w.ready || w.creditSat == 0 then None
    else
      var picked := Selected(w.proofs, Cost(credits, w.creditSat));
      if picked == Some([]) then None else picked
  }

  function Presented(w: Wallet, credits: nat, now: int): Wallet {
    match Handed(w, credits)
    case None => w
    case Some(picked) => w.(proofs := Keep(w.proofs, Secrets(picked)), inFlight := w.inFlight + [InFlight(now, picked)])
  }

  /** The second half of `reconcile`, after the mint answered about `due`; nothing is asked about no proofs. */
  function Settled(w: Wallet, due: seq<Proof>, states: seq<MintState>): Wallet
    requires |due| == |states|
  {
    var unspent, spent := InState(due, states, Unspent), InState(due, states, Spent);
    if due == [] then w
    else w.(inFlight := KeepFlights(w.inFlight, Secrets(unspent + spent)),
       proofs := w.proofs + Keep(unspent, Secrets(w.proofs)))
  }

  /** A kind-1 presentation: the proofs behind its token, and the credits it is worth. */
  datatype Presentation = Presentation(proofs: seq<Proof>, credits: nat)

  /** Proofs held that cover the amount, worth no more than any others that do. */
  ghost predicate IsLeast(proofs: seq<Proof>, picked: seq<Proof>, sat: nat) {
    && multiset(picked) <= multiset(proofs) && SumSat(picked) >= sat
    && forall m: seq<Proof> | multiset(m) <= multiset(proofs) && SumSat(m) >= sat :: SumSat(picked) <= SumSat(m)
  }

  class CashuStore {
    var ready: bool
    var creditSat: nat
    var proofs: seq<Proof>
    var inFlight: seq<InFlight>
    var pending: bool

    ghost function State(): Wallet
      reads this
    {
      Wallet(ready, creditSat, proofs, inFlight, pending)
    }

    /** The minted secrets are held afterwards besides the earlier ones, nothing moves, and no top-up is pending. */
    method Receive(minted: seq<Proof>)
      modifies this
      ensures State() == Received(old(State()), minted) && !pending
      ensures old(proofs) <= proofs
              && forall p | p in proofs[|old(proofs)|..] :: p in minted && p.secret !in Secrets(Held(old(State())))
      ensures Secrets(Held(State())) == Secrets(Held(old(State()))) + Secrets(minted)
    {
      var held := Secrets(proofs + Flatten(inFlight));
      KeepIs(minted, held);
      ReceivedSecrets(State(), minted);
      proofs := proofs + Keep(minted, held);
      pending := false;
    }

    /** A presentation is worth at least the credits asked for. */
    method Present(credits: nat, now: int) returns (r: Option<Presentation>)
      modifies this
      ensures r.Some? <==> Handed(old(State()), credits).Some?
      ensures r.Some? ==> Some(r.value.proofs) == Handed(old(State()), credits)
      ensures r.Some? ==> creditSat > 0 && r.value.credits == Worth(r.value.proofs, creditSat) >= credits
      ensures State() == Presented(old(State()), credits, now)
    {
      var picked := Pick(credits);
      if picked.None? {
        return None;
      }
      WorthAsked(proofs, credits, creditSat, picked.value);
      proofs := Keep(proofs, Secrets(picked.value));
      inFlight := inFlight + [InFlight(now, picked.value)];
      return Some(Presentation(picked.value, Worth(picked.value, creditSat)));
    }

    method Pick(credits: nat) returns (picked: Option<seq<Proof>>)
      ensures picked == Handed(State(), credits)
    {
      if !ready || creditSat == 0 {
        return None;
      }
      picked := SelectProofs(proofs, Cost(credits, creditSat));
      if picked == Some([]) {
        picked := None;
      }
    }

    /**
     Reads what is due: exactly the proofs of the flights at least `grace` old,
     none twice if the wallet holds none twice. The wallet is free to change
     until the mint answers.
     */
    method ReconcileAsk(now: int, grace: int) returns (due: seq<Proof>)
      ensures forall p :: p in due <==> exists f | f in inFlight :: now - f.at >= grace && p in f.proofs
      ensures Once(Held(State())) ==> Once(due)
      ensures due == Due(inFlight, now, grace)
    {
      due := [];
      for i := 0 to |inFlight|
        invariant due == Due(inFlight[..i], now, grace)
      {
        DueSnoc(inFlight[..i], inFlight[i], now, grace);
        assert inFlight[..i + 1] == inFlight[..i] + [inFlight[i]];
        if now - inFlight[i].at >= grace {
          due := due + inFlight[i].proofs;
        }
      }
      assert inFlight[..|inFlight|] == inFlight;
      DueIs(inFlight, now, grace);
      DueOnce(State(), now, grace);
    }

    /**
     The unspent secrets become spendable, they and the spent ones leave the
     flights; the worth of each is returned.
     */
    method ReconcileSettle(due: seq<Proof>, states: seq<MintState>) returns (returned: nat, spentSat: nat)
      requires |due| == |states|
      modifies this
      ensures State() == Settled(old(State()), due, states)
      ensures Secrets(proofs) == Secrets(old(proofs)) + Secrets(InState(due, states, Unspent))
      ensures Secrets(Flatten(inFlight)) ==
              Secrets(Flatten(old(inFlight))) - Secrets(InState(due, states, Unspent) + InState(due, states, Spent))
      ensures returned == SumSat(InState(due, states, Unspent)) && spentSat == SumSat(InState(due, states, Spent))
    {
      var unspent, spent := InState(due, states, Unspent), InState(due, states, Spent);
      if due != [] {
        SettledSecrets(State(), due, states, unspent, spent);
        inFlight := KeepFlights(inFlight, Secrets(unspent + spent));
        proofs := proofs + Keep(unspent, Secrets(proofs));
      }
      return SumSat(unspent), SumSat(spent);
    }
  }

  lemma DueOnce(w: Wallet, now: int, grace: int)
    ensures Once(Held(w)) ==> Once(Due(w.inFlight, now, grace))
  {
    if Once(Held(w)) {
      OnceAppend(w.proofs, Flatten(w.inFlight));
      DueIsHeld(w.inFlight, now, grace);
    }
  }

  lemma WorthAtLeast(sat: nat, creditSat: nat, credits: nat)
    requires creditSat > 0 && sat >= credits * creditSat
    ensures sat / creditSat >= credits
  {
    var q := sat / creditSat;
    if q < credits {
      MulMonotone(q + 1, credits, creditSat);
      Distribute(q, 1, creditSat);
    }
  }

  lemma WorthAsked(proofs: seq<Proof>, credits: nat, creditSat: nat, picked: seq<Proof>)
    requires creditSat > 0 && Selected(proofs, Cost(credits, creditSat)) == Some(picked)
    ensures Worth(picked, creditSat) >= credits
  {
    SelectedFromHeld(proofs, Cost(credits, creditSat));
    WorthAtLeast(SumSat(picked), creditSat, credits);
  }

  lemma {:induction false} NoSatNoProofs(proofs: seq<Proof>)
    requires PowerAmounts(proofs)
    ensures SumSat(proofs) == 0 <==> proofs == []
  {
    if proofs != [] {
      assert IsPowerOfTwo(proofs[0].amount);
    }
  }

  lemma WorthBetween(sat: nat, creditSat: nat)
    requires creditSat > 0
    ensures Quotient(sat, creditSat) * creditSat <= sat < (Quotient(sat, creditSat) + 1) * creditSat
  {
    var q := Quotient(sat, creditSat);
    assert sat == q * creditSat + sat % creditSat;
    Distribute(q, 1, creditSat);
  }

  lemma PickedPowers(proofs: seq<Proof>, picked: seq<Proof>)
    requires PowerAmounts(proofs) && multiset(picked) <= multiset(proofs)
    ensures PowerAmounts(picked)
  {
    forall i | 0 <= i < |picked| ensures IsPowerOfTwo(picked[i].amount) {
      assert picked[i] in multiset(picked) && picked[i] in multiset(proofs);
    }
  }

  /**
   With power-of-two proofs there is a presentation exactly if the mint is
   known, credits are asked for and the balance covers them. It hands over held
   proofs of the least worth that covers them.
   */
  lemma PresentsLeast(w: Wallet, credits: nat)
    requires PowerAmounts(w.proofs)
    ensures Handed(w, credits).Some? <==>
            w.ready && w.creditSat > 0 && credits > 0 && SumSat(w.proofs) >= credits * w.creditSat
    ensures Handed(w, credits).Some? ==> IsLeast(w.proofs, Handed(w, credits).value, credits * w.creditSat)
  {
    if w.ready && w.creditSat > 0 {
      LeastSelected(w.proofs, credits, w.creditSat);
    }
  }

  /** The credits counted are the whole credits that the proofs are worth. */
  lemma WorthIsWhole(proofs: seq<Proof>, creditSat: nat)
    requires creditSat > 0
    ensures Worth(proofs, creditSat) * creditSat <= SumSat(proofs) < (Worth(proofs, creditSat) + 1) * creditSat
  {
    WorthBetween(SumSat(proofs), creditSat);
  }

  lemma LeastSelected(proofs: seq<Proof>, credits: nat, creditSat: nat)
    requires PowerAmounts(proofs) && creditSat > 0
    ensures var selected := Selected(proofs, Cost(credits, creditSat));
            && (selected.Some? <==> SumSat(proofs) >= Cost(credits, creditSat))
            && (selected.Some? ==> IsLeast(proofs, selected.value, Cost(credits, creditSat)))
            && (selected == Some([]) <==> credits == 0)
  {
    var cost := Cost(credits, creditSat);
    SelectionIsBest(proofs, cost);
    CostZero(credits, creditSat);
    var selected := Selected(proofs, cost);
    if selected.Some? {
      PickedPowers(proofs, selected.value);
      NoSatNoProofs(selected.value);
      assert multiset([]) <= multiset(proofs) && SumSat([]) == 0;
    }
  }

  lemma CostZero(credits: nat, creditSat: nat)
    requires creditSat > 0
    ensures Cost(credits, creditSat) == 0 <==> credits == 0
  {
    if credits > 0 {
      MulMonotone(1, credits, creditSat);
    }
  }

  lemma {:induction false} KeepIs(proofs: seq<Proof>, drop: set<string>)
    ensures forall p :: p in Keep(proofs, drop) <==> p in proofs && p.secret !in drop
  {
    if proofs != [] {
      KeepIs(proofs[1..], drop);
    }
  }

  function DueOf(f: InFlight, now: int, grace: int): seq<Proof> {
    if now - f.at >= grace then f.proofs else []
  }

  lemma {:induction false} DueSnoc(flights: seq<InFlight>, f: InFlight, now: int, grace: int)
    ensures Due(flights + [f], now, grace) == Due(flights, now, grace) + DueOf(f, now, grace)
  {
    if flights == [] {
      assert [] + [f] == [f];
      assert DueOf(f, now, grace) + [] == [] + DueOf(f, now, grace);
    } else {
      assert (flights + [f])[1..] == flights[1..] + [f];
      DueSnoc(flights[1..], f, now, grace);
      Associative(DueOf(flights[0], now, grace), Due(flights[1..], now, grace), DueOf(f, now, grace));
    }
  }

  lemma {:induction false} DueIs(flights: seq<InFlight>, now: int, grace: int)
    ensures forall p ::
            p in Due(flights, now, grace) <==> exists f | f in flights :: now - f.at >= grace && p in f.proofs
  {
    if flights != [] {
      DueIs(flights[1..], now, grace);
      assert flights == [flights[0]] + flights[1..];
    }
  }

  /** What the mint reported in state `want`: exactly the proofs answered so. */
  lemma {:induction false} InStateIs(due: seq<Proof>, states: seq<MintState>, want: MintState)
    requires |due| == |states|
    ensures forall p ::
            p in InState(due, states, want) <==> exists i | 0 <= i < |due| :: due[i] == p && states[i] == want
  {
    if due != [] {
      var rest := due[1..];
      InStateIs(rest, states[1..], want);
      forall p | exists i | 0 <= i < |due| :: due[i] == p && states[i] == want ensures p in InState(due, states, want) {
        var i :| 0 <= i < |due| && due[i] == p && states[i] == want;
        if i > 0 {
          assert rest[i - 1] == p && states[1..][i - 1] == want;
        }
      }
      forall p | p in InState(due, states, want) ensures exists i | 0 <= i < |due| :: due[i] == p && states[i] == want {
        if p in InState(rest, states[1..], want) {
          var i :| 0 <= i < |rest| && rest[i] == p && states[1..][i] == want;
          assert due[i + 1] == p && states[i + 1] == want;
        }
      }
    }
  }

  lemma ReceivedSecrets(w: Wallet, minted: seq<Proof>)
    ensures Secrets(Held(Received(w, minted))) == Secrets(Held(w)) + Secrets(minted)
  {
    var added, flights := Keep(minted, Secrets(Held(w))), Flatten(w.inFlight);
    KeepFilters(minted, Secrets(Held(w)));
    SecretsAppend(w.proofs, flights);
    SecretsAppend(w.proofs, added);
    SecretsAppend(w.proofs + added, flights);
  }

  lemma SettledSecrets(w: Wallet, due: seq<Proof>, states: seq<MintState>, unspent: seq<Proof>, spent: seq<Proof>)
    requires |due| == |states| && due != []
    requires unspent == InState(due, states, Unspent) && spent == InState(due, states, Spent)
    ensures Secrets(Settled(w, due, states).proofs) == Secrets(w.proofs) + Secrets(unspent)
    ensures Secrets(Flatten(Settled(w, due, states).inFlight))
            == Secrets(Flatten(w.inFlight)) - Secrets(unspent + spent)
  {
    KeepFilters(unspent, Secrets(w.proofs));
    SecretsAppend(w.proofs, Keep(unspent, Secrets(w.proofs)));
    KeepFlightsFilters(w.inFlight, Secrets(unspent + spent));
    KeepFilters(Flatten(w.inFlight), Secrets(unspent + spent));
  }

  // ----- secrets are held at most once

  ghost predicate Once(proofs: seq<Proof>) {
    forall i, j | 0 <= i < j < |proofs| :: proofs[i].secret != proofs[j].secret
  }

  lemma OnceAppend(a: seq<Proof>, b: seq<Proof>)
    ensures Once(a + b) <==> Once(a) && Once(b) && Secrets(a) !! Secrets(b)
  {
    var c := a + b;
    if Once(c) {
      forall i, j | 0 <= i < j < |a| ensures a[i].secret != a[j].secret { assert c[i] == a[i] && c[j] == a[j]; }
      forall i, j | 0 <= i < j < |b|
        ensures b[i].secret != b[j].secret
      {
        assert c[|a| + i] == b[i] && c[|a| + j] == b[j];
      }
      forall i, j | 0 <= i < |a| && 0 <= j < |b| ensures a[i].secret != b[j].secret {
        assert c[i] == a[i] && c[|a| + j] == b[j];
      }
    }
    if Once(a) && Once(b) && Secrets(a) !! Secrets(b) {
      forall i, j | 0 <= i < j < |c| ensures c[i].secret != c[j].secret {
        if i < |a| <= j {
          assert a[i].secret in Secrets(a) && b[j - |a|].secret in Secrets(b);
        }
      }
    }
  }

  lemma SecretsAppend(a: seq<Proof>, b: seq<Proof>)
    ensures Secrets(a + b) == Secrets(a) + Secrets(b)
  {
    var c := a + b;
    forall s | s in Secrets(a) ensures s in Secrets(c) {
      var i :| 0 <= i < |a| && a[i].secret == s;
      assert c[i] == a[i];
    }
    forall s | s in Secrets(b) ensures s in Secrets(c) {
      var j :| 0 <= j < |b| && b[j].secret == s;
      assert c[|a| + j] == b[j];
    }
  }

  lemma SecretsOne(p: Proof)
    ensures Secrets([p]) == {p.secret}
  {
    assert [p][0].secret in Secrets([p]);
  }

  lemma {:induction false} KeepFilters(proofs: seq<Proof>, drop: set<string>)
    ensures Secrets(Keep(proofs, drop)) == Secrets(proofs) - drop
    ensures Once(proofs) ==> Once(Keep(proofs, drop))
  {
    if proofs != [] {
      var head, rest := [proofs[0]], proofs[1..];
      assert proofs == head + rest;
      KeepFilters(rest, drop);
      KeepOne(proofs[0], rest, Keep(rest, drop), drop);
    }
  }

  lemma KeepOne(p: Proof, rest: seq<Proof>, kept: seq<Proof>, drop: set<string>)
    requires Secrets(kept) == Secrets(rest) - drop && (Once(rest) ==> Once(kept))
    ensures var r := (if p.secret in drop then [] else [p]) + kept;
            Secrets(r) == Secrets([p] + rest) - drop && (Once([p] + rest) ==> Once(r))
  {
    OnceAppend([p], rest);
    SecretsAppend([p], rest);
    SecretsOne(p);
    if p.secret in drop {
      assert [] + kept == kept;
    } else {
      OnceAppend([p], kept);
      SecretsAppend([p], kept);
    }
  }

  lemma FlattenCons(f: InFlight, rest: seq<InFlight>)
    ensures Flatten([f] + rest) == f.proofs + Flatten(rest)
  {
    assert ([f] + rest)[1..] == rest;
  }

  lemma {:induction false} FlattenAppend(a: seq<InFlight>, b: seq<InFlight>)
    ensures Flatten(a + b) == Flatten(a) + Flatten(b)
  {
    if a == [] {
      assert a + b == b;
    } else {
      var f, rest := a[0], a[1..];
      FlattenAppend(rest, b);
      assert a + b == [f] + (rest + b);
      FlattenCons(f, rest + b);
      Associative(f.proofs, Flatten(rest), Flatten(b));
    }
  }

  lemma Associative(x: seq<Proof>, y: seq<Proof>, z: seq<Proof>)
    ensures x + (y + z) == (x + y) + z
  {
  }

  lemma KeepCons(p: Proof, rest: seq<Proof>, drop: set<string>)
    ensures Keep([p] + rest, drop) == (if p.secret in drop then [] else [p]) + Keep(rest, drop)
  {
    assert ([p] + rest)[1..] == rest;
  }

  lemma {:induction false} KeepAppend(a: seq<Proof>, b: seq<Proof>, drop: set<string>)
    ensures Keep(a + b, drop) == Keep(a, drop) + Keep(b, drop)
  {
    if a == [] {
      assert a + b == b;
    } else {
      var p, rest := a[0], a[1..];
      KeepAppend(rest, b, drop);
      assert a + b == [p] + (rest + b);
      KeepCons(p, rest + b, drop);
      Associative(if p.secret in drop then [] else [p], Keep(rest, drop), Keep(b, drop));
    }
  }

  lemma {:induction false} KeepFlightsFilters(flights: seq<InFlight>, drop: set<string>)
    ensures Flatten(KeepFlights(flights, drop)) == Keep(Flatten(flights), drop)
  {
    if flights != [] {
      var kept, rest := Keep(flights[0].proofs, drop), KeepFlights(flights[1..], drop);
      KeepFlightsFilters(flights[1..], drop);
      KeepAppend(flights[0].proofs, Flatten(flights[1..]), drop);
      if kept == [] {
        assert [] + rest == rest;
      } else {
        FlattenAppend([InFlight(flights[0].at, kept)], rest);
        assert Flatten([InFlight(flights[0].at, kept)]) == kept + [];
        assert kept + [] == kept;
      }
    }
  }

  lemma {:induction false} DueIsHeld(flights: seq<InFlight>, now: int, grace: int)
    requires Once(Flatten(flights))
    ensures Once(Due(flights, now, grace)) && Secrets(Due(flights, now, grace)) <= Secrets(Flatten(flights))
  {
    if flights != [] {
      var head, rest := flights[0].proofs, Flatten(flights[1..]);
      OnceAppend(head, rest);
      SecretsAppend(head, rest);
      DueIsHeld(flights[1..], now, grace);
      OnceAppend(head, Due(flights[1..], now, grace));
      SecretsAppend(head, Due(flights[1..], now, grace));
      assert [] + Due(flights[1..], now, grace) == Due(flights[1..], now, grace);
    }
  }

  lemma {:induction false} InStateFilters(due: seq<Proof>, states: seq<MintState>, want: MintState)
    requires |due| == |states| && Once(due)
    ensures Once(InState(due, states, want)) && Secrets(InState(due, states, want)) <= Secrets(due)
  {
    if due != [] {
      var head, rest := [due[0]], due[1..];
      assert due == head + rest;
      OnceAppend(head, rest);
      SecretsAppend(head, rest);
      InStateFilters(rest, states[1..], want);
      OnceAppend(head, InState(rest, states[1..], want));
      SecretsAppend(head, InState(rest, states[1..], want));
      assert [] + InState(rest, states[1..], want) == InState(rest, states[1..], want);
    }
  }

  /** Receiving keeps every secret single exactly when the new ones among the minted proofs are distinct. */
  lemma ReceiveOnce(w: Wallet, minted: seq<Proof>)
    requires Once(Held(w))
    ensures Once(Held(Received(w, minted))) <==> Once(Keep(minted, Secrets(Held(w))))
    ensures Secrets(Held(Received(w, minted))) == Secrets(Held(w)) + Secrets(minted)
  {
    var added, flights := Keep(minted, Secrets(Held(w))), Flatten(w.inFlight);
    KeepFilters(minted, Secrets(Held(w)));
    ReceivedSecrets(w, minted);
    OnceAppend(w.proofs, flights);
    SecretsAppend(w.proofs, flights);
    OnceAppend(w.proofs, added);
    SecretsAppend(w.proofs, added);
    OnceAppend(w.proofs + added, flights);
  }

  /** The list itself is not looked through for repetitions: a new proof listed twice is held twice. */
  lemma MintedTwice(w: Wallet, p: Proof)
    requires Once(Held(w)) && p.secret !in Secrets(Held(w))
    ensures !Once(Held(Received(w, [p, p])))
  {
    ReceiveOnce(w, [p, p]);
    KeepCons(p, [], Secrets(Held(w)));
    KeepCons(p, [p], Secrets(Held(w)));
    assert [p] + [p] == [p, p] && [p] + [] == [p];
  }

  lemma {:induction false} OnceCount(s: seq<Proof>, p: Proof)
    requires Once(s)
    ensures multiset(s)[p] <= 1
  {
    if s != [] {
      var head, rest := [s[0]], s[1..];
      assert s == head + rest;
      OnceCount(rest, p);
      assert s[0] !in rest;
    }
  }

  lemma TwiceCount(m: seq<Proof>, i: nat, j: nat)
    requires i < j < |m| && m[i] == m[j]
    ensures multiset(m)[m[i]] >= 2
  {
    RemovedOne(m, i);
    assert Removed(m, i)[j - 1] == m[j];
    assert m[j] in multiset(Removed(m, i));
  }

  lemma OnceInherited(s: seq<Proof>, m: seq<Proof>)
    requires Once(s) && multiset(m) <= multiset(s)
    ensures Once(m) && Secrets(m) <= Secrets(s)
  {
    forall i | 0 <= i < |m| ensures m[i] in s {
      assert m[i] in multiset(m);
    }
    forall i, j | 0 <= i < j < |m| ensures m[i].secret != m[j].secret {
      var a :| 0 <= a < |s| && s[a] == m[i];
      var b :| 0 <= b < |s| && s[b] == m[j];
      if m[i] == m[j] {
        OnceCount(s, m[i]);
        TwiceCount(m, i, j);
      }
    }
  }

  /** The picked proofs are spendable ones, each secret once. */
  lemma PickedFromSpendable(proofs: seq<Proof>, sat: nat, picked: seq<Proof>)
    requires Once(proofs) && Selected(proofs, sat) == Some(picked)
    ensures Once(picked) && Secrets(picked) <= Secrets(proofs)
  {
    SelectedFromHeld(proofs, sat);
    OnceInherited(proofs, picked);
  }

  lemma PresentOnce(w: Wallet, credits: nat, now: int)
    requires Once(Held(w))
    ensures Once(Held(Presented(w, credits, now))) && Secrets(Held(Presented(w, credits, now))) == Secrets(Held(w))
  {
    var flights := Flatten(w.inFlight);
    OnceAppend(w.proofs, flights);
    SecretsAppend(w.proofs, flights);
    if Handed(w, credits).Some? {
      var picked := Handed(w, credits).value;
      PickedFromSpendable(w.proofs, Cost(credits, w.creditSat), picked);
      var left := Keep(w.proofs, Secrets(picked));
      KeepFilters(w.proofs, Secrets(picked));
      FlattenAppend(w.inFlight, [InFlight(now, picked)]);
      assert Flatten([InFlight(now, picked)]) == picked + [];
      assert picked + [] == picked;
      OnceAppend(flights, picked);
      SecretsAppend(flights, picked);
      OnceAppend(left, flights + picked);
      SecretsAppend(left, flights + picked);
    }
  }

  /**
   Settling an answer about proofs that were in flight when asked, however
   the wallet changed since: no secret is held twice, every unspent proof is
   held afterwards, and only secrets reported spent can be missing.
   */
  lemma SettleOnce(w: Wallet, due: seq<Proof>, states: seq<MintState>)
    requires Once(Held(w)) && Once(due) && |due| == |states|
    ensures var w' := Settled(w, due, states);
            && Once(Held(w'))
            && Secrets(Held(w)) - Secrets(InState(due, states, Spent)) <= Secrets(Held(w'))
            && Secrets(InState(due, states, Unspent)) <= Secrets(Held(w'))
            && Secrets(Held(w')) <= Secrets(Held(w)) + Secrets(InState(due, states, Unspent))
  {
    if due == [] {
      return;
    }
    var unspent, spent, flights := InState(due, states, Unspent), InState(due, states, Spent), Flatten(w.inFlight);
    var back, rest := Keep(unspent, Secrets(w.proofs)), Keep(flights, Secrets(unspent + spent));
    OnceAppend(w.proofs, flights);
    SecretsAppend(w.proofs, flights);
    InStateFilters(due, states, Unspent);
    SecretsAppend(unspent, spent);
    KeepFlightsFilters(w.inFlight, Secrets(unspent + spent));
    KeepFilters(flights, Secrets(unspent + spent));
    KeepFilters(unspent, Secrets(w.proofs));
    OnceAppend(w.proofs, back);
    SecretsAppend(w.proofs, back);
    OnceAppend(w.proofs + back, rest);
    SecretsAppend(w.proofs + back, rest);
  }

  // ----- runs on one page

  datatype Action =
    | Receive(minted: seq<Proof>)
    | Present(credits: nat, at: int)
    | Ask(now: int, grace: int)
    | Answer(call: nat, states: seq<MintState>)
    | Price(ready: bool, creditSat: nat)
    | TopUp(pending: bool)

  /** The page: the wallet, and the questions put to the mint so far. */
  datatype Page = Page(wallet: Wallet, asked: seq<seq<Proof>>)

  /** The answer is to a question that was put, and of its length. */
  predicate Answers(p: Page, a: Action) {
    a.Answer? && a.call < |p.asked| && |a.states| == |p.asked[a.call]|
  }

  /** An answer may arrive at any time after its question, in any order, even twice. */
  function Act(p: Page, a: Action): Page {
    match a
    case Receive(minted) => p.(wallet := Received(p.wallet, minted))
    case Present(credits, at) => p.(wallet := Presented(p.wallet, credits, at))
    case Ask(now, grace) => p.(asked := p.asked + [Due(p.wallet.inFlight, now, grace)])
    case Answer(call, states) => if Answers(p, a) then p.(wallet := Settled(p.wallet, p.asked[call], states)) else p
    case Price(ready, creditSat) => p.(wallet := p.wallet.(ready := ready, creditSat := creditSat))
    case TopUp(pending) => p.(wallet := p.wallet.(pending := pending))
  }

  function Acts(p: Page, actions: seq<Action>): Page {
    if actions == [] then p else Act(Acts(p, actions[..|actions| - 1]), actions[|actions| - 1])
  }

  const NEW_PAGE := Page(Wallet(false, 0, [], [], false), [])

  /** No secret twice across spendable and in flight, and none twice in a question. */
  ghost predicate PageOk(p: Page) {
    Once(Held(p.wallet)) && forall k | 0 <= k < |p.asked| :: Once(p.asked[k])
  }

  /** What an action can take away: only the secrets that it reports spent. */
  ghost function ReportedSpent(p: Page, a: Action): set<string> {
    if Answers(p, a) then Secrets(InState(p.asked[a.call], a.states, Spent)) else {}
  }

  lemma ActKeepsOk(p: Page, a: Action)
    requires PageOk(p) && (a.Receive? ==> Once(a.minted))
    ensures PageOk(Act(p, a))
    ensures Secrets(Held(p.wallet)) - ReportedSpent(p, a) <= Secrets(Held(Act(p, a).wallet))
    ensures a.Receive? ==> Secrets(a.minted) <= Secrets(Held(Act(p, a).wallet))
  {
    var w := p.wallet;
    match a
    case Receive(minted) =>
      KeepFilters(minted, Secrets(Held(w)));
      ReceiveOnce(w, minted);
    case Present(credits, at) => PresentOnce(w, credits, at);
    case Ask(now, grace) => DueOnce(w, now, grace);
    case Answer(call, states) =>
      if Answers(p, a) {
        SettleOnce(w, p.asked[call], states);
      }
    case Price(_, _) =>
    case TopUp(_) =>
  }

  /** The `j`-th action answers a question about the proof with that secret: it is spent. */
  ghost predicate SpentAt(actions: seq<Action>, j: nat, secret: string)
    requires j < |actions|
  {
    var p, a := Acts(NEW_PAGE, actions[..j]), actions[j];
    a.Answer? && a.call < |p.asked| && |a.states| == |p.asked[a.call]|
    && exists k | 0 <= k < |a.states| :: a.states[k] == Spent && p.asked[a.call][k].secret == secret
  }

  lemma ReportedIsSpent(actions: seq<Action>, j: nat, secret: string)
    requires j < |actions| && secret in ReportedSpent(Acts(NEW_PAGE, actions[..j]), actions[j])
    ensures SpentAt(actions, j, secret)
  {
    var p, a := Acts(NEW_PAGE, actions[..j]), actions[j];
    var due := p.asked[a.call];
    InStateIs(due, a.states, Spent);
    var spent := InState(due, a.states, Spent);
    var i :| 0 <= i < |spent| && spent[i].secret == secret;
    assert spent[i] in spent;
    var k :| 0 <= k < |due| && due[k] == spent[i] && a.states[k] == Spent;
  }

  lemma {:induction false} RunKeepsOk(actions: seq<Action>, n: nat)
    requires n <= |actions| && forall a | a in actions && a.Receive? :: Once(a.minted)
    ensures PageOk(Acts(NEW_PAGE, actions[..n]))
  {
    if n > 0 {
      RunKeepsOk(actions, n - 1);
      assert actions[..n][..n - 1] == actions[..n - 1] && actions[n - 1] in actions;
      ActKeepsOk(Acts(NEW_PAGE, actions[..n - 1]), actions[n - 1]);
    }
  }

  /**
   On one page, whatever the interleaving: no secret is held twice, and every
   proof ever received is still held unless the mint reported it spent since.
   */
  lemma {:induction false} NothingLostNothingTwice(actions: seq<Action>, i: nat, n: nat, secret: string)
    requires forall a | a in actions && a.Receive? :: Once(a.minted)
    requires i < n <= |actions| && actions[i].Receive? && secret in Secrets(actions[i].minted)
    ensures Once(Held(Acts(NEW_PAGE, actions[..n]).wallet))
    ensures secret in Secrets(Held(Acts(NEW_PAGE, actions[..n]).wallet))
            || exists j | i < j < n :: SpentAt(actions, j, secret)
    decreases n
  {
    var p, a := Acts(NEW_PAGE, actions[..n - 1]), actions[n - 1];
    RunKeepsOk(actions, n - 1);
    assert actions[..n][..n - 1] == actions[..n - 1] && a in actions;
    ActKeepsOk(p, a);
    if i < n - 1 {
      NothingLostNothingTwice(actions, i, n - 1, secret);
      if secret in ReportedSpent(p, a) {
        ReportedIsSpent(actions, n - 1, secret);
      }
    }
  }
}
