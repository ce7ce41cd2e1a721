/** Paying with power-of-two proofs: denominations of a top-up and the greedy exact selection. */
module CashuSelect {
  import opened Wrappers
  import opened Arithmetic

  const STOCK_CREDITS: nat := 32

  datatype Proof = Proof(amount: nat, secret: string)

  function SumSat(proofs: seq<Proof>): nat {
    if proofs == [] then 0 else proofs[0].amount + SumSat(proofs[1..])
  }

  lemma {:induction false} SumSatAppend(a: seq<Proof>, b: seq<Proof>)
    ensures SumSat(a + b) == SumSat(a) + SumSat(b)
  {
    if a == [] {
      assert a + b == b;
    } else {
      SumSatAppend(a[1..], b);
      assert (a + b)[1..] == a[1..] + b;
    }
  }

  ghost predicate IsPowerOfTwo(n: nat) {
    exists k: nat :: n == Pow2(k)
  }

  ghost predicate PowerAmounts(proofs: seq<Proof>) {
    forall i | 0 <= i < |proofs| :: IsPowerOfTwo(proofs[i].amount)
  }

  predicate Descending(s: seq<Proof>) {
    forall i, j | 0 <= i < j < |s| :: s[i].amount >= s[j].amount
  }

  // ----- stable sort, largest amount first

  function Place(p: Proof, s: seq<Proof>): (r: seq<Proof>)
    requires Descending(s)
    ensures Descending(r) && |r| == |s| + 1
    ensures forall i | 0 <= i < |r| :: r[i] == p || r[i] in s
  {
    if s == [] || p.amount >= s[0].amount then [p] + s else [s[0]] + Place(p, s[1..])
  }

  lemma {:induction false} PlacePermutes(p: Proof, s: seq<Proof>)
    requires Descending(s)
    ensures multiset(Place(p, s)) == multiset(s) + multiset{p}
  {
    if s != [] && p.amount < s[0].amount {
      PlacePermutes(p, s[1..]);
      assert s == [s[0]] + s[1..];
    }
  }

  function Sorted(s: seq<Proof>): (r: seq<Proof>)
    ensures Descending(r) && multiset(r) == multiset(s)
  {
    if s == [] then []
    else
      assert s == [s[0]] + s[1..];
      PlacePermutes(s[0], Sorted(s[1..]));
      Place(s[0], Sorted(s[1..]))
  }

  // ----- greedy against all sub-multisets

  /** Some sublist of `s` is worth exactly `t`. */
  predicate Payable(s: seq<Proof>, t: int) {
    if s == [] then t == 0
    else Payable(s[1..], t) || (t >= s[0].amount && Payable(s[1..], t - s[0].amount))
  }

  /** Take each proof that still fits; the second part is what remains unpaid. */
  function Greedy(s: seq<Proof>, target: nat): (seq<Proof>, nat) {
    if s == [] then ([], target)
    else if s[0].amount <= target then
      var (picked, left) := Greedy(s[1..], target - s[0].amount);
      ([s[0]] + picked, left)
    else Greedy(s[1..], target)
  }

  lemma {:induction false} GreedyPays(s: seq<Proof>, target: nat)
    ensures SumSat(Greedy(s, target).0) + Greedy(s, target).1 == target
    ensures multiset(Greedy(s, target).0) <= multiset(s)
  {
    if s != [] {
      assert s == [s[0]] + s[1..];
      if s[0].amount <= target {
        GreedyPays(s[1..], target - s[0].amount);
        var picked := Greedy(s[1..], target - s[0].amount).0;
        assert ([s[0]] + picked)[1..] == picked;
      } else {
        GreedyPays(s[1..], target);
      }
    }
  }

  /** Every amount is a multiple of every later one. */
  ghost predicate Chain(s: seq<Proof>) {
    && (forall i | 0 <= i < |s| :: s[i].amount > 0)
    && (forall i, j | 0 <= i < j < |s| :: s[i].amount % s[j].amount == 0)
  }

  lemma PowersDivide(a: nat, b: nat)
    requires IsPowerOfTwo(a) && IsPowerOfTwo(b) && a >= b
    ensures b > 0 && a % b == 0
  {
    var i: nat :| a == Pow2(i);
    var j: nat :| b == Pow2(j);
    if i < j {
      Pow2Strict(i, j);
    }
    Pow2Add(i - j, j);
    DivModUnique(a, b, Pow2(i - j), 0);
  }

  lemma {:induction false} Pow2Strict(i: nat, j: nat)
    requires i < j
    ensures Pow2(i) < Pow2(j)
  {
    if i + 1 < j { Pow2Strict(i, j - 1); }
  }

  lemma DescendingPowersChain(s: seq<Proof>)
    requires Descending(s) && PowerAmounts(s)
    ensures Chain(s)
  {
    forall i | 0 <= i < |s| ensures s[i].amount > 0 {
      PowersDivide(s[i].amount, s[i].amount);
    }
    forall i, j | 0 <= i < j < |s| ensures s[i].amount % s[j].amount == 0 {
      PowersDivide(s[i].amount, s[j].amount);
    }
  }

  lemma MultipleOfMultiple(r: nat, x: nat, y: nat)
    requires x > 0 && y > 0 && r % x == 0 && x % y == 0
    ensures r % y == 0
  {
    var k, j := r / x, x / y;
    assert r == k * x && x == j * y;
    Associate(k, j, y);
    DivModUnique(r, y, k * j, 0);
  }

  lemma MultipleLess(r: nat, x: nat)
    requires x > 0 && r % x == 0 && r > 0
    ensures r >= x && (r - x) % x == 0
  {
    var k := r / x;
    assert r == k * x;
    Distribute(k, 1, x);
    DivModUnique(r - x, x, k - 1, 0);
  }

  /** From a payable amount one can take away any part that is a multiple of the largest proof. */
  lemma {:induction false} TakeAway(s: seq<Proof>, t: nat, r: nat)
    requires Chain(s) && Payable(s, t) && r <= t
    requires s != [] ==> r % s[0].amount == 0
    ensures Payable(s, t - r)
    decreases |s|
  {
    if s != [] && r > 0 {
      var x, rest := s[0].amount, s[1..];
      MultipleLess(r, x);
      if rest != [] {
        assert x % rest[0].amount == 0;
        MultipleOfMultiple(r, x, rest[0].amount);
        MultipleOfMultiple(r - x, x, rest[0].amount);
      }
      if Payable(rest, t) {
        TakeAway(rest, t, r);
      } else {
        TakeAway(rest, t - x, r - x);
      }
    }
  }

  /** Greedy pays exactly whenever any sublist does. */
  lemma {:induction false} GreedyComplete(s: seq<Proof>, t: nat)
    requires Chain(s) && Payable(s, t)
    ensures Greedy(s, t).1 == 0
  {
    if s != [] {
      var x, rest := s[0].amount, s[1..];
      if x <= t {
        if !Payable(rest, t - x) {
          assert Payable(rest, t);
          if rest != [] {
            assert x % rest[0].amount == 0;
          }
          TakeAway(rest, t, x);
        }
        GreedyComplete(rest, t - x);
      } else {
        GreedyComplete(rest, t);
      }
    }
  }

  function Removed(m: seq<Proof>, k: nat): seq<Proof>
    requires k < |m|
  {
    m[..k] + m[k + 1..]
  }

  lemma RemovedSum(m: seq<Proof>, k: nat)
    requires k < |m|
    ensures SumSat(m) == m[k].amount + SumSat(Removed(m, k))
  {
    SplitAround(m, k);
    InsertedSum(m[..k], m[k], m[k + 1..]);
  }

  lemma SplitAround(m: seq<Proof>, k: nat)
    requires k < |m|
    ensures m == m[..k] + ([m[k]] + m[k + 1..])
  {
  }

  lemma InsertedSum(a: seq<Proof>, p: Proof, b: seq<Proof>)
    ensures SumSat(a + ([p] + b)) == p.amount + SumSat(a + b)
  {
    SumSatAppend(a, [p] + b);
    SumSatAppend(a, b);
    assert ([p] + b)[1..] == b;
  }

  lemma RemovedOne(m: seq<Proof>, k: nat)
    requires k < |m|
    ensures SumSat(m) == m[k].amount + SumSat(Removed(m, k))
    ensures multiset(m) == multiset(Removed(m, k)) + multiset{m[k]}
  {
    RemovedSum(m, k);
    Rejoined(m[..k], m[k], m[k + 1..], m);
  }

  lemma Rejoined(a: seq<Proof>, p: Proof, b: seq<Proof>, m: seq<Proof>)
    requires |m| == |a| + 1 + |b| && m[..|a|] == a && m[|a|] == p && m[|a| + 1..] == b
    ensures multiset(m) == multiset(a + b) + multiset{p}
  {
    assert m == a + [p] + b;
  }

  lemma Cancel(a: multiset<Proof>, b: multiset<Proof>, p: Proof)
    requires a + multiset{p} <= b + multiset{p}
    ensures a <= b
  {
    forall x ensures a[x] <= b[x] {
      assert (a + multiset{p})[x] <= (b + multiset{p})[x];
    }
  }

  lemma Uncovered(m: seq<Proof>, s: seq<Proof>) returns (k: nat)
    requires s != [] && multiset(m) <= multiset(s) && !(multiset(m) <= multiset(s[1..]))
    ensures k < |m| && m[k] == s[0]
  {
    assert s == [s[0]] + s[1..];
    assert s[0] in multiset(m) by {
      var x :| multiset(m)[x] > multiset(s[1..])[x];
      assert x == s[0];
    }
    k :| k < |m| && m[k] == s[0];
  }

  /** Every sub-multiset is worth a payable amount. */
  lemma {:induction false} SubMultisetPayable(m: seq<Proof>, s: seq<Proof>)
    requires multiset(m) <= multiset(s)
    ensures Payable(s, SumSat(m))
    decreases |s|
  {
    if s == [] {
      assert |m| == |multiset(m)| == 0;
    } else if multiset(m) <= multiset(s[1..]) {
      SubMultisetPayable(m, s[1..]);
    } else {
      assert s == [s[0]] + s[1..];
      var k := Uncovered(m, s);
      RemovedOne(m, k);
      Cancel(multiset(Removed(m, k)), multiset(s[1..]), s[0]);
      SubMultisetPayable(Removed(m, k), s[1..]);
    }
  }

  // ----- selection

  /** The first target from `sat` up that greedy pays exactly. */
  function SelectFrom(sorted: seq<Proof>, target: nat, total: nat): Option<seq<Proof>>
    decreases total + 1 - target
  {
    if target > total then None
    else
      var (picked, left) := Greedy(sorted, target);
      if left == 0 then Some(picked) else SelectFrom(sorted, target + 1, total)
  }

  function Selected(proofs: seq<Proof>, sat: nat): Option<seq<Proof>> {
    SelectFrom(Sorted(proofs), sat, SumSat(Sorted(proofs)))
  }

  lemma {:induction false} SelectedAreHeld(sorted: seq<Proof>, target: nat, total: nat)
    ensures var r := SelectFrom(sorted, target, total);
            r.Some? ==> multiset(r.value) <= multiset(sorted) && SumSat(r.value) >= target
    decreases total + 1 - target
  {
    if target <= total {
      GreedyPays(sorted, target);
      if Greedy(sorted, target).1 != 0 { SelectedAreHeld(sorted, target + 1, total); }
    }
  }

  /** Whatever the amounts, a selection consists of held proofs and suffices. */
  lemma SelectedFromHeld(proofs: seq<Proof>, sat: nat)
    ensures Selected(proofs, sat).Some? ==> multiset(Selected(proofs, sat).value) <= multiset(proofs)
    ensures Selected(proofs, sat).Some? ==> SumSat(Selected(proofs, sat).value) >= sat
  {
    SelectedAreHeld(Sorted(proofs), sat, SumSat(Sorted(proofs)));
  }

  /** The inner loop of the selection. */
  method PickFitting(sorted: seq<Proof>, target: nat) returns (picked: seq<Proof>, left: nat)
    ensures (picked, left) == Greedy(sorted, target)
  {
    picked, left := [], target;
    assert sorted[0..] == sorted;
    assert [] + Greedy(sorted, target).0 == Greedy(sorted, target).0;
    for i := 0 to |sorted|
      invariant Greedy(sorted, target).0 == picked + Greedy(sorted[i..], left).0
      invariant Greedy(sorted, target).1 == Greedy(sorted[i..], left).1
    {
      assert sorted[i..][1..] == sorted[i + 1..];
      if sorted[i].amount <= left {
        ghost var rest := Greedy(sorted[i + 1..], left - sorted[i].amount).0;
        assert picked + ([sorted[i]] + rest) == (picked + [sorted[i]]) + rest;
        picked, left := picked + [sorted[i]], left - sorted[i].amount;
      }
    }
    assert picked + [] == picked;
  }

  method SelectProofs(proofs: seq<Proof>, sat: nat) returns (r: Option<seq<Proof>>)
    ensures r == Selected(proofs, sat)
  {
    var sorted := Sorted(proofs);
    var total := SumSat(sorted);
    var target := sat;
    while target <= total
      invariant SelectFrom(sorted, sat, total) == SelectFrom(sorted, target, total)
      decreases if target <= total then total - target + 1 else 0
    {
      var picked, left := PickFitting(sorted, target);
      if left == 0 {
        return Some(picked);
      }
      target := target + 1;
    }
    return None;
  }

  lemma {:induction false} SelectFromBest(sorted: seq<Proof>, target: nat, total: nat)
    requires Chain(sorted) && total == SumSat(sorted)
    ensures SelectFrom(sorted, target, total).None? <==> target > total
    ensures SelectFrom(sorted, target, total).Some? ==>
              var sum := SumSat(SelectFrom(sorted, target, total).value);
              sum >= target && forall t: nat | target <= t && Payable(sorted, t) :: sum <= t
    decreases total + 1 - target
  {
    if target <= total {
      GreedyPays(sorted, target);
      if Greedy(sorted, target).1 != 0 {
        if Payable(sorted, target) { GreedyComplete(sorted, target); }
        if target == total { SubMultisetPayable(sorted, sorted); }
        SelectFromBest(sorted, target + 1, total);
        assert forall t: nat | target <= t && Payable(sorted, t) :: t >= target + 1;
      }
    }
  }

  lemma {:induction false} SumSatByMultiset(a: seq<Proof>, b: seq<Proof>)
    requires multiset(a) == multiset(b)
    ensures SumSat(a) == SumSat(b)
    decreases |a|
  {
    if a != [] {
      assert a[0] in multiset(b);
      var k :| 0 <= k < |b| && b[k] == a[0];
      assert a == [a[0]] + a[1..];
      RemovedOne(b, k);
      Cancel(multiset(Removed(b, k)), multiset(a[1..]), a[0]);
      Cancel(multiset(a[1..]), multiset(Removed(b, k)), a[0]);
      SumSatByMultiset(a[1..], Removed(b, k));
    } else {
      assert |b| == |multiset(b)| == |multiset(a)| == 0;
    }
  }

  /**
   For power-of-two proofs the selection is a sub-multiset with the least
   value that reaches `sat`, and there is none exactly when the balance is short.
   */
  lemma SelectionIsBest(proofs: seq<Proof>, sat: nat)
    requires PowerAmounts(proofs)
    ensures Selected(proofs, sat).None? <==> SumSat(proofs) < sat
    ensures Selected(proofs, sat).Some? ==>
              var picked := Selected(proofs, sat).value;
              && multiset(picked) <= multiset(proofs)
              && SumSat(picked) >= sat
              && forall m: seq<Proof> | multiset(m) <= multiset(proofs) && SumSat(m) >= sat ::
                SumSat(picked) <= SumSat(m)
  {
    var sorted := Sorted(proofs);
    SumSatByMultiset(sorted, proofs);
    forall i | 0 <= i < |sorted| ensures IsPowerOfTwo(sorted[i].amount) {
      assert sorted[i] in multiset(proofs);
    }
    DescendingPowersChain(sorted);
    SelectFromBest(sorted, sat, SumSat(sorted));
    SelectedAreHeld(sorted, sat, SumSat(sorted));
    forall m: seq<Proof> | multiset(m) <= multiset(proofs) && SumSat(m) >= sat ensures Payable(sorted, SumSat(m)) {
      SubMultisetPayable(m, sorted);
    }
  }

  /** With other amounts the greedy search overpays: 6 is 3 + 3, but it settles on 4 + 3. */
  lemma GreedyNeedsPowers()
    ensures var proofs := [Proof(4, "a"), Proof(3, "b"), Proof(3, "c")];
            Payable(proofs, 6) && Greedy(proofs, 6).1 != 0 && Greedy(proofs, 7).1 == 0
  {
    var proofs := [Proof(4, "a"), Proof(3, "b"), Proof(3, "c")];
    var rest := proofs[1..];
    assert rest == [Proof(3, "b"), Proof(3, "c")] && rest[1..] == [Proof(3, "c")] && rest[1..][1..] == [];
    assert Payable(rest[1..][1..], 0) && Payable(rest[1..], 3) && Payable(rest, 6);
    assert Greedy(rest[1..], 2) == ([], 2) && Greedy(rest, 2) == ([], 2);
    assert Greedy(rest[1..], 0) == ([], 0) && Greedy(rest, 3).1 == 0;
  }

  // ----- denominations

  function Sum(ns: seq<nat>): nat {
    if ns == [] then 0 else ns[0] + Sum(ns[1..])
  }

  lemma {:induction false} SumAppend(a: seq<nat>, b: seq<nat>)
    ensures Sum(a + b) == Sum(a) + Sum(b)
  {
    if a == [] {
      assert a + b == b;
    } else {
      SumAppend(a[1..], b);
      assert (a + b)[1..] == a[1..] + b;
    }
  }

  /** Distinct powers of two, largest first. */
  ghost predicate BinaryDigits(r: seq<nat>) {
    && (forall i | 0 <= i < |r| :: IsPowerOfTwo(r[i]))
    && (forall i, j | 0 <= i < j < |r| :: r[i] > r[j])
  }

  /** The binary representation of `n`: find the top bit, then subtract each bit that fits. */
  method BinarySplit(n: nat) returns (r: seq<nat>)
    ensures Sum(r) == n && BinaryDigits(r)
  {
    var bit: nat := 1;
    ghost var k: nat := 0;
    while bit * 2 <= n
      invariant bit == Pow2(k)
      decreases n - bit
    {
      bit, k := bit * 2, k + 1;
    }
    r := [];
    var left: nat := n;
    while left > 0
      invariant left > 0 ==> bit == Pow2(k) && left < 2 * bit && forall i | 0 <= i < |r| :: r[i] > bit
      invariant Sum(r) + left == n && BinaryDigits(r)
      decreases left, k
    {
      if left >= bit {
        assert IsPowerOfTwo(bit);
        SumAppend(r, [bit]);
        r, left := r + [bit], left - bit;
      }
      bit := bit / 2;
      if k > 0 { k := k - 1; }
    }
  }

  function Repeat(s: seq<nat>, n: nat): seq<nat> {
    if n == 0 then [] else s + Repeat(s, n - 1)
  }

  lemma {:induction false} RepeatSum(s: seq<nat>, n: nat)
    ensures Sum(Repeat(s, n)) == n * Sum(s)
  {
    if n > 0 {
      RepeatSum(s, n - 1);
      SumAppend(s, Repeat(s, n - 1));
      Distribute(n - 1, 1, Sum(s));
    }
  }

  lemma {:induction false} RepeatSplits(s: seq<nat>, c: nat, n: nat)
    requires c <= n
    ensures Repeat(s, n) == Repeat(s, c) + Repeat(s, n - c)
  {
    if c > 0 {
      RepeatSplits(s, c - 1, n - 1);
      assert s + (Repeat(s, c - 1) + Repeat(s, n - c)) == (s + Repeat(s, c - 1)) + Repeat(s, n - c);
    }
  }

  lemma {:induction false} RepeatPowers(s: seq<nat>, n: nat)
    requires forall i | 0 <= i < |s| :: IsPowerOfTwo(s[i])
    ensures forall i | 0 <= i < |Repeat(s, n)| :: IsPowerOfTwo(Repeat(s, n)[i])
  {
    if n > 0 { RepeatPowers(s, n - 1); }
  }

  /** What credits cost in sat. */
  function Cost(credits: nat, creditSat: nat): nat {
    MulMonotone(0, credits, creditSat);
    credits * creditSat
  }

  /** The most credits, 32 at most, that the amount covers; a zero price stocks none. */
  function StockedCredits(sat: nat, creditSat: nat): (r: nat)
    ensures r * creditSat <= sat && r <= 32
    ensures creditSat > 0 ==> forall c: nat | c <= 32 && c * creditSat <= sat :: c <= r
  {
    if creditSat == 0 then 0
    else
      var whole := sat / creditSat;
      StockCovers(sat, creditSat);
      if whole < STOCK_CREDITS then whole else STOCK_CREDITS
  }

  lemma StockCovers(sat: nat, creditSat: nat)
    requires creditSat > 0
    ensures forall c: nat | c <= sat / creditSat :: c * creditSat <= sat
    ensures forall c: nat | c * creditSat <= sat :: c <= sat / creditSat
  {
    var whole := sat / creditSat;
    assert sat == whole * creditSat + sat % creditSat;
    forall c: nat | c <= whole ensures c * creditSat <= sat {
      MulMonotone(c, whole, creditSat);
    }
    forall c: nat | c * creditSat <= sat ensures c <= whole {
      if c > whole {
        MulMonotone(whole + 1, c, creditSat);
        Distribute(whole, 1, creditSat);
      }
    }
  }

  function Amounts(proofs: seq<Proof>): seq<nat> {
    seq(|proofs|, i requires 0 <= i < |proofs| => proofs[i].amount)
  }

  lemma {:induction false} SumOfAmounts(proofs: seq<Proof>)
    ensures Sum(Amounts(proofs)) == SumSat(proofs)
  {
    if proofs != [] {
      SumOfAmounts(proofs[1..]);
      assert Amounts(proofs)[1..] == Amounts(proofs[1..]);
    }
  }

  /** The first proofs of a stock are worth `c` credits. */
  lemma StockPart(stock: seq<Proof>, credit: seq<nat>, credits: nat, creditSat: nat, c: nat) returns (m: seq<Proof>)
    requires Sum(credit) == creditSat && Repeat(credit, credits) <= Amounts(stock) && c <= credits
    ensures multiset(m) <= multiset(stock) && SumSat(m) == c * creditSat
  {
    RepeatSplits(credit, c, credits);
    RepeatSum(credit, c);
    m := stock[..|Repeat(credit, c)|];
    forall i | 0 <= i < |m| ensures m[i].amount == Repeat(credit, c)[i] {
      assert Amounts(stock)[i] == Repeat(credit, credits)[i];
    }
    assert Amounts(m) == Repeat(credit, c);
    SumOfAmounts(m);
    assert stock == m + stock[|m|..];
  }

  /**
   A wallet that holds the proofs of a top-up, and any other power-of-two
   proofs, pays every whole number of credits up to the stocked count exactly.
   */
  lemma StockPaysExactly(proofs: seq<Proof>, stock: seq<Proof>, credit: seq<nat>, credits: nat, creditSat: nat, c: nat)
    requires PowerAmounts(proofs) && multiset(stock) <= multiset(proofs)
    requires Sum(credit) == creditSat && Repeat(credit, credits) <= Amounts(stock) && c <= credits
    ensures Selected(proofs, c * creditSat).Some? && SumSat(Selected(proofs, c * creditSat).value) == c * creditSat
  {
    var m := StockPart(stock, credit, credits, creditSat, c);
    SubMultisetPayable(m, proofs);
    PayableAtMost(proofs, SumSat(m));
    SelectionIsBest(proofs, c * creditSat);
  }

  lemma {:induction false} PayableAtMost(s: seq<Proof>, t: nat)
    requires Payable(s, t)
    ensures t <= SumSat(s)
  {
    if s != [] {
      if Payable(s[1..], t) { PayableAtMost(s[1..], t); } else { PayableAtMost(s[1..], t - s[0].amount); }
    }
  }

  /** Credit-sized groups of powers of two, at most 32 of them, and then powers of two for the rest. */
  ghost predicate Stocks(r: seq<nat>, sat: nat, creditSat: nat, credit: seq<nat>, credits: nat) {
    && Sum(credit) == creditSat && credits <= 32 && credits * creditSat <= sat && Repeat(credit, credits) <= r
    && BinaryDigits(credit) && BinaryDigits(r[|Repeat(credit, credits)|..])
    && (creditSat > 0 ==> forall c: nat | c <= 32 && c * creditSat <= sat :: c <= credits)
  }

  /** A wallet of powers of two with these proofs in it. */
  ghost predicate Holds(proofs: seq<Proof>, stock: seq<Proof>) {
    PowerAmounts(proofs) && multiset(stock) <= multiset(proofs)
  }

  /** A wallet of powers of two with proofs of these amounts pays that many sat exactly. */
  ghost predicate PaidExactly(r: seq<nat>, sat: nat) {
    forall proofs, stock | Holds(proofs, stock) && Amounts(stock) == r ::
      Selected(proofs, sat).Some? && SumSat(Selected(proofs, sat).value) == sat
  }

  /** A wallet that holds such proofs pays every number of credits exactly that `sat` covers, up to 32. */
  ghost predicate PaysCredits(r: seq<nat>, sat: nat, creditSat: nat) {
    forall c: nat | c <= 32 && Cost(c, creditSat) <= sat :: PaidExactly(r, Cost(c, creditSat))
  }

  /** Powers of two worth `sat` in total, with which credits can be paid exactly. */
  method PlanDenominations(sat: nat, creditSat: nat) returns (r: seq<nat>)
    ensures Sum(r) == sat && (forall i | 0 <= i < |r| :: IsPowerOfTwo(r[i]))
    ensures exists credit, credits :: Stocks(r, sat, creditSat, credit, credits)
    ensures creditSat > 0 ==> PaysCredits(r, sat, creditSat)
  {
    var credits := StockedCredits(sat, creditSat);
    var credit := BinarySplit(creditSat);
    var rest := BinarySplit(sat - credits * creditSat);
    r := Repeat(credit, credits) + rest;
    Denominated(r, sat, creditSat, credit, credits, rest);
  }

  lemma Denominated(r: seq<nat>, sat: nat, creditSat: nat, credit: seq<nat>, credits: nat, rest: seq<nat>)
    requires credits == StockedCredits(sat, creditSat) && Sum(credit) == creditSat && BinaryDigits(credit)
    requires Sum(rest) == sat - credits * creditSat && BinaryDigits(rest) && r == Repeat(credit, credits) + rest
    ensures Sum(r) == sat && (forall i | 0 <= i < |r| :: IsPowerOfTwo(r[i]))
    ensures Stocks(r, sat, creditSat, credit, credits)
    ensures creditSat > 0 ==> PaysCredits(r, sat, creditSat)
  {
    RepeatSum(credit, credits);
    RepeatPowers(credit, credits);
    SumAppend(Repeat(credit, credits), rest);
    assert r[|Repeat(credit, credits)|..] == rest;
    if creditSat > 0 {
      StockPaysAll(r, sat, creditSat, credit, credits);
    }
  }

  lemma StockPaysAll(r: seq<nat>, sat: nat, creditSat: nat, credit: seq<nat>, credits: nat)
    requires creditSat > 0 && Stocks(r, sat, creditSat, credit, credits)
    ensures PaysCredits(r, sat, creditSat)
  {
    forall c: nat | c <= 32 && Cost(c, creditSat) <= sat ensures PaidExactly(r, Cost(c, creditSat)) {
      StockPays(r, sat, creditSat, credit, credits, c);
    }
  }

  lemma StockPays(r: seq<nat>, sat: nat, creditSat: nat, credit: seq<nat>, credits: nat, c: nat)
    requires Stocks(r, sat, creditSat, credit, credits) && c <= credits
    ensures PaidExactly(r, Cost(c, creditSat))
  {
    forall proofs, stock | Holds(proofs, stock) && Amounts(stock) == r
      ensures var picked := Selected(proofs, Cost(c, creditSat));
              picked.Some? && SumSat(picked.value) == Cost(c, creditSat)
    {
      StockPaysExactly(proofs, stock, credit, credits, creditSat, c);
    }
  }
}
