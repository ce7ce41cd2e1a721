/** Running a sync plan step by step over a cached snapshot per script, with one persisted height. */
module SyncController {
  import opened Wrappers
  import opened Codec
  import opened SyncPlan
  import opened SyncMerge

  type ScriptHash = Bytes

  /** The chain: each script's UTXO set at each height. */
  type World = (nat, ScriptHash) -> UtxoSet

  /** One step's answers, one per script. */
  type Answers = seq<Snapshot>

  /** A checkpoint replaces every snapshot, a delta is merged into each. */
  function Stepped(merged: Answers, step: Database, answers: Answers): Answers
    requires |merged| == |answers|
  {
    if step.kind == 0 then answers
    else seq(|merged|, i requires 0 <= i < |merged| => Merged(merged[i], answers[i]))
  }

  predicate Sized(n: nat, steps: seq<Database>, answers: seq<Answers>) {
    |steps| == |answers| && forall i | 0 <= i < |answers| :: |answers[i]| == n
  }

  function Executed(merged: Answers, steps: seq<Database>, answers: seq<Answers>): (r: Answers)
    requires Sized(|merged|, steps, answers)
    ensures |r| == |merged|
  {
    if steps == [] then merged
    else
      var n := |steps| - 1;
      Stepped(Executed(merged, steps[..n], answers[..n]), steps[n], answers[n])
  }

  function Cached(cache: map<ScriptHash, QueryResult>, hashes: seq<ScriptHash>): Answers {
    seq(|hashes|, i requires 0 <= i < |hashes| => if hashes[i] in cache then Some(cache[hashes[i]]) else None)
  }

  /** Non-null results overwrite the cache in list order. */
  function Committed(cache: map<ScriptHash, QueryResult>, hashes: seq<ScriptHash>,
                     merged: Answers): map<ScriptHash, QueryResult>
    requires |hashes| == |merged|
  {
    if hashes == [] then cache
    else
      var n := |hashes| - 1;
      var before := Committed(cache, hashes[..n], merged[..n]);
      if merged[n].Some? then before[hashes[n] := merged[n].value] else before
  }

  /** What the controller keeps: a snapshot per script, and one height for all of them, zero when there is none. */
  datatype Book = Book(cache: map<ScriptHash, QueryResult>, persisted: nat)

  /** The height a sync of these scripts starts from. */
  function Effective(b: Book, hashes: seq<ScriptHash>): nat {
    if hashes != [] && forall i | 0 <= i < |hashes| :: hashes[i] in b.cache then b.persisted else 0
  }

  /** After a sync; one with an answer list of the wrong length changes nothing. */
  function Synced(b: Book, plan: Plan, hashes: seq<ScriptHash>, answers: seq<Answers>): Book {
    if Sized(|hashes|, plan.steps, answers) then
      Book(Committed(b.cache, hashes, Executed(Cached(b.cache, hashes), plan.steps, answers)), plan.targetHeight)
    else b
  }

  class Controller {
    var cache: map<ScriptHash, QueryResult>
    /** The stored height; zero when there is none. */
    var persisted: nat

    constructor ()
      ensures cache == map[] && persisted == 0
    {
      cache, persisted := map[], 0;
    }

    ghost function State(): Book
      reads this
    {
      Book(cache, persisted)
    }

    /**
     The persisted height counts only when every requested script has a
     snapshot in memory; a plan can be run from the height it starts at.
     */
    method ComputePlan(catalog: seq<Database>, hashes: seq<ScriptHash>) returns (r: Result<Plan, PlanError>)
      ensures PlanFor(catalog, Effective(State(), hashes), r)
      ensures r.Ok? ==> Runnable(State(), hashes, r.value)
    {
      var cacheComplete := |hashes| > 0 && forall i | 0 <= i < |hashes| :: hashes[i] in cache;
      var effective := if persisted > 0 && !cacheComplete then 0 else persisted;
      r := ComputeSyncPlan(catalog, effective);
      if r.Ok? {
        PlanIsRunnable(State(), catalog, hashes, r.value);
      }
    }

    /**
     Runs the plan; `answers[i]` is what the backend returned for step `i`,
     as far as it returned; a step that failed, or a list of the wrong
     length, aborts without touching the state.
     */
    method Execute(plan: Plan, hashes: seq<ScriptHash>, answers: seq<Answers>) returns (r: Option<Answers>)
      requires |answers| <= |plan.steps|
      modifies this
      ensures r.Some? <==> Sized(|hashes|, plan.steps, answers)
      ensures r.Some? ==> r.value == Executed(Cached(old(cache), hashes), plan.steps, answers)
      ensures State() == Synced(old(State()), plan, hashes, answers)
    {
      var n := |hashes|;
      var merged := Cached(cache, hashes);
      for si := 0 to |plan.steps|
        invariant si <= |answers| && Sized(n, plan.steps[..si], answers[..si]) && |merged| == n
        invariant merged == Executed(Cached(cache, hashes), plan.steps[..si], answers[..si])
        invariant cache == old(cache) && persisted == old(persisted)
      {
        if si == |answers| {
          return None;
        }
        var step, results := plan.steps[si], answers[si];
        if |results| != n {
          return None;
        }
        assert plan.steps[..si + 1][..si] == plan.steps[..si] && answers[..si + 1][..si] == answers[..si];
        if step.kind == 0 {
          merged := results;
        } else {
          merged := MergeAll(merged, results);
        }
      }
      assert plan.steps[..|plan.steps|] == plan.steps && answers[..|answers|] == answers;
      for qi := 0 to n
        invariant cache == Committed(old(cache), hashes[..qi], merged[..qi]) && persisted == old(persisted)
      {
        assert hashes[..qi + 1][..qi] == hashes[..qi] && merged[..qi + 1][..qi] == merged[..qi];
        if merged[qi].Some? {
          cache := cache[hashes[qi] := merged[qi].value];
        }
      }
      assert hashes[..n] == hashes && merged[..n] == merged;
      persisted := plan.targetHeight;
      return Some(merged);
    }

    method Reset()
      modifies this
      ensures cache == map[] && persisted == 0
    {
      cache, persisted := map[], 0;
    }
  }

  /** The delta branch of one step. */
  method MergeAll(merged: Answers, results: Answers) returns (r: Answers)
    requires |merged| == |results|
    ensures r == seq(|merged|, i requires 0 <= i < |merged| => Merged(merged[i], results[i]))
  {
    r := merged;
    for qi := 0 to |merged|
      invariant |r| == |merged|
      invariant forall i | 0 <= i < qi :: r[i] == Merged(merged[i], results[i])
      invariant forall i | qi <= i < |merged| :: r[i] == merged[i]
    {
      var one := MergeDeltaIntoSnapshot(r[qi], results[qi]);
      r := r[qi := one];
    }
  }

  // ----- plans run from one height to another

  /** Each delta starts where the previous step ended; a checkpoint starts anywhere. */
  ghost predicate Contiguous(steps: seq<Database>, start: nat, target: nat) {
    if steps == [] then start == target
    else
      var last := steps[|steps| - 1];
      last.height == target && (last.kind == 0 || Contiguous(steps[..|steps| - 1], start, last.baseHeight))
  }

  lemma {:induction false} ChainIsContiguous(deltas: seq<Database>, chain: Chain, from: nat, to: nat)
    requires Leads(deltas, chain, from, to)
    ensures Contiguous(chain, from, to)
  {
    if chain != [] {
      LeadsButLast(deltas, chain, from, to);
      ChainIsContiguous(deltas, chain[..|chain| - 1], from, chain[|chain| - 1].baseHeight);
    }
  }

  lemma {:induction false} CheckpointFirst(full: Database, deltas: seq<Database>, chain: Chain, start: nat, to: nat)
    requires full.kind == 0 && Leads(deltas, chain, full.height, to)
    ensures Contiguous([full] + chain, start, to)
    decreases |chain|
  {
    var steps := [full] + chain;
    if chain != [] {
      LeadsButLast(deltas, chain, full.height, to);
      CheckpointFirst(full, deltas, chain[..|chain| - 1], start, chain[|chain| - 1].baseHeight);
      assert steps[..|steps| - 1] == [full] + chain[..|chain| - 1];
    }
  }

  lemma PlanIsContiguous(catalog: seq<Database>, last: nat, p: Plan)
    requires IsPlan(catalog, last, p)
    ensures Contiguous(p.steps, last, p.targetHeight)
  {
    var deltas := OfKind(catalog, 1);
    if UpToDate(catalog, last) {
    } else if CatchesUp(catalog, last) {
      ChainIsContiguous(deltas, p.steps, last, p.targetHeight);
    } else {
      assert p.steps == [p.steps[0]] + p.steps[1..];
      CheckpointFirst(p.steps[0], deltas, p.steps[1..], last, p.targetHeight);
    }
  }

  /** The plan runs from the height the book is effectively at, or begins with a checkpoint. */
  ghost predicate Runnable(b: Book, hashes: seq<ScriptHash>, p: Plan) {
    var start := Effective(b, hashes);
    Contiguous(p.steps, start, p.targetHeight) && (start == 0 ==> p.steps != [] && p.steps[0].kind == 0)
  }

  lemma PlanIsRunnable(b: Book, catalog: seq<Database>, hashes: seq<ScriptHash>, p: Plan)
    requires IsPlan(catalog, Effective(b, hashes), p)
    ensures Runnable(b, hashes, p)
  {
    PlanIsContiguous(catalog, Effective(b, hashes), p);
  }

  // ----- end to end

  /** A step answered truly: a checkpoint shows its height, a delta the change between its two heights. */
  ghost predicate Truthful(world: World, hashes: seq<ScriptHash>, step: Database, answers: Answers) {
    |answers| == |hashes| && forall i | 0 <= i < |hashes| ::
      if step.kind == 0 then Shows(answers[i], world(step.height, hashes[i]))
      else ShowsChange(answers[i], world(step.baseHeight, hashes[i]), world(step.height, hashes[i]))
  }

  ghost predicate AllTruthful(world: World, hashes: seq<ScriptHash>, steps: seq<Database>, answers: seq<Answers>) {
    |answers| == |steps| && forall i | 0 <= i < |steps| :: Truthful(world, hashes, steps[i], answers[i])
  }

  ghost predicate ShowAll(world: World, height: nat, hashes: seq<ScriptHash>, merged: Answers) {
    |merged| == |hashes| && forall i | 0 <= i < |hashes| :: Shows(merged[i], world(height, hashes[i]))
  }

  /**
   Executing a contiguous plan over truthful answers, from snapshots at the
   start height (or from anything, when the plan begins with a checkpoint),
   yields every script's UTXO set at the target height, its total, or a whale.
   */
  lemma {:induction false} ExecuteShowsTarget(world: World, hashes: seq<ScriptHash>, merged: Answers,
                                              steps: seq<Database>, answers: seq<Answers>, start: nat, target: nat)
    requires |merged| == |hashes| && Contiguous(steps, start, target) && AllTruthful(world, hashes, steps, answers)
    requires ShowAll(world, start, hashes, merged) || (steps != [] && steps[0].kind == 0)
    ensures Sized(|merged|, steps, answers)
    ensures ShowAll(world, target, hashes, Executed(merged, steps, answers))
  {
    if steps != [] {
      var n := |steps| - 1;
      var last, result := steps[n], answers[n];
      assert Truthful(world, hashes, last, result);
      assert Sized(|merged|, steps, answers) by {
        forall i | 0 <= i < |answers|
          ensures |answers[i]| == |merged|
        {
          assert Truthful(world, hashes, steps[i], answers[i]);
        }
      }
      if last.kind != 0 {
        assert n > 0 ==> steps[..n][0] == steps[0];
        ExecuteShowsTarget(world, hashes, merged, steps[..n], answers[..n], start, last.baseHeight);
        var before := Executed(merged, steps[..n], answers[..n]);
        forall i | 0 <= i < |hashes| ensures Shows(Merged(before[i], result[i]), world(target, hashes[i])) {
          MergeShowsNew(before[i], result[i], world(last.baseHeight, hashes[i]), world(target, hashes[i]));
        }
      }
    }
  }

  /** Every cached snapshot shows its script at the given height. */
  ghost predicate CacheAt(world: World, height: nat, cache: map<ScriptHash, QueryResult>) {
    forall sh | sh in cache :: Shows(Some(cache[sh]), world(height, sh))
  }

  /** A sync starting from a cache at the persisted height returns true results, whatever plan was computed. */
  lemma SyncShowsTarget(world: World, b: Book, hashes: seq<ScriptHash>, plan: Plan, answers: seq<Answers>)
    requires CacheAt(world, b.persisted, b.cache) && Runnable(b, hashes, plan)
    requires AllTruthful(world, hashes, plan.steps, answers)
    ensures Sized(|hashes|, plan.steps, answers)
    ensures ShowAll(world, plan.targetHeight, hashes, Executed(Cached(b.cache, hashes), plan.steps, answers))
  {
    ExecuteShowsTarget(world, hashes, Cached(b.cache, hashes), plan.steps, answers, Effective(b, hashes),
                       plan.targetHeight);
  }

  /** A script that this run gave a new snapshot. */
  ghost predicate Refreshed(hashes: seq<ScriptHash>, merged: Answers, sh: ScriptHash)
    requires |hashes| == |merged|
  {
    exists i | 0 <= i < |hashes| :: hashes[i] == sh && merged[i].Some?
  }

  lemma {:induction false} CommittedAt(world: World, target: nat, cache: map<ScriptHash, QueryResult>,
                                       hashes: seq<ScriptHash>, merged: Answers, sh: ScriptHash)
    requires ShowAll(world, target, hashes, merged)
    ensures var after := Committed(cache, hashes, merged);
            if Refreshed(hashes, merged, sh) then sh in after && Shows(Some(after[sh]), world(target, sh))
            else (sh in after <==> sh in cache) && (sh in cache ==> after[sh] == cache[sh])
    decreases |hashes|
  {
    if hashes != [] {
      var n := |hashes| - 1;
      CommittedAt(world, target, cache, hashes[..n], merged[..n], sh);
      assert hashes[n] == sh && merged[n].Some? ==> Shows(merged[n], world(target, sh));
      if Refreshed(hashes[..n], merged[..n], sh) {
        var i :| 0 <= i < n && hashes[..n][i] == sh && merged[..n][i].Some?;
        assert hashes[i] == sh && merged[i].Some?;
      }
      if Refreshed(hashes, merged, sh) && !(hashes[n] == sh && merged[n].Some?) {
        var i :| 0 <= i < |hashes| && hashes[i] == sh && merged[i].Some?;
        assert hashes[..n][i] == sh && merged[..n][i].Some?;
      }
    }
  }

  /** Every cached script without a new snapshot (not in the list, or a null result) is a whale or has not changed. */
  ghost predicate StaysFresh(world: World, b: Book, target: nat, hashes: seq<ScriptHash>, merged: Answers)
    requires |hashes| == |merged|
  {
    forall sh | sh in b.cache && !Refreshed(hashes, merged, sh) ::
      b.cache[sh].isWhale || world(b.persisted, sh) == world(target, sh)
  }

  /** After a run the cache is again at the persisted height if and only if it stays fresh. */
  lemma CacheFollowsHeight(world: World, cache: map<ScriptHash, QueryResult>, persisted: nat, target: nat,
                           hashes: seq<ScriptHash>, merged: Answers)
    requires CacheAt(world, persisted, cache) && ShowAll(world, target, hashes, merged)
    ensures CacheAt(world, target, Committed(cache, hashes, merged)) <==>
            StaysFresh(world, Book(cache, persisted), target, hashes, merged)
  {
    var after := Committed(cache, hashes, merged);
    forall sh ensures sh in after ==> Refreshed(hashes, merged, sh) || sh in cache {
      CommittedAt(world, target, cache, hashes, merged, sh);
    }
    forall sh | sh in cache && !Refreshed(hashes, merged, sh)
      ensures sh in after
              && (Shows(Some(after[sh]), world(target, sh)) <==>
                  cache[sh].isWhale || world(persisted, sh) == world(target, sh))
    {
      CommittedAt(world, target, cache, hashes, merged, sh);
      if !cache[sh].isWhale && Shows(Some(cache[sh]), world(target, sh)) {
        ListsOne(cache[sh].entries, world(persisted, sh), world(target, sh));
      }
    }
    forall sh | sh in after && Refreshed(hashes, merged, sh) ensures Shows(Some(after[sh]), world(target, sh)) {
      CommittedAt(world, target, cache, hashes, merged, sh);
    }
  }

  // ----- runs of syncs

  /** One turn of the client: a catalog, a list of scripts, the plan computed for them and the backend's answers. */
  datatype Sync =
    Sync(catalog: seq<Database>, hashes: seq<ScriptHash>, plan: Result<Plan, PlanError>, answers: seq<Answers>)

  predicate Completes(s: Sync) {
    s.plan.Ok? && Sized(|s.hashes|, s.plan.value.steps, s.answers)
  }

  function Turned(b: Book, s: Sync): Book {
    if s.plan.Ok? then Synced(b, s.plan.value, s.hashes, s.answers) else b
  }

  /** What a completed sync returns. */
  function Shown(b: Book, s: Sync): (r: Answers)
    requires Completes(s)
    ensures |r| == |s.hashes|
  {
    Executed(Cached(b.cache, s.hashes), s.plan.value.steps, s.answers)
  }

  /** The plan is the computed one, and the answers of a completed sync are true. */
  ghost predicate Honest(world: World, b: Book, s: Sync) {
    && PlanFor(s.catalog, Effective(b, s.hashes), s.plan)
    && (Completes(s) ==> AllTruthful(world, s.hashes, s.plan.value.steps, s.answers))
  }

  ghost predicate IsRun(world: World, books: seq<Book>, syncs: seq<Sync>) {
    && |books| == |syncs| + 1
    && forall j | 0 <= j < |syncs| :: Honest(world, books[j], syncs[j]) && books[j + 1] == Turned(books[j], syncs[j])
  }

  ghost predicate BookTrue(world: World, b: Book) { CacheAt(world, b.persisted, b.cache) }

  ghost predicate TurnFresh(world: World, b: Book, s: Sync) {
    Completes(s) ==> StaysFresh(world, b, s.plan.value.targetHeight, s.hashes, Shown(b, s))
  }

  /** One turn from a true book: the results are true, and the book stays true exactly if the turn is fresh. */
  lemma TurnKeepsBook(world: World, b: Book, s: Sync)
    requires BookTrue(world, b) && Honest(world, b, s)
    ensures Completes(s) ==> ShowAll(world, s.plan.value.targetHeight, s.hashes, Shown(b, s))
    ensures BookTrue(world, Turned(b, s)) <==> TurnFresh(world, b, s)
  {
    if Completes(s) {
      var plan := s.plan.value;
      PlanIsRunnable(b, s.catalog, s.hashes, plan);
      SyncShowsTarget(world, b, s.hashes, plan, s.answers);
      CacheFollowsHeight(world, b.cache, b.persisted, plan.targetHeight, s.hashes, Shown(b, s));
    }
  }

  lemma {:induction false} FreshRunTrue(world: World, books: seq<Book>, syncs: seq<Sync>, n: nat)
    requires IsRun(world, books, syncs) && BookTrue(world, books[0]) && n <= |syncs|
    requires forall j | 0 <= j < n :: TurnFresh(world, books[j], syncs[j])
    ensures BookTrue(world, books[n])
    decreases n
  {
    if n > 0 {
      FreshRunTrue(world, books, syncs, n - 1);
      TurnKeepsBook(world, books[n - 1], syncs[n - 1]);
    }
  }

  /** Over any run of syncs the cache is at the persisted height after every one exactly if every turn is fresh. */
  lemma RunKeepsBook(world: World, books: seq<Book>, syncs: seq<Sync>)
    requires IsRun(world, books, syncs) && BookTrue(world, books[0])
    ensures (forall n | 0 <= n <= |syncs| :: BookTrue(world, books[n])) <==>
            forall j | 0 <= j < |syncs| :: TurnFresh(world, books[j], syncs[j])
  {
    if forall n | 0 <= n <= |syncs| :: BookTrue(world, books[n]) {
      forall j | 0 <= j < |syncs| ensures TurnFresh(world, books[j], syncs[j]) {
        assert BookTrue(world, books[j]) && BookTrue(world, books[j + 1]);
        TurnKeepsBook(world, books[j], syncs[j]);
      }
    }
    if forall j | 0 <= j < |syncs| :: TurnFresh(world, books[j], syncs[j]) {
      forall n | 0 <= n <= |syncs| ensures BookTrue(world, books[n]) {
        FreshRunTrue(world, books, syncs, n);
      }
    }
  }

  /** No result of a completed sync is null. */
  ghost predicate AllPresent(b: Book, s: Sync) {
    Completes(s) ==> forall i | 0 <= i < |s.hashes| :: Shown(b, s)[i].Some?
  }

  ghost predicate CachesOnly(b: Book, hashes: seq<ScriptHash>) {
    forall sh | sh in b.cache :: sh in hashes
  }

  lemma {:induction false} CommittedKeys(cache: map<ScriptHash, QueryResult>, hashes: seq<ScriptHash>, merged: Answers)
    requires |hashes| == |merged|
    ensures forall sh | sh in Committed(cache, hashes, merged) :: sh in cache || sh in hashes
    decreases |hashes|
  {
    if hashes != [] {
      CommittedKeys(cache, hashes[..|hashes| - 1], merged[..|hashes| - 1]);
    }
  }

  lemma FixedListTurn(world: World, b: Book, s: Sync)
    requires CachesOnly(b, s.hashes) && AllPresent(b, s)
    ensures TurnFresh(world, b, s) && CachesOnly(Turned(b, s), s.hashes)
  {
    if Completes(s) {
      CommittedKeys(b.cache, s.hashes, Shown(b, s));
      forall sh | sh in b.cache ensures Refreshed(s.hashes, Shown(b, s), sh) {
        var i :| 0 <= i < |s.hashes| && s.hashes[i] == sh;
        assert Shown(b, s)[i].Some?;
      }
    }
  }

  /**
   A client that always syncs the same list, from an empty cache, and gets no
   null results: after any number of turns, completed or not, every cached
   snapshot shows its script at the persisted height.
   */
  lemma {:induction false} FixedListStaysTrue(world: World, hashes: seq<ScriptHash>, books: seq<Book>, syncs: seq<Sync>,
                                              n: nat)
    requires IsRun(world, books, syncs) && books[0] == Book(map[], 0) && n <= |syncs|
    requires forall j | 0 <= j < |syncs| :: syncs[j].hashes == hashes && AllPresent(books[j], syncs[j])
    ensures BookTrue(world, books[n]) && CachesOnly(books[n], hashes)
    decreases n
  {
    if n > 0 {
      FixedListStaysTrue(world, hashes, books, syncs, n - 1);
      FixedListTurn(world, books[n - 1], syncs[n - 1]);
      TurnKeepsBook(world, books[n - 1], syncs[n - 1]);
    }
  }

  /** A snapshot with one output, worth 5. */
  function OneOutput(k: Outpoint): QueryResult {
    QueryResult([Utxo(k.0, k.1, 5)], 5, false, None)
  }

  function NoOutput(): QueryResult {
    QueryResult([], 0, false, None)
  }

  lemma OneOutputShown(k: Outpoint)
    ensures Shows(Some(OneOutput(k)), map[k := 5]) && !Shows(Some(OneOutput(k)), map[])
            && Shows(Some(NoOutput()), map[])
  {
    var us := OneOutput(k).entries;
    assert Key(us[0]) == k;
    assert Lists(us, map[k := 5]);
    ListTotal(us, map[k := 5]);
    assert TotalSats(us[..0]) == 0 && TotalSats(us) == 5;
  }

  lemma CommittedOne(cache: map<ScriptHash, QueryResult>, sh: ScriptHash, q: QueryResult)
    ensures Committed(cache, [sh], [Some(q)]) == cache[sh := q]
  {
    var none: Answers := [];
    assert [sh][..0] == [] && [Some(q)][..0] == none;
    assert Committed(cache, [], none) == cache;
  }

  /** With everything cached and the catalog reaching no higher, a sync has nothing to do and returns the cache. */
  lemma UpToDateReturnsCache(b: Book, hashes: seq<ScriptHash>, catalog: seq<Database>, r: Result<Plan, PlanError>)
    requires hashes != [] && b.persisted > 0 && forall i | 0 <= i < |hashes| :: hashes[i] in b.cache
    requires catalog != [] && UpToDate(catalog, b.persisted) && PlanFor(catalog, Effective(b, hashes), r)
    ensures r == Ok(Plan([], false, b.persisted))
            && Executed(Cached(b.cache, hashes), r.value.steps, []) == Cached(b.cache, hashes)
  {
  }

  /**
   Script `a` is cached at height `h` and spends its only output by `top`. A run
   for `b` alone, which is not cached and so is synced afresh, moves the
   persisted height to `top`. A later run for both, over any catalog that
   reaches no higher, gets the empty plan and returns the spent output of `a`.
   */
  lemma StaleScriptShown(world: World, a: ScriptHash, b: ScriptHash, k: Outpoint, h: nat, top: nat,
                         catalog: seq<Database>, r: Result<Plan, PlanError>, before: Book, after: Book)
    requires a != b && 0 < h < top && world(h, a) == map[k := 5] && world(top, a) == world(top, b) == map[]
    requires before == Book(map[a := OneOutput(k)], h)
    requires after == Book(Committed(before.cache, [b], [Some(NoOutput())]), top)
    requires catalog != [] && UpToDate(catalog, top) && PlanFor(catalog, Effective(after, [a, b]), r)
    ensures BookTrue(world, before) && Effective(before, [b]) == 0 && ShowAll(world, top, [b], [Some(NoOutput())])
    ensures r == Ok(Plan([], false, top))
            && !ShowAll(world, top, [a, b], Executed(Cached(after.cache, [a, b]), r.value.steps, []))
  {
    FirstRun(world, a, b, k, h, top, before);
    CommittedOne(before.cache, b, NoOutput());
    SecondRun(world, a, b, k, top, catalog, r, after);
  }

  lemma FirstRun(world: World, a: ScriptHash, b: ScriptHash, k: Outpoint, h: nat, top: nat, before: Book)
    requires a != b && world(h, a) == map[k := 5] && world(top, b) == map[] && before == Book(map[a := OneOutput(k)], h)
    ensures BookTrue(world, before) && Effective(before, [b]) == 0 && ShowAll(world, top, [b], [Some(NoOutput())])
  {
    OneOutputShown(k);
    assert [b][0] !in before.cache;
  }

  lemma SecondRun(world: World, a: ScriptHash, b: ScriptHash, k: Outpoint, top: nat,
                  catalog: seq<Database>, r: Result<Plan, PlanError>, after: Book)
    requires a != b && top > 0 && world(top, a) == map[] && after == Book(map[a := OneOutput(k), b := NoOutput()], top)
    requires catalog != [] && UpToDate(catalog, top) && PlanFor(catalog, Effective(after, [a, b]), r)
    ensures r == Ok(Plan([], false, top))
            && !ShowAll(world, top, [a, b], Executed(Cached(after.cache, [a, b]), r.value.steps, []))
  {
    OneOutputShown(k);
    UpToDateReturnsCache(after, [a, b], catalog, r);
    assert Cached(after.cache, [a, b])[0] == Some(OneOutput(k)) && [a, b][0] == a;
  }
}
