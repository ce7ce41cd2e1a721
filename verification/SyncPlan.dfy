/** Delta-chain search and the sync planner over a catalog of full checkpoints and deltas. */
module SyncPlan {
  import opened Wrappers

  const MAX_DELTA_CHAIN_LENGTH: nat := 5

  /** `kind` 0 is a full checkpoint at `height`, 1 a delta from `baseHeight` to `height`. */
  datatype Database = Database(dbId: nat, kind: nat, baseHeight: nat, height: nat)

  type Chain = seq<Database>

  /** The deltas lead, one after the other, from one height to another. */
  ghost predicate Leads(deltas: seq<Database>, chain: Chain, from: nat, to: nat) {
    && (forall i | 0 <= i < |chain| :: chain[i] in deltas)
    && (forall i | 0 < i < |chain| :: chain[i].baseHeight == chain[i - 1].height)
    && (if chain == [] then from == to else chain[0].baseHeight == from && chain[|chain| - 1].height == to)
  }

  lemma LeadsExtend(deltas: seq<Database>, chain: Chain, from: nat, mid: nat, d: Database)
    requires Leads(deltas, chain, from, mid) && d in deltas && d.baseHeight == mid
    ensures Leads(deltas, chain + [d], from, d.height)
  {
  }

  lemma LeadsButLast(deltas: seq<Database>, chain: Chain, from: nat, to: nat)
    requires Leads(deltas, chain, from, to) && chain != []
    ensures Leads(deltas, chain[..|chain| - 1], from, chain[|chain| - 1].baseHeight)
  {
  }

  datatype Item = Item(height: nat, path: Chain)

  function Lookup(byBase: map<nat, seq<Database>>, h: nat): seq<Database> {
    if h in byBase then byBase[h] else []
  }

  /** The index lists, under a height, exactly the deltas that start there. */
  ghost predicate Indexed(deltas: seq<Database>, byBase: map<nat, seq<Database>>, h: nat) {
    forall d :: d in Lookup(byBase, h) <==> d in deltas && d.baseHeight == h
  }

  /** Deltas grouped by the height they start from. */
  method IndexByBase(deltas: seq<Database>) returns (byBase: map<nat, seq<Database>>)
    ensures forall h: nat :: Indexed(deltas, byBase, h)
  {
    byBase := map[];
    for i := 0 to |deltas|
      invariant forall h: nat :: Indexed(deltas[..i], byBase, h)
    {
      var d := deltas[i];
      assert Indexed(deltas[..i], byBase, d.baseHeight);
      assert deltas[..i + 1] == deltas[..i] + [d];
      ghost var before, upto := byBase, deltas[..i + 1];
      byBase := byBase[d.baseHeight := Lookup(byBase, d.baseHeight) + [d]];
      forall h: nat ensures Indexed(upto, byBase, h) {
        assert Indexed(deltas[..i], before, h);
      }
    }
    assert deltas[..|deltas|] == deltas;
  }

  // ----- breadth-first search

  /**
   A search in progress: `dist` holds the length at which each visited height
   was found, `expanded` the heights whose deltas have all been followed.
   */
  datatype Search = Search(deltas: seq<Database>, from: nat, to: nat, dist: map<nat, nat>, expanded: set<nat>)

  /** Followed deltas end at visited heights, found at most one later; the target has not been found. */
  ghost predicate Sane(s: Search) {
    && s.from in s.dist && s.dist[s.from] == 0 && s.expanded <= s.dist.Keys
    && (s.to in s.dist ==> s.to == s.from)
    && (forall d | d in s.deltas && d.baseHeight in s.expanded ::
        d.height in s.dist && s.dist[d.height] <= s.dist[d.baseHeight] + 1)
  }

  ghost predicate InQueue(s: Search, item: Item) {
    && item.height in s.dist && s.dist[item.height] == |item.path| < MAX_DELTA_CHAIN_LENGTH
    && item.height !in s.expanded && Leads(s.deltas, item.path, s.from, item.height)
  }

  ghost predicate AllInQueue(s: Search, queue: seq<Item>) {
    forall k | 0 <= k < |queue| :: InQueue(s, queue[k])
  }

  /** Shorter paths first, and no height twice. */
  ghost predicate Ordered(queue: seq<Item>) {
    forall j, k | 0 <= j < k < |queue| :: |queue[j].path| <= |queue[k].path| && queue[j].height != queue[k].height
  }

  ghost predicate Behind(queue: seq<Item>, cur: Item) {
    forall k | 0 <= k < |queue| :: queue[k].height != cur.height && |cur.path| <= |queue[k].path|
  }

  ghost predicate Queued(queue: seq<Item>, h: nat) {
    exists k | 0 <= k < |queue| :: queue[k].height == h
  }

  /** Whatever is visited, not expanded and not yet at the length limit waits in the queue, `except` aside. */
  ghost predicate Pending(s: Search, queue: seq<Item>, except: set<nat>) {
    forall h | h in s.dist && h !in s.expanded && h !in except && s.dist[h] < MAX_DELTA_CHAIN_LENGTH :: Queued(queue, h)
  }

  /** The search between two turns; the queue spans at most two lengths. */
  ghost predicate Frontier(s: Search, queue: seq<Item>) {
    && Sane(s) && AllInQueue(s, queue) && Ordered(queue) && Pending(s, queue, {})
    && (forall k, h | 0 <= k < |queue| && h in s.dist :: s.dist[h] <= |queue[k].path| + 1)
  }

  /** What holds of the popped item while the deltas `nexts[..i]` have been looked at. */
  ghost predicate Popped(s: Search, cur: Item, nexts: seq<Database>, i: nat) {
    && Sane(s) && InQueue(s, cur)
    && (forall h | h in s.dist :: s.dist[h] <= |cur.path| + 1)
    && (forall h | h in s.dist && s.dist[h] < |cur.path| :: h in s.expanded)
    && (forall k | 0 <= k < i && k < |nexts| :: nexts[k].height in s.dist)
  }

  ghost predicate Expanding(s: Search, queue: seq<Item>, cur: Item, nexts: seq<Database>, i: nat) {
    Popped(s, cur, nexts, i) && AllInQueue(s, queue) && Ordered(queue) && Behind(queue, cur)
    && Pending(s, queue, {cur.height})
  }

  /** Every chain no longer than `depth` ends at a visited height found at no greater length. */
  lemma {:induction false} ShortChainsVisited(s: Search, depth: nat, chain: Chain, end: nat)
    requires Sane(s) && forall h | h in s.dist && s.dist[h] < depth :: h in s.expanded
    requires Leads(s.deltas, chain, s.from, end) && |chain| <= depth
    ensures end in s.dist && s.dist[end] <= |chain|
    decreases |chain|
  {
    if chain != [] {
      var last := chain[|chain| - 1];
      LeadsButLast(s.deltas, chain, s.from, end);
      ShortChainsVisited(s, depth, chain[..|chain| - 1], last.baseHeight);
      assert last in s.deltas;
    }
  }

  lemma Begin(deltas: seq<Database>, from: nat, to: nat)
    ensures Frontier(Search(deltas, from, to, map[from := 0], {}), [Item(from, [])])
  {
    assert [Item(from, [])][0].height == from;
  }

  lemma PopFront(s: Search, queue: seq<Item>, nexts: seq<Database>)
    requires Frontier(s, queue) && queue != []
    ensures Expanding(s, queue[1..], queue[0], nexts, 0)
  {
    forall h | h in s.dist && h !in s.expanded && s.dist[h] < MAX_DELTA_CHAIN_LENGTH
      ensures (h != queue[0].height ==> Queued(queue[1..], h)) && s.dist[h] >= |queue[0].path|
    {
      assert Queued(queue, h);
      var k :| 0 <= k < |queue| && queue[k].height == h;
      assert InQueue(s, queue[k]);
      if k > 0 { assert queue[1..][k - 1].height == h; }
    }
    assert InQueue(s, queue[0]);
  }

  lemma DoneExpanding(s: Search, queue: seq<Item>, cur: Item, nexts: seq<Database>)
    requires Expanding(s, queue, cur, nexts, |nexts|)
    requires forall d | d in s.deltas && d.baseHeight == cur.height :: d in nexts
    ensures Frontier(s.(expanded := s.expanded + {cur.height}), queue)
  {
    var s' := s.(expanded := s.expanded + {cur.height});
    forall d | d in s'.deltas && d.baseHeight in s'.expanded
      ensures d.height in s.dist && s.dist[d.height] <= s.dist[d.baseHeight] + 1
    {
      if d.baseHeight !in s.expanded {
        assert d in nexts;
      }
    }
    forall k | 0 <= k < |queue| ensures InQueue(s', queue[k]) {
      assert InQueue(s, queue[k]);
    }
  }

  /** A newly found height joins the visited ones without disturbing anything queued. */
  lemma Visit(s: Search, queue: seq<Item>, cur: Item, nexts: seq<Database>, i: nat)
    requires Popped(s, cur, nexts, i) && i < |nexts| && AllInQueue(s, queue)
    requires nexts[i].height !in s.dist && nexts[i].height != s.to
    ensures var s' := s.(dist := s.dist[nexts[i].height := |cur.path| + 1]);
            Popped(s', cur, nexts, i + 1) && AllInQueue(s', queue)
  {
    var s' := s.(dist := s.dist[nexts[i].height := |cur.path| + 1]);
    forall k | 0 <= k < |queue| ensures InQueue(s', queue[k]) {
      assert InQueue(s, queue[k]);
    }
  }

  lemma Enqueue(s: Search, queue: seq<Item>, item: Item, cur: Item)
    requires AllInQueue(s, queue) && Ordered(queue) && Behind(queue, cur)
             && Pending(s, queue, {cur.height, item.height})
    requires InQueue(s, item) && item.height != cur.height && |cur.path| <= |item.path|
    requires forall k | 0 <= k < |queue| :: |queue[k].path| <= |item.path| && queue[k].height != item.height
    ensures var queue' := queue + [item];
            AllInQueue(s, queue') && Ordered(queue') && Behind(queue', cur) && Pending(s, queue', {cur.height})
  {
    var queue' := queue + [item];
    forall h | h in s.dist && h !in s.expanded && h != cur.height && s.dist[h] < MAX_DELTA_CHAIN_LENGTH
      ensures Queued(queue', h)
    {
      if h == item.height {
        assert queue'[|queue|].height == h;
      } else {
        assert Queued(queue, h);
        var k :| 0 <= k < |queue| && queue[k].height == h;
        assert queue'[k].height == h;
      }
    }
  }

  /** The queue after a new height was found; a chain at the length limit is not followed further. */
  function Enqueued(queue: seq<Item>, cur: Item, d: Database): seq<Item> {
    if |cur.path| + 1 < MAX_DELTA_CHAIN_LENGTH then queue + [Item(d.height, cur.path + [d])] else queue
  }

  ghost function Discovered(s: Search, cur: Item, d: Database): Search {
    s.(dist := s.dist[d.height := |cur.path| + 1])
  }

  /** A newly found height joins the queue when the chain may still grow. */
  lemma Discover(s: Search, queue: seq<Item>, cur: Item, nexts: seq<Database>, i: nat)
    requires Expanding(s, queue, cur, nexts, i) && i < |nexts|
    requires nexts[i] in s.deltas && nexts[i].baseHeight == cur.height
    requires nexts[i].height !in s.dist && nexts[i].height != s.to
    ensures Expanding(Discovered(s, cur, nexts[i]), Enqueued(queue, cur, nexts[i]), cur, nexts, i + 1)
  {
    var item := Item(nexts[i].height, cur.path + [nexts[i]]);
    var s' := Discovered(s, cur, nexts[i]);
    Visit(s, queue, cur, nexts, i);
    if |item.path| < MAX_DELTA_CHAIN_LENGTH {
      LeadsExtend(s.deltas, cur.path, s.from, cur.height, nexts[i]);
      forall k | 0 <= k < |queue| ensures |queue[k].path| <= |item.path| && queue[k].height != item.height {
        assert InQueue(s, queue[k]);
      }
      Enqueue(s', queue, item, cur);
    }
  }

  ghost predicate Shortest(deltas: seq<Database>, from: nat, to: nat, chain: Chain) {
    Leads(deltas, chain, from, to) && forall c: Chain | Leads(deltas, c, from, to) :: |chain| <= |c|
  }

  /** The chain that discovers the target is a shortest one. */
  lemma DiscoveredShortest(s: Search, cur: Item, nexts: seq<Database>, i: nat, d: Database)
    requires Popped(s, cur, nexts, i) && d in s.deltas && d.baseHeight == cur.height && d.height == s.to
             && s.to !in s.dist
    ensures Shortest(s.deltas, s.from, s.to, cur.path + [d]) && s.from != s.to
  {
    LeadsExtend(s.deltas, cur.path, s.from, cur.height, d);
    forall c: Chain | Leads(s.deltas, c, s.from, s.to) ensures |cur.path| + 1 <= |c| {
      if |c| <= |cur.path| {
        ShortChainsVisited(s, |cur.path|, c, s.to);
      }
    }
  }

  /** The search's answer: a shortest chain, of one to five deltas. */
  ghost predicate Found(s: Search, chain: Chain) {
    Shortest(s.deltas, s.from, s.to, chain) && 0 < |chain| <= MAX_DELTA_CHAIN_LENGTH && s.from != s.to
  }

  lemma TargetFound(s: Search, cur: Item, nexts: seq<Database>, i: nat, d: Database)
    requires Popped(s, cur, nexts, i) && d in s.deltas && d.baseHeight == cur.height && d.height == s.to
             && s.to !in s.dist
    ensures Found(s, cur.path + [d])
  {
    DiscoveredShortest(s, cur, nexts, i, d);
  }

  lemma Exhausted(s: Search)
    requires Frontier(s, [])
    ensures s.from == s.to || forall c: Chain | Leads(s.deltas, c, s.from, s.to) :: |c| > MAX_DELTA_CHAIN_LENGTH
  {
    forall h | h in s.dist && s.dist[h] < MAX_DELTA_CHAIN_LENGTH ensures h in s.expanded {
      assert !Queued([], h);
    }
    if s.from != s.to {
      forall c: Chain | Leads(s.deltas, c, s.from, s.to) ensures |c| > MAX_DELTA_CHAIN_LENGTH {
        if |c| <= MAX_DELTA_CHAIN_LENGTH {
          ShortChainsVisited(s, MAX_DELTA_CHAIN_LENGTH, c, s.to);
        }
      }
    }
  }

  ghost function EndHeights(deltas: seq<Database>): set<nat> {
    set d | d in deltas :: d.height
  }

  /** A delta to a visited height changes nothing. */
  lemma Skip(s: Search, queue: seq<Item>, cur: Item, nexts: seq<Database>, i: nat)
    requires Expanding(s, queue, cur, nexts, i) && i < |nexts| && nexts[i].height in s.dist
    ensures Expanding(s, queue, cur, nexts, i + 1)
  {
  }

  /** Follow one delta of a popped item; `found` is a chain to the target. */
  method Follow(queue0: seq<Item>, visited0: set<nat>, to: nat, cur: Item, ghost nexts: seq<Database>, ghost i: nat,
                d: Database, ghost s0: Search)
    returns (found: Option<Chain>, queue: seq<Item>, visited: set<nat>, ghost s: Search)
    requires Expanding(s0, queue0, cur, nexts, i) && visited0 == s0.dist.Keys && to == s0.to
    requires i < |nexts| && nexts[i] == d && d in s0.deltas && d.baseHeight == cur.height
    ensures found.Some? ==> Found(s0, found.value)
    ensures found.None? ==> Expanding(s, queue, cur, nexts, i + 1) && visited == s.dist.Keys && s == s0.(dist := s.dist)
    ensures found.None? ==> visited == visited0 + {d.height} && (visited == visited0 ==> queue == queue0)
  {
    if d.height in visited0 {
      Skip(s0, queue0, cur, nexts, i);
      return None, queue0, visited0, s0;
    }
    queue, visited := queue0, visited0 + {d.height};
    var newPath := cur.path + [d];
    if d.height == to {
      TargetFound(s0, cur, nexts, i, d);
      return Some(newPath), queue, visited, s0;
    }
    Discover(s0, queue0, cur, nexts, i);
    queue := Enqueued(queue0, cur, d);
    s := Discovered(s0, cur, d);
    found := None;
  }

  /** Follow the deltas of one popped item. */
  method Expand(queue0: seq<Item>, visited0: set<nat>, to: nat, cur: Item, nexts: seq<Database>, ghost s0: Search)
    returns (found: Option<Chain>, queue: seq<Item>, visited: set<nat>, ghost s: Search)
    requires Expanding(s0, queue0, cur, nexts, 0) && visited0 == s0.dist.Keys && to == s0.to
    requires forall d | d in nexts :: d in s0.deltas && d.baseHeight == cur.height
    ensures found.Some? ==> Found(s0, found.value)
    ensures found.None? ==>
            Expanding(s, queue, cur, nexts, |nexts|) && visited == s.dist.Keys && s == s0.(dist := s.dist)
    ensures found.None? ==>
            visited0 <= visited <= visited0 + EndHeights(s0.deltas) && (visited == visited0 ==> queue == queue0)
  {
    found, queue, visited, s := None, queue0, visited0, s0;
    for i := 0 to |nexts|
      invariant found.None? && Expanding(s, queue, cur, nexts, i) && visited == s.dist.Keys && s == s0.(dist := s.dist)
      invariant visited0 <= visited <= visited0 + EndHeights(s0.deltas) && (visited == visited0 ==> queue == queue0)
    {
      assert nexts[i] in nexts && nexts[i].height in EndHeights(s0.deltas);
      found, queue, visited, s := Follow(queue, visited, to, cur, nexts, i, nexts[i], s);
      if found.Some? {
        return;
      }
    }
  }

  /** Pops the first item and follows its deltas; without a find, heights are added or the queue gets shorter. */
  method Advance(byBase: map<nat, seq<Database>>, queue0: seq<Item>, visited0: set<nat>, to: nat, ghost s0: Search)
    returns (found: Option<Chain>, queue: seq<Item>, visited: set<nat>, ghost s: Search)
    requires Frontier(s0, queue0) && queue0 != [] && visited0 == s0.dist.Keys && to == s0.to
    requires forall h :: Indexed(s0.deltas, byBase, h)
    ensures found.Some? ==> Found(s0, found.value)
    ensures found.None? ==>
            Frontier(s, queue) && visited == s.dist.Keys && s == s0.(dist := s.dist, expanded := s.expanded)
    ensures found.None? ==>
            visited0 <= visited <= visited0 + EndHeights(s0.deltas) && (visited == visited0 ==> |queue| < |queue0|)
  {
    var cur := queue0[0];
    var nexts := Lookup(byBase, cur.height);
    assert Indexed(s0.deltas, byBase, cur.height);
    PopFront(s0, queue0, nexts);
    found, queue, visited, s := Expand(queue0[1..], visited0, to, cur, nexts, s0);
    if found.None? {
      DoneExpanding(s, queue, cur, nexts);
      s := s.(expanded := s.expanded + {cur.height});
    }
  }

  /**
   A found chain is contiguous, at most five deltas long and as short as any
   chain at all; nothing is found exactly when the two heights are equal or
   every chain is longer than five. The delta graph may have cycles.
   */
  method FindDeltaChain(deltas: seq<Database>, from: nat, to: nat) returns (r: Option<Chain>)
    ensures r.Some? ==> Shortest(deltas, from, to, r.value) && 0 < |r.value| <= MAX_DELTA_CHAIN_LENGTH
    ensures r.None? <==> from == to || forall c: Chain | Leads(deltas, c, from, to) :: |c| > MAX_DELTA_CHAIN_LENGTH
  {
    var byBase := IndexByBase(deltas);
    var queue: seq<Item> := [Item(from, [])];
    var visited: set<nat> := {from};
    ghost var s := Search(deltas, from, to, map[from := 0], {});
    Begin(deltas, from, to);
    while queue != []
      invariant Frontier(s, queue) && visited == s.dist.Keys <= {from} + EndHeights(deltas)
      invariant s == Search(deltas, from, to, s.dist, s.expanded)
      decreases {from} + EndHeights(deltas) - visited, |queue|
    {
      var found;
      found, queue, visited, s := Advance(byBase, queue, visited, to, s);
      if found.Some? {
        return found;
      }
    }
    Exhausted(s);
    return None;
  }

  // ----- planning

  datatype Plan = Plan(steps: seq<Database>, isFreshSync: bool, targetHeight: nat)

  datatype PlanError = EmptyCatalog | NoFullCheckpoint

  function OfKind(dbs: seq<Database>, kind: nat): (r: seq<Database>)
    ensures forall d :: d in r <==> d in dbs && d.kind == kind
  {
    if dbs == [] then [] else (if dbs[0].kind == kind then [dbs[0]] else []) + OfKind(dbs[1..], kind)
  }

  /** The greatest height, `None` for minus infinity. */
  function MaxHeight(dbs: seq<Database>): (r: Option<nat>)
    ensures r.None? <==> dbs == []
    ensures r.Some? ==> exists d | d in dbs :: d.height == r.value
    ensures forall d | d in dbs :: r.Some? && d.height <= r.value
  {
    if dbs == [] then None
    else
      assert dbs[0] in dbs;
      var rest := MaxHeight(dbs[1..]);
      if rest.Some? && rest.value > dbs[0].height then rest else Some(dbs[0].height)
  }

  /** `d` is of the kind and the first of that kind at the greatest height. */
  ghost predicate FirstHighest(dbs: seq<Database>, kind: nat, d: Database) {
    && d.kind == kind && (forall x | x in dbs && x.kind == kind :: x.height <= d.height)
    && exists i: nat :: ListedFirst(dbs, kind, d, i)
  }

  ghost predicate ListedFirst(dbs: seq<Database>, kind: nat, d: Database, i: nat) {
    i < |dbs| && dbs[i] == d && forall j | 0 <= j < i && dbs[j].kind == kind :: dbs[j].height < d.height
  }

  /** The first database of greatest height. */
  method BestFull(dbs: seq<Database>, ghost kind: nat) returns (best: Database)
    requires dbs != [] && forall d | d in dbs :: d.kind == kind
    ensures best in dbs && FirstHighest(dbs, kind, best)
  {
    best := dbs[0];
    ghost var at: nat := 0;
    for k := 1 to |dbs|
      invariant ListedFirst(dbs, kind, best, at)
      invariant forall j | 0 <= j < k :: dbs[j].height <= best.height
    {
      if dbs[k].height > best.height {
        best, at := dbs[k], k;
      }
    }
  }

  lemma ListedLater(dbs: seq<Database>, kind: nat, d: Database, i: nat)
    requires dbs != [] && ListedFirst(dbs[1..], kind, d, i)
    requires dbs[0].kind == kind ==> dbs[0].height < d.height
    ensures ListedFirst(dbs, kind, d, i + 1)
  {
    forall j | 0 < j <= i && dbs[j].kind == kind ensures dbs[j].height < d.height {
      assert dbs[1..][j - 1] == dbs[j];
    }
  }

  /** Filtering keeps the order: what is first of its height among the kept is so among all. */
  lemma {:induction false} FirstStays(dbs: seq<Database>, kind: nat, d: Database, k: nat) returns (i: nat)
    requires ListedFirst(OfKind(dbs, kind), kind, d, k)
    ensures ListedFirst(dbs, kind, d, i)
  {
    var kept := OfKind(dbs, kind);
    if dbs[0].kind != kind {
      assert kept == OfKind(dbs[1..], kind);
      i := FirstStays(dbs[1..], kind, d, k);
      ListedLater(dbs, kind, d, i);
      i := i + 1;
    } else if k == 0 {
      i := 0;
    } else {
      assert kept[1..] == OfKind(dbs[1..], kind);
      ListedEarlier(kept, kind, d, k);
      i := FirstStays(dbs[1..], kind, d, k - 1);
      ListedLater(dbs, kind, d, i);
      i := i + 1;
    }
  }

  lemma ListedEarlier(dbs: seq<Database>, kind: nat, d: Database, k: nat)
    requires k > 0 && ListedFirst(dbs, kind, d, k)
    ensures ListedFirst(dbs[1..], kind, d, k - 1) && (dbs[0].kind == kind ==> dbs[0].height < d.height)
  {
  }

  lemma BestStays(dbs: seq<Database>, kind: nat, d: Database)
    requires FirstHighest(OfKind(dbs, kind), kind, d)
    ensures FirstHighest(dbs, kind, d)
  {
    var k: nat :| ListedFirst(OfKind(dbs, kind), kind, d, k);
    var i := FirstStays(dbs, kind, d, k);
  }

  ghost predicate IsBestFull(catalog: seq<Database>, d: Database) {
    d in catalog && FirstHighest(catalog, 0, d)
  }

  /** The greatest height at which the catalog holds a checkpoint or at which a delta of it ends. */
  ghost predicate IsTip(catalog: seq<Database>, t: nat) {
    (exists d | d in catalog && d.kind <= 1 :: d.height == t) && forall d | d in catalog && d.kind <= 1 :: d.height <= t
  }

  /** Some delta chain of one to five steps. */
  ghost predicate Reachable(deltas: seq<Database>, from: nat, to: nat) {
    from != to && exists c: Chain | Leads(deltas, c, from, to) :: |c| <= MAX_DELTA_CHAIN_LENGTH
  }

  /** The best checkpoint, and a shortest chain from it to the tip when there is one. */
  ghost predicate IsFreshPlan(catalog: seq<Database>, tip: nat, p: Plan) {
    var deltas := OfKind(catalog, 1);
    && p.isFreshSync && p.steps != [] && IsBestFull(catalog, p.steps[0])
    && var h := p.steps[0].height;
       if h < tip && Reachable(deltas, h, tip) then p.targetHeight == tip && Shortest(deltas, h, tip, p.steps[1..])
       else p.targetHeight == h && |p.steps| == 1
  }

  /** The tip, if the catalog has a checkpoint or a delta. */
  function LatestTip(catalog: seq<Database>): (r: Option<nat>)
    ensures r.Some? ==> IsTip(catalog, r.value)
    ensures r.None? <==> forall d | d in catalog :: d.kind > 1
  {
    var dbs := OfKind(catalog, 0) + OfKind(catalog, 1);
    assert forall d :: d in dbs <==> d in catalog && d.kind <= 1;
    MaxHeight(dbs)
  }

  method FreshPlan(catalog: seq<Database>, tip: nat) returns (r: Result<Plan, PlanError>)
    ensures r.Err? <==> OfKind(catalog, 0) == []
    ensures r.Err? ==> r.error == NoFullCheckpoint
    ensures r.Ok? ==> IsFreshPlan(catalog, tip, r.value)
  {
    var fulls, deltas := OfKind(catalog, 0), OfKind(catalog, 1);
    if fulls == [] {
      return Err(NoFullCheckpoint);
    }
    var best := BestFull(fulls, 0);
    BestStays(catalog, 0, best);
    if best.height < tip {
      var tail := FindDeltaChain(deltas, best.height, tip);
      if tail.Some? {
        var steps := [best] + tail.value;
        assert steps[1..] == tail.value;
        assert steps[|steps| - 1].height == tip;
        return Ok(Plan(steps, true, steps[|steps| - 1].height));
      }
    }
    return Ok(Plan([best], true, best.height));
  }

  /** Nothing in the catalog is higher. */
  predicate UpToDate(catalog: seq<Database>, lastSynced: nat) {
    lastSynced > 0 && forall d | d in catalog && d.kind <= 1 :: d.height <= lastSynced
  }

  /** The catalog's deltas alone lead from the last height to the latest tip. */
  ghost predicate CatchesUp(catalog: seq<Database>, lastSynced: nat) {
    lastSynced > 0 && LatestTip(catalog).Some? && Reachable(OfKind(catalog, 1), lastSynced, LatestTip(catalog).value)
  }

  /** Up to date: nothing to do. Otherwise a shortest chain to the latest tip when there is one, else a fresh sync. */
  ghost predicate IsPlan(catalog: seq<Database>, lastSynced: nat, p: Plan) {
    var tip := LatestTip(catalog);
    if UpToDate(catalog, lastSynced) then p == Plan([], false, lastSynced)
    else if CatchesUp(catalog, lastSynced) then
      !p.isFreshSync && p.targetHeight == tip.value && Shortest(OfKind(catalog, 1), lastSynced, tip.value, p.steps)
    else tip.Some? && IsFreshPlan(catalog, tip.value, p)
  }

  /** It fails exactly on an empty catalog, or when a fresh sync finds no checkpoint. */
  ghost predicate PlanFor(catalog: seq<Database>, lastSynced: nat, r: Result<Plan, PlanError>) {
    if catalog == [] then r == Err(EmptyCatalog)
    else if UpToDate(catalog, lastSynced) || CatchesUp(catalog, lastSynced) || OfKind(catalog, 0) != [] then
      r.Ok? && IsPlan(catalog, lastSynced, r.value)
    else r == Err(NoFullCheckpoint)
  }

  method ComputeSyncPlan(catalog: seq<Database>, lastSynced: nat) returns (r: Result<Plan, PlanError>)
    ensures PlanFor(catalog, lastSynced, r)
  {
    if catalog == [] {
      return Err(EmptyCatalog);
    }
    var tip := LatestTip(catalog);
    if lastSynced == 0 {
      r := FreshPlan(catalog, if tip.Some? then tip.value else 0);
      return;
    }
    if tip.None? || lastSynced >= tip.value {
      return Ok(Plan([], false, lastSynced));
    }
    var chain := FindDeltaChain(OfKind(catalog, 1), lastSynced, tip.value);
    if chain.Some? {
      return Ok(Plan(chain.value, false, tip.value));
    }
    r := FreshPlan(catalog, tip.value);
  }

  /** At most five deltas of the catalog lead from one height to the other. */
  ghost predicate FiveLead(catalog: seq<Database>, from: nat, to: nat) {
    exists c: Chain :: |c| <= 5 && Leads(catalog, c, from, to) && forall i | 0 <= i < |c| :: c[i].kind == 1
  }

  lemma FiveReach(catalog: seq<Database>, from: nat, to: nat)
    ensures FiveLead(catalog, from, to) <==> from == to || Reachable(OfKind(catalog, 1), from, to)
  {
    var deltas := OfKind(catalog, 1);
    if FiveLead(catalog, from, to) && from != to {
      var c: Chain :| |c| <= 5 && Leads(catalog, c, from, to) && forall i | 0 <= i < |c| :: c[i].kind == 1;
      assert Leads(deltas, c, from, to);
    }
    if from == to {
      assert Leads(catalog, [], from, to);
    } else if Reachable(deltas, from, to) {
      var c: Chain :| Leads(deltas, c, from, to) && |c| <= MAX_DELTA_CHAIN_LENGTH;
      assert Leads(catalog, c, from, to);
    }
  }

  lemma FreshEndsAtTip(catalog: seq<Database>, tip: nat, p: Plan, full: Database)
    requires IsTip(catalog, tip) && IsFreshPlan(catalog, tip, p) && IsBestFull(catalog, full)
    ensures p.targetHeight == if FiveLead(catalog, full.height, tip) then tip else full.height
  {
    FiveReach(catalog, full.height, tip);
    assert full.height == p.steps[0].height <= tip;
  }

  lemma TipIs(catalog: seq<Database>, tip: nat)
    requires IsTip(catalog, tip)
    ensures LatestTip(catalog) == Some(tip)
  {
  }

  lemma PlanKinds(catalog: seq<Database>, lastSynced: nat, p: Plan, tip: nat)
    requires PlanFor(catalog, lastSynced, Ok(p)) && IsTip(catalog, tip)
    ensures lastSynced > 0 && lastSynced >= tip ==> p == Plan([], false, lastSynced)
    ensures 0 < lastSynced < tip && FiveLead(catalog, lastSynced, tip) ==>
            !p.isFreshSync && p.steps != [] && p.targetHeight == tip
    ensures lastSynced == 0 || (lastSynced < tip && !FiveLead(catalog, lastSynced, tip)) ==>
            IsFreshPlan(catalog, tip, p)
  {
    TipIs(catalog, tip);
    FiveReach(catalog, lastSynced, tip);
  }

  /**
   A plan is empty if and only if nothing in the catalog is above the last
   height. Otherwise it ends at the tip exactly when five deltas or fewer lead
   there, from the last height or from a highest checkpoint; failing that, at
   such a checkpoint.
   */
  lemma PlanEndsAtTip(catalog: seq<Database>, lastSynced: nat, p: Plan, tip: nat)
    requires PlanFor(catalog, lastSynced, Ok(p)) && IsTip(catalog, tip)
    ensures p.steps == [] <==> lastSynced > 0 && lastSynced >= tip
    ensures 0 < lastSynced <= tip && FiveLead(catalog, lastSynced, tip) ==> p.targetHeight == tip
    ensures forall full | p.isFreshSync && IsBestFull(catalog, full) ::
              p.targetHeight == if FiveLead(catalog, full.height, tip) then tip else full.height
    ensures p.isFreshSync <==> lastSynced == 0 || (lastSynced < tip && !FiveLead(catalog, lastSynced, tip))
  {
    PlanKinds(catalog, lastSynced, p, tip);
    forall full | p.isFreshSync && IsBestFull(catalog, full)
      ensures p.targetHeight == if FiveLead(catalog, full.height, tip) then tip else full.height
    {
      FreshEndsAtTip(catalog, tip, p, full);
    }
  }
}
