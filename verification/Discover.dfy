/**
 The page crawl (files-app/build_v3.py:2592-2625, 3388-3392): breadth first from seeds
 with depth budgets, up to a number of pages; what it is sure to find, and for which
 seeds. A directory's key is its absolute path (files-app/localfs.py:31-76), here the
 names on it, so a directory is listed by its parent alone. A directory that cannot be
 listed is not among the listings.
 */
module Discover {
  import opened Sequences

  type Key = seq<string>

  datatype Entry = Entry(key: Key, isDirectory: bool)

  datatype Offer = Offer(key: Key, budget: nat)

  type Dirs = map<Key, seq<Entry>>

  datatype Crawl = Crawl(seen: set<Key>, order: seq<Key>, queue: seq<Offer>, best: map<Key, nat>)

  /** The deepest budget offered to a directory so far. */
  function Raise(best: map<Key, nat>, k: Key, budget: nat): map<Key, nat> {
    best[k := if k in best && best[k] > budget then best[k] else budget]
  }

  function RaiseAll(seeds: seq<Offer>): map<Key, nat> {
    if seeds == [] then map[]
    else
      var last := seeds[|seeds| - 1];
      Raise(RaiseAll(seeds[..|seeds| - 1]), last.key, last.budget)
  }

  /** Queues the directories among some entries that have not been seen. */
  function OfferChildren(c: Crawl, entries: seq<Entry>, budget: nat): Crawl {
    if entries == [] then c
    else
      var before, e := OfferChildren(c, entries[..|entries| - 1], budget), entries[|entries| - 1];
      if e.isDirectory && e.key !in c.seen then
        before.(best := Raise(before.best, e.key, budget), queue := before.queue + [Offer(e.key, budget)])
      else before
  }

  function Budget(c: Crawl, k: Key): nat {
    if k in c.best then c.best[k] else 0
  }

  /** Marks a directory as a page. */
  function Visited(c: Crawl): Crawl
    requires c.queue != []
  {
    var key := c.queue[0].key;
    c.(seen := c.seen + {key}, order := c.order + [key], queue := c.queue[1..])
  }

  /** The head of the queue taken, and a page if it was not seen. */
  function Popped(c: Crawl): Crawl
    requires c.queue != []
  {
    if c.queue[0].key in c.seen then c.(queue := c.queue[1..]) else Visited(c)
  }

  function Step(c: Crawl, dirs: Dirs): Crawl
    requires c.queue != []
  {
    var key := c.queue[0].key;
    if key in c.seen || Budget(c, key) == 0 || key !in dirs then Popped(c)
    else OfferChildren(Popped(c), dirs[key], Budget(c, key) - 1)
  }

  lemma {:induction false} ChildrenKeepOrder(c: Crawl, entries: seq<Entry>, budget: nat)
    ensures OfferChildren(c, entries, budget).order == c.order && OfferChildren(c, entries, budget).seen == c.seen
  {
    if entries != [] {
      ChildrenKeepOrder(c, entries[..|entries| - 1], budget);
    }
  }

  lemma StepShrinks(c: Crawl, dirs: Dirs)
    requires c.queue != []
    ensures var d := Step(c, dirs);
      |d.order| == |c.order| + 1 || (|d.order| == |c.order| && |d.queue| < |c.queue|)
  {
    var key := c.queue[0].key;
    if key !in c.seen && Budget(c, key) > 0 && key in dirs {
      ChildrenKeepOrder(Popped(c), dirs[key], Budget(c, key) - 1);
    }
  }

  predicate Ended(c: Crawl, max: nat) {
    c.queue == [] || |c.order| >= max
  }

  function Start(seeds: seq<Offer>, skip: set<Key>): Crawl {
    Crawl(skip, [], seeds, RaiseAll(seeds))
  }

  /** `steps` looks at the queue, if it does not end before. */
  function After(c: Crawl, dirs: Dirs, max: nat, steps: nat): Crawl {
    if steps == 0 then c
    else
      var before := After(c, dirs, max, steps - 1);
      if Ended(before, max) then before else Step(before, dirs)
  }

  // ---------------------------------------------------------------------
  // Listings.

  function Parent(k: Key): Key
    requires k != []
  {
    k[..|k| - 1]
  }

  /** A name a listing shows. */
  predicate Visible(name: string) {
    name != "" && name[0] != '.' && '/' !in name && '\0' !in name
  }

  /** The entries are children of the directory, each once. */
  ghost predicate IsListing(k: Key, entries: seq<Entry>) {
    && (forall e :: e in entries ==> e.key != [] && Parent(e.key) == k && Visible(e.key[|k|]))
    && (forall i, j :: 0 <= i < j < |entries| ==> entries[i].key != entries[j].key)
  }

  ghost predicate IsTree(dirs: Dirs) {
    forall k :: k in dirs ==> IsListing(k, dirs[k])
  }

  // ---------------------------------------------------------------------
  // What may be reached.

  /** Directories each listed in the one before, none but the last to be skipped. */
  ghost predicate Path(dirs: Dirs, skip: set<Key>, p: seq<Key>) {
    && p != []
    && forall i :: 0 <= i < |p| - 1 ==> p[i] !in skip && p[i] in dirs && Entry(p[i + 1], true) in dirs[p[i]]
  }

  /** A path from a seed that leaves at least some budget at its end. */
  ghost predicate Leaves(seeds: seq<Offer>, dirs: Dirs, skip: set<Key>, p: seq<Key>, seed: Offer, left: nat) {
    seed in seeds && Path(dirs, skip, p) && p[0] == seed.key && left + |p| - 1 <= seed.budget
  }

  ghost predicate Offered(seeds: seq<Offer>, dirs: Dirs, skip: set<Key>, k: Key, left: nat) {
    exists p, seed :: Leaves(seeds, dirs, skip, p, seed, left) && p[|p| - 1] == k
  }

  ghost predicate Within(seeds: seq<Offer>, dirs: Dirs, skip: set<Key>, k: Key) {
    Offered(seeds, dirs, skip, k, 0)
  }

  lemma OneFurther(seeds: seq<Offer>, dirs: Dirs, skip: set<Key>, k: Key, left: nat, e: Entry)
    requires Offered(seeds, dirs, skip, k, left) && left > 0
    requires k !in skip && k in dirs && e in dirs[k] && e.isDirectory
    ensures Offered(seeds, dirs, skip, e.key, left - 1)
  {
    var p, seed :| Leaves(seeds, dirs, skip, p, seed, left) && p[|p| - 1] == k;
    var q := p + [e.key];
    assert e == Entry(e.key, true);
    forall i | 0 <= i < |q| - 1
      ensures q[i] !in skip && q[i] in dirs && Entry(q[i + 1], true) in dirs[q[i]]
    {
      if i < |p| - 1 {
        assert q[i] == p[i] && q[i + 1] == p[i + 1];
      }
    }
    assert Leaves(seeds, dirs, skip, q, seed, left - 1);
  }

  // ---------------------------------------------------------------------
  // Safety: pages are distinct, not skipped, and within reach.

  ghost predicate Safe(c: Crawl, seeds: seq<Offer>, dirs: Dirs, skip: set<Key>) {
    && Distinct(c.order)
    && (forall k :: k in c.seen <==> k in skip || k in c.order)
    && (forall k :: k in c.order ==> k !in skip && Within(seeds, dirs, skip, k))
    && (forall o :: o in c.queue ==> Offered(seeds, dirs, skip, o.key, o.budget))
    && (forall k :: k in c.best ==> Offered(seeds, dirs, skip, k, c.best[k]))
  }

  lemma LessIsOffered(seeds: seq<Offer>, dirs: Dirs, skip: set<Key>, k: Key, left: nat)
    requires Offered(seeds, dirs, skip, k, left)
    ensures Within(seeds, dirs, skip, k)
  {
    var p, seed :| Leaves(seeds, dirs, skip, p, seed, left) && p[|p| - 1] == k;
    assert Leaves(seeds, dirs, skip, p, seed, 0);
  }

  lemma SeedIsOffered(seeds: seq<Offer>, dirs: Dirs, skip: set<Key>, o: Offer)
    requires o in seeds
    ensures Offered(seeds, dirs, skip, o.key, o.budget)
  {
    assert Leaves(seeds, dirs, skip, [o.key], o, o.budget);
  }

  lemma {:induction false} RaisedFromSeeds(seeds: seq<Offer>)
    ensures forall k :: k in RaiseAll(seeds) ==> Offer(k, RaiseAll(seeds)[k]) in seeds
    ensures forall o :: o in seeds ==> o.key in RaiseAll(seeds) && RaiseAll(seeds)[o.key] >= o.budget
  {
    if seeds != [] {
      var front := seeds[..|seeds| - 1];
      RaisedFromSeeds(front);
      assert forall o :: o in seeds <==> o in front || o == seeds[|seeds| - 1];
    }
  }

  lemma StartIsSafe(seeds: seq<Offer>, dirs: Dirs, skip: set<Key>)
    ensures Safe(Start(seeds, skip), seeds, dirs, skip)
  {
    RaisedFromSeeds(seeds);
    forall o | o in seeds
      ensures Offered(seeds, dirs, skip, o.key, o.budget)
    {
      SeedIsOffered(seeds, dirs, skip, o);
    }
    forall k | k in RaiseAll(seeds)
      ensures Offered(seeds, dirs, skip, k, RaiseAll(seeds)[k])
    {
      SeedIsOffered(seeds, dirs, skip, Offer(k, RaiseAll(seeds)[k]));
    }
  }

  /** What offering children changes. */
  ghost predicate Extended(c: Crawl, d: Crawl, entries: seq<Entry>, budget: nat) {
    && d.seen == c.seen && d.order == c.order
    && QueueGrown(c, d, entries, budget)
    && BestGrown(c, d, entries, budget)
  }

  ghost predicate QueueGrown(c: Crawl, d: Crawl, entries: seq<Entry>, budget: nat) {
    && |c.queue| <= |d.queue| && d.queue[..|c.queue|] == c.queue
    && (forall i :: |c.queue| <= i < |d.queue| ==>
         d.queue[i].budget == budget && Entry(d.queue[i].key, true) in entries && d.queue[i].key !in c.seen)
  }

  ghost predicate BestGrown(c: Crawl, d: Crawl, entries: seq<Entry>, budget: nat) {
    && (forall k :: k in c.best ==> k in d.best && d.best[k] >= c.best[k])
    && (forall k :: k in d.best && !(k in c.best && d.best[k] == c.best[k]) ==>
         d.best[k] == budget && Offer(k, budget) in d.queue && k !in c.seen && Entry(k, true) in entries)
    && (forall e :: e in entries && e.isDirectory && e.key !in c.seen ==> e.key in d.best && d.best[e.key] >= budget)
  }

  lemma {:induction false} ChildrenExtend(c: Crawl, entries: seq<Entry>, budget: nat)
    ensures Extended(c, OfferChildren(c, entries, budget), entries, budget)
  {
    if entries != [] {
      var front, e := entries[..|entries| - 1], entries[|entries| - 1];
      var before, after := OfferChildren(c, front, budget), OfferChildren(c, entries, budget);
      ChildrenExtend(c, front, budget);
      assert forall x :: x in entries <==> x in front || x == e;
      if e.isDirectory && e.key !in c.seen {
        assert e == Entry(e.key, true);
        assert after.queue[|before.queue|] == Offer(e.key, budget);
        assert forall o :: o in after.queue <==> o in before.queue || o == Offer(e.key, budget);
      }
    }
  }

  lemma PopIsSafe(c: Crawl, seeds: seq<Offer>, dirs: Dirs, skip: set<Key>)
    requires Safe(c, seeds, dirs, skip) && c.queue != []
    ensures Safe(Popped(c), seeds, dirs, skip)
  {
    assert c.queue[0] in c.queue;
    LessIsOffered(seeds, dirs, skip, c.queue[0].key, c.queue[0].budget);
  }

  lemma ChildrenAreSafe(c: Crawl, d: Crawl, seeds: seq<Offer>, dirs: Dirs, skip: set<Key>, key: Key, left: nat)
    requires Safe(c, seeds, dirs, skip) && left > 0 && Offered(seeds, dirs, skip, key, left)
    requires key !in skip && key in dirs && Extended(c, d, dirs[key], left - 1)
    ensures Safe(d, seeds, dirs, skip)
  {
    forall o | o in d.queue
      ensures Offered(seeds, dirs, skip, o.key, o.budget)
    {
      if o !in c.queue {
        GrownBy(c, d, dirs[key], left - 1, o);
        OneFurther(seeds, dirs, skip, key, left, Entry(o.key, true));
      }
    }
    forall k | k in d.best
      ensures Offered(seeds, dirs, skip, k, d.best[k])
    {
      if !(k in c.best && d.best[k] == c.best[k]) {
        OneFurther(seeds, dirs, skip, key, left, Entry(k, true));
      }
    }
  }

  lemma GrownBy(c: Crawl, d: Crawl, entries: seq<Entry>, budget: nat, o: Offer)
    requires QueueGrown(c, d, entries, budget) && o in d.queue && o !in c.queue
    ensures o.budget == budget && Entry(o.key, true) in entries && o.key !in c.seen
  {
    var i :| 0 <= i < |d.queue| && d.queue[i] == o;
    assert forall k :: 0 <= k < |c.queue| ==> d.queue[k] == d.queue[..|c.queue|][k] == c.queue[k];
  }

  lemma StepIsSafe(c: Crawl, seeds: seq<Offer>, dirs: Dirs, skip: set<Key>)
    requires Safe(c, seeds, dirs, skip) && c.queue != []
    ensures Safe(Step(c, dirs), seeds, dirs, skip)
  {
    var key := c.queue[0].key;
    PopIsSafe(c, seeds, dirs, skip);
    if key !in c.seen && Budget(c, key) > 0 && key in dirs {
      ChildrenExtend(Popped(c), dirs[key], Budget(c, key) - 1);
      ChildrenAreSafe(Popped(c), Step(c, dirs), seeds, dirs, skip, key, Budget(c, key));
    }
  }

  lemma {:induction false} AfterIsSafe(seeds: seq<Offer>, dirs: Dirs, skip: set<Key>, max: nat, steps: nat)
    ensures var c := After(Start(seeds, skip), dirs, max, steps);
      Safe(c, seeds, dirs, skip) && |c.order| <= max
  {
    if steps == 0 {
      StartIsSafe(seeds, dirs, skip);
    } else {
      AfterIsSafe(seeds, dirs, skip, max, steps - 1);
      var before := After(Start(seeds, skip), dirs, max, steps - 1);
      if !Ended(before, max) {
        StepIsSafe(before, seeds, dirs, skip);
        StepShrinks(before, dirs);
      }
    }
  }

  // ---------------------------------------------------------------------
  // What waits: the directories of the queue not seen yet, at their first place.

  function Pending(queue: seq<Offer>, seen: set<Key>): seq<Key> {
    if queue == [] then []
    else
      var before, k := Pending(queue[..|queue| - 1], seen), queue[|queue| - 1].key;
      if k in seen || k in before then before else before + [k]
  }

  lemma {:induction false} PendingHolds(queue: seq<Offer>, seen: set<Key>)
    ensures forall k :: k in Pending(queue, seen) <==> k !in seen && exists i :: 0 <= i < |queue| && queue[i].key == k
  {
    if queue != [] {
      var front, last := queue[..|queue| - 1], queue[|queue| - 1].key;
      PendingHolds(front, seen);
      forall k | k !in seen && exists i :: 0 <= i < |queue| && queue[i].key == k
        ensures k in Pending(queue, seen)
      {
        var i :| 0 <= i < |queue| && queue[i].key == k;
        if i < |front| {
          assert front[i].key == k;
        }
      }
      forall k | k in Pending(queue, seen)
        ensures k !in seen && exists i :: 0 <= i < |queue| && queue[i].key == k
      {
        if k in Pending(front, seen) {
          var i :| 0 <= i < |front| && front[i].key == k;
          assert queue[i].key == k;
        } else {
          assert queue[|queue| - 1].key == k;
        }
      }
    }
  }

  /** Taking the head of the queue takes the head of what waits, if it waited. */
  lemma {:induction false} PendingPops(queue: seq<Offer>, seen: set<Key>)
    requires queue != []
    ensures queue[0].key in seen ==> Pending(queue[1..], seen) == Pending(queue, seen)
    ensures queue[0].key !in seen ==>
      Pending(queue, seen) == [queue[0].key] + Pending(queue[1..], seen + {queue[0].key})
  {
    var front := queue[..|queue| - 1];
    if front == [] {
      assert queue[1..] == [];
    } else {
      PendingPops(front, seen);
      assert queue[1..][..|queue[1..]| - 1] == front[1..];
      assert queue[1..][|queue[1..]| - 1] == queue[|queue| - 1];
    }
  }

  /** What waits after children are offered: what waited, and then children. */
  lemma {:induction false} PendingGrows(queue: seq<Offer>, more: seq<Offer>, seen: set<Key>)
    ensures |Pending(queue, seen)| <= |Pending(queue + more, seen)|
    ensures Pending(queue + more, seen)[..|Pending(queue, seen)|] == Pending(queue, seen)
    ensures forall i :: |Pending(queue, seen)| <= i < |Pending(queue + more, seen)| ==>
      Pending(queue + more, seen)[i] !in Pending(queue, seen)
  {
    var all := queue + more;
    if more == [] {
      assert all == queue;
    } else {
      PendingGrows(queue, more[..|more| - 1], seen);
      assert all[..|all| - 1] == queue + more[..|more| - 1];
      assert all[|all| - 1] == more[|more| - 1];
    }
  }

  lemma {:induction false} PendingIsDistinct(queue: seq<Offer>, seen: set<Key>)
    ensures Distinct(Pending(queue, seen))
  {
    if queue != [] {
      PendingIsDistinct(queue[..|queue| - 1], seen);
    }
  }

  function Waits(c: Crawl): seq<Key> {
    Pending(c.queue, c.seen)
  }

  // ---------------------------------------------------------------------
  // Turns: what waits before another is taken before it.

  ghost predicate Before(waits: seq<Key>, a: Key, b: Key) {
    a in waits && forall i, j :: 0 <= i < |waits| && 0 <= j < |waits| && waits[i] == a && waits[j] == b ==> i < j
  }

  ghost predicate InTurn(c: Crawl, a: Key, b: Key) {
    a in c.seen || (b !in c.seen && Before(Waits(c), a, b))
  }

  lemma PopInTurn(c: Crawl, d: Crawl, a: Key, b: Key)
    requires InTurn(c, a, b) && a != b && c.queue != []
    requires d == Popped(c)
    ensures InTurn(d, a, b)
  {
    var key, before, after := c.queue[0].key, Waits(c), Waits(d);
    PendingPops(c.queue, c.seen);
    if key !in c.seen && a !in d.seen {
      assert before == [key] + after && before[0] == key;
      var at :| 0 <= at < |before| && before[at] == a;
      assert after[at - 1] == a;
      forall i, j | 0 <= i < |after| && 0 <= j < |after| && after[i] == a && after[j] == b
        ensures i < j
      {
        assert before[i + 1] == a && before[j + 1] == b;
      }
    }
  }

  lemma OfferInTurn(c: Crawl, d: Crawl, a: Key, b: Key)
    requires InTurn(c, a, b) && d.seen == c.seen && |c.queue| <= |d.queue| && d.queue[..|c.queue|] == c.queue
    ensures InTurn(d, a, b)
  {
    var more, before, after := d.queue[|c.queue|..], Waits(c), Waits(d);
    assert d.queue == c.queue + more;
    PendingGrows(c.queue, more, c.seen);
    if a !in c.seen {
      var at :| 0 <= at < |before| && before[at] == a;
      assert after[..|before|][at] == a;
      forall i, j | 0 <= i < |after| && 0 <= j < |after| && after[i] == a && after[j] == b
        ensures i < j
      {
        assert i < |before| && after[..|before|][i] == before[i];
        assert j < |before| ==> after[..|before|][j] == before[j];
      }
    }
  }

  lemma StepInTurn(c: Crawl, dirs: Dirs, a: Key, b: Key)
    requires InTurn(c, a, b) && a != b && c.queue != []
    ensures InTurn(Step(c, dirs), a, b)
  {
    var key := c.queue[0].key;
    PopInTurn(c, Popped(c), a, b);
    if key !in c.seen && Budget(c, key) > 0 && key in dirs {
      ChildrenExtend(Popped(c), dirs[key], Budget(c, key) - 1);
      OfferInTurn(Popped(c), Step(c, dirs), a, b);
    }
  }

  // ---------------------------------------------------------------------
  // Completeness, for seeds that are settled.

  /** One directory lies above another, with nothing between that is hidden or skipped. */
  predicate Above(upper: Key, lower: Key, skip: set<Key>) {
    && |upper| < |lower| && lower[..|upper|] == upper
    && (forall n :: |upper| <= n < |lower| ==> Visible(lower[n]))
    && (forall n :: |upper| < n < |lower| ==> lower[..n] !in skip)
  }

  /** The directory's parent is a seed that is taken before it. */
  predicate ParentFirst(pending: seq<Key>, k: Key) {
    k != [] && exists i, j :: 0 <= i < j < |pending| && pending[i] == Parent(k) && pending[j] == k
  }

  /** No seed above another leaves it more than the other has, unless the other's parent
      is a seed taken before it. */
  predicate Settled(seeds: seq<Offer>, skip: set<Key>) {
    var pending, best := Pending(seeds, skip), RaiseAll(seeds);
    forall u, w ::
      u in pending && w in pending && u in best && w in best && Above(u, w, skip) && !ParentFirst(pending, w) ==>
      best[u] <= best[w] + (|w| - |u|)
  }

  /** A directory has been offered this budget or more, unless it is to be skipped. */
  predicate Served(c: Crawl, skip: set<Key>, k: Key, budget: nat) {
    k in skip || (k in c.best && c.best[k] >= budget)
  }

  /** A seed whose parent does not come before it, which may be taken too early. */
  predicate Loose(seeds: seq<Offer>, skip: set<Key>, k: Key) {
    k in Pending(seeds, skip) && !ParentFirst(Pending(seeds, skip), k)
  }

  ghost predicate ServesChildren(c: Crawl, seeds: seq<Offer>, dirs: Dirs, skip: set<Key>, k: Key)
    requires k in c.best
  {
    c.best[k] > 0 && k in dirs ==>
      forall e :: e in dirs[k] && e.isDirectory ==> Served(c, skip, e.key, c.best[k] - 1) || Loose(seeds, skip, e.key)
  }

  /** Whatever has been offered is seen or waits, and whatever waits or is a page was
      offered. */
  ghost predicate Waiting(c: Crawl) {
    && (forall k :: k in c.best ==> k in c.seen || k in Waits(c))
    && (forall o :: o in c.queue ==> o.key in c.best)
    && (forall k :: k in c.order ==> k in c.best)
  }

  /** Whatever has been offered is a seed or a page's child. */
  ghost predicate Sprung(c: Crawl, seeds: seq<Offer>) {
    forall k :: k in c.best ==> k in RaiseAll(seeds) || (k != [] && Parent(k) in c.order)
  }

  ghost predicate SeedsServed(c: Crawl, seeds: seq<Offer>, skip: set<Key>) {
    forall o :: o in seeds ==> Served(c, skip, o.key, o.budget)
  }

  ghost predicate PagesServe(c: Crawl, pages: seq<Key>, seeds: seq<Offer>, dirs: Dirs, skip: set<Key>) {
    forall k :: k in pages ==> k in c.best && ServesChildren(c, seeds, dirs, skip, k)
  }

  ghost predicate SeedsInTurn(c: Crawl, pending: seq<Key>) {
    forall i, j :: 0 <= i < j < |pending| ==> InTurn(c, pending[i], pending[j])
  }

  ghost predicate Fair(c: Crawl, seeds: seq<Offer>, dirs: Dirs, skip: set<Key>) {
    && Waiting(c) && Sprung(c, seeds) && SeedsInTurn(c, Pending(seeds, skip))
    && SeedsServed(c, seeds, skip) && PagesServe(c, c.order, seeds, dirs, skip)
  }

  lemma SeedsPend(seeds: seq<Offer>, skip: set<Key>)
    ensures forall k :: k in Pending(seeds, skip) <==> k in RaiseAll(seeds) && k !in skip
  {
    RaisedFromSeeds(seeds);
    PendingHolds(seeds, skip);
    forall k | k in RaiseAll(seeds) && k !in skip
      ensures k in Pending(seeds, skip)
    {
      var i :| 0 <= i < |seeds| && seeds[i] == Offer(k, RaiseAll(seeds)[k]);
    }
    forall k | k in Pending(seeds, skip)
      ensures k in RaiseAll(seeds)
    {
      var i :| 0 <= i < |seeds| && seeds[i].key == k;
      assert seeds[i] in seeds;
    }
  }

  lemma StartIsFair(seeds: seq<Offer>, dirs: Dirs, skip: set<Key>)
    ensures Fair(Start(seeds, skip), seeds, dirs, skip)
  {
    RaisedFromSeeds(seeds);
    SeedsPend(seeds, skip);
    PendingIsDistinct(seeds, skip);
    var pending := Pending(seeds, skip);
    forall i, j | 0 <= i < j < |pending|
      ensures InTurn(Start(seeds, skip), pending[i], pending[j])
    {
      assert pending[i] in pending && pending[j] in pending;
    }
  }

  lemma PopWaits(c: Crawl, d: Crawl)
    requires Waiting(c) && c.queue != []
    requires d == Popped(c)
    ensures Waiting(d)
  {
    PendingPops(c.queue, c.seen);
    assert c.queue[0] in c.queue;
    if c.queue[0].key !in c.seen {
      assert Waits(c) == [c.queue[0].key] + Waits(d);
    }
    forall o | o in d.queue
      ensures o in c.queue
    {
      var i :| 0 <= i < |d.queue| && d.queue[i] == o;
      assert c.queue[i + 1] == o;
    }
  }

  lemma OfferWaits(c: Crawl, d: Crawl, entries: seq<Entry>, budget: nat)
    requires Waiting(c) && Extended(c, d, entries, budget)
    ensures Waiting(d)
  {
    PendingHolds(c.queue, c.seen);
    PendingHolds(d.queue, d.seen);
    forall o | o in d.queue
      ensures o.key in d.best
    {
      if o !in c.queue {
        GrownBy(c, d, entries, budget, o);
        assert Entry(o.key, true).isDirectory;
      }
    }
    forall k | k in d.best && k !in d.seen
      ensures k in Waits(d)
    {
      if k in c.best && d.best[k] == c.best[k] {
        var i :| 0 <= i < |c.queue| && c.queue[i].key == k;
        assert d.queue[..|c.queue|][i] == d.queue[i];
      } else {
        var i :| 0 <= i < |d.queue| && d.queue[i] == Offer(k, budget);
      }
    }
  }

  lemma StillServed(c: Crawl, d: Crawl, seeds: seq<Offer>, skip: set<Key>)
    requires SeedsServed(c, seeds, skip) && forall k :: k in c.best ==> k in d.best && d.best[k] >= c.best[k]
    ensures SeedsServed(d, seeds, skip)
  {
    forall o | o in seeds
      ensures Served(d, skip, o.key, o.budget)
    {
      assert Served(c, skip, o.key, o.budget);
    }
  }

  lemma StillServe(c: Crawl, d: Crawl, pages: seq<Key>, seeds: seq<Offer>, dirs: Dirs, skip: set<Key>)
    requires PagesServe(c, pages, seeds, dirs, skip)
    requires forall k :: k in c.best ==> k in d.best && d.best[k] >= c.best[k]
    requires forall k :: k in pages ==> k in c.best && k in d.best && d.best[k] == c.best[k]
    ensures PagesServe(d, pages, seeds, dirs, skip)
  {
  }

  lemma StillInTurn(c: Crawl, dirs: Dirs, pending: seq<Key>)
    requires SeedsInTurn(c, pending) && Distinct(pending) && c.queue != []
    ensures SeedsInTurn(Step(c, dirs), pending)
  {
    forall i, j | 0 <= i < j < |pending|
      ensures InTurn(Step(c, dirs), pending[i], pending[j])
    {
      StepInTurn(c, dirs, pending[i], pending[j]);
    }
  }

  /** A child that was taken before the page that lists it is a loose seed: nothing else
      can have offered it. */
  lemma TakenEarlyIsLoose(c: Crawl, seeds: seq<Offer>, dirs: Dirs, skip: set<Key>, key: Key, e: Entry)
    requires Fair(c, seeds, dirs, skip) && Safe(c, seeds, dirs, skip)
    requires key !in c.seen && e.key != [] && Parent(e.key) == key && e.key in c.seen && e.key !in skip
    ensures Loose(seeds, skip, e.key)
  {
    SeedsPend(seeds, skip);
    var pending := Pending(seeds, skip);
    assert e.key in c.order && key !in c.order;
    forall i, j | 0 <= i < j < |pending| && pending[j] == e.key
      ensures pending[i] != key
    {
      assert InTurn(c, pending[i], pending[j]);
    }
  }

  lemma NewServes(c: Crawl, d: Crawl, seeds: seq<Offer>, dirs: Dirs, skip: set<Key>, key: Key, budget: nat)
    requires Fair(c, seeds, dirs, skip) && Safe(c, seeds, dirs, skip)
    requires key !in c.seen && key in dirs && IsListing(key, dirs[key])
    requires key in d.best && d.best[key] == budget + 1
    requires forall e :: e in dirs[key] && e.isDirectory && e.key !in c.seen && e.key != key ==>
      e.key in d.best && d.best[e.key] >= budget
    ensures ServesChildren(d, seeds, dirs, skip, key)
  {
    forall e | e in dirs[key] && e.isDirectory
      ensures Served(d, skip, e.key, budget) || Loose(seeds, skip, e.key)
    {
      if e.key in c.seen && e.key !in skip {
        TakenEarlyIsLoose(c, seeds, dirs, skip, key, e);
      }
    }
  }

  lemma ExtendedIsFair(c: Crawl, d: Crawl, seeds: seq<Offer>, dirs: Dirs, skip: set<Key>, key: Key)
    requires Fair(c, seeds, dirs, skip) && Safe(c, seeds, dirs, skip) && c.queue != [] && key == c.queue[0].key
    requires key !in c.seen && key in dirs && IsListing(key, dirs[key]) && Budget(c, key) > 0
    requires Extended(Popped(c), d, dirs[key], Budget(c, key) - 1)
    ensures Waiting(d) && Sprung(d, seeds) && SeedsServed(d, seeds, skip) && PagesServe(d, d.order, seeds, dirs, skip)
  {
    var v := Popped(c);
    assert c.queue[0] in c.queue && forall k :: k in v.order <==> k in c.order || k == key;
    PopWaits(c, v);
    OfferWaits(v, d, dirs[key], Budget(c, key) - 1);
    StillServed(c, d, seeds, skip);
    StillServe(c, d, c.order, seeds, dirs, skip);
    NewServes(c, d, seeds, dirs, skip, key, Budget(c, key) - 1);
    forall k | k in d.best && !(k in c.best && d.best[k] == c.best[k])
      ensures k != [] && Parent(k) in d.order
    {
      assert Entry(k, true) in dirs[key] && Parent(Entry(k, true).key) == key;
    }
  }

  lemma PoppedIsFair(c: Crawl, seeds: seq<Offer>, dirs: Dirs, skip: set<Key>)
    requires Fair(c, seeds, dirs, skip) && c.queue != []
    requires var key := c.queue[0].key; key in c.seen || Budget(c, key) == 0 || key !in dirs
    ensures var d := Popped(c);
      Waiting(d) && Sprung(d, seeds) && SeedsServed(d, seeds, skip) && PagesServe(d, d.order, seeds, dirs, skip)
  {
    assert c.queue[0] in c.queue;
    PopWaits(c, Popped(c));
    StillServed(c, Popped(c), seeds, skip);
    StillServe(c, Popped(c), c.order, seeds, dirs, skip);
  }

  lemma StepExtends(c: Crawl, dirs: Dirs)
    requires c.queue != [] && c.queue[0].key !in c.seen && c.queue[0].key in dirs && Budget(c, c.queue[0].key) > 0
    ensures Extended(Popped(c), Step(c, dirs), dirs[c.queue[0].key], Budget(c, c.queue[0].key) - 1)
  {
    ChildrenExtend(Popped(c), dirs[c.queue[0].key], Budget(c, c.queue[0].key) - 1);
  }

  lemma StepIsFair(c: Crawl, seeds: seq<Offer>, dirs: Dirs, skip: set<Key>)
    requires IsTree(dirs) && Fair(c, seeds, dirs, skip) && Safe(c, seeds, dirs, skip) && c.queue != []
    ensures Fair(Step(c, dirs), seeds, dirs, skip)
  {
    var key := c.queue[0].key;
    PendingIsDistinct(seeds, skip);
    StillInTurn(c, dirs, Pending(seeds, skip));
    if key in c.seen || Budget(c, key) == 0 || key !in dirs {
      assert Step(c, dirs) == Popped(c);
      PoppedIsFair(c, seeds, dirs, skip);
    } else {
      assert IsListing(key, dirs[key]);
      StepExtends(c, dirs);
      ExtendedIsFair(c, Step(c, dirs), seeds, dirs, skip, key);
    }
  }

  lemma AfterIsFair(seeds: seq<Offer>, dirs: Dirs, skip: set<Key>, max: nat, steps: nat)
    requires IsTree(dirs)
    ensures Fair(After(Start(seeds, skip), dirs, max, steps), seeds, dirs, skip)
  {
    StartIsFair(seeds, dirs, skip);
    for n := 0 to steps
      invariant Fair(After(Start(seeds, skip), dirs, max, n), seeds, dirs, skip)
    {
      AfterIsSafe(seeds, dirs, skip, max, n);
      if !Ended(After(Start(seeds, skip), dirs, max, n), max) {
        StepIsFair(After(Start(seeds, skip), dirs, max, n), seeds, dirs, skip);
      }
    }
  }

  /** On a tree a path goes down one name at a time. */
  lemma {:induction false} PathGoesDown(dirs: Dirs, skip: set<Key>, p: seq<Key>)
    requires IsTree(dirs) && Path(dirs, skip, p) && |p| >= 2
    ensures Above(p[0], p[|p| - 1], skip) && |p[|p| - 1]| == |p[0]| + |p| - 1
    decreases |p|
  {
    var k, last := p[|p| - 2], p[|p| - 1];
    assert p[|p| - 2 + 1] == last && Entry(last, true) in dirs[k] && IsListing(k, dirs[k]);
    assert Parent(Entry(last, true).key) == k && Visible(last[|k|]);
    if |p| > 2 {
      var front := p[..|p| - 1];
      assert Path(dirs, skip, front) by {
        forall i | 0 <= i < |front| - 1
          ensures front[i] !in skip && front[i] in dirs && Entry(front[i + 1], true) in dirs[front[i]]
        {
          assert front[i] == p[i] && front[i + 1] == p[i + 1];
        }
      }
      PathGoesDown(dirs, skip, front);
      forall n | |p[0]| < n < |last|
        ensures last[..n] !in skip
      {
        assert last[..n] == k[..n];
      }
      assert last[..|p[0]|] == k[..|p[0]|];
    }
  }

  /** Once the queue is empty, every path has been followed as far as its budget goes. */
  lemma {:induction false} PathIsFollowed(c: Crawl, seeds: seq<Offer>, dirs: Dirs, skip: set<Key>,
    p: seq<Key>, seed: Offer, left: nat)
    requires IsTree(dirs) && Settled(seeds, skip)
    requires Fair(c, seeds, dirs, skip) && Safe(c, seeds, dirs, skip) && c.queue == []
    requires Leaves(seeds, dirs, skip, p, seed, left)
    ensures Served(c, skip, p[|p| - 1], left)
    decreases |p|
  {
    if |p| == 1 {
      assert Served(c, skip, seed.key, seed.budget);
    } else {
      var front, k := p[..|p| - 1], p[|p| - 2];
      forall i | 0 <= i < |front| - 1
        ensures front[i] !in skip && front[i] in dirs && Entry(front[i + 1], true) in dirs[front[i]]
      {
        assert front[i] == p[i] && front[i + 1] == p[i + 1];
      }
      assert Leaves(seeds, dirs, skip, front, seed, left + 1);
      PathIsFollowed(c, seeds, dirs, skip, front, seed, left + 1);
      assert k !in skip && Entry(p[|p| - 2 + 1], true) in dirs[k];
      assert k in c.order && ServesChildren(c, seeds, dirs, skip, k);
      if Loose(seeds, skip, p[|p| - 1]) {
        PathGoesDown(dirs, skip, p);
        LooseHasEnough(c, seeds, dirs, skip, p[0], p[|p| - 1], seed, left);
      }
    }
  }

  lemma LooseHasEnough(c: Crawl, seeds: seq<Offer>, dirs: Dirs, skip: set<Key>, u: Key, w: Key, seed: Offer, left: nat)
    requires Settled(seeds, skip) && SeedsServed(c, seeds, skip) && seed in seeds && seed.key == u && u !in skip
    requires Loose(seeds, skip, w) && Above(u, w, skip) && left + (|w| - |u|) <= seed.budget
    ensures Served(c, skip, w, left)
  {
    RaisedFromSeeds(seeds);
    SeedsPend(seeds, skip);
    assert Served(c, skip, Offer(w, RaiseAll(seeds)[w]).key, Offer(w, RaiseAll(seeds)[w]).budget);
  }

  lemma OfferIsServed(c: Crawl, seeds: seq<Offer>, dirs: Dirs, skip: set<Key>, k: Key, left: nat)
    requires IsTree(dirs) && Settled(seeds, skip)
    requires Fair(c, seeds, dirs, skip) && Safe(c, seeds, dirs, skip) && c.queue == []
    requires Offered(seeds, dirs, skip, k, left)
    ensures Served(c, skip, k, left)
  {
    var p, seed :| Leaves(seeds, dirs, skip, p, seed, left) && p[|p| - 1] == k;
    PathIsFollowed(c, seeds, dirs, skip, p, seed, left);
  }

  /** For settled seeds, on every tree, a crawl that ran out of directories has exactly
      the pages that can be reached within the budget. */
  lemma CrawlFindsAll(seeds: seq<Offer>, dirs: Dirs, skip: set<Key>, max: nat, steps: nat)
    requires IsTree(dirs) && Settled(seeds, skip) && After(Start(seeds, skip), dirs, max, steps).queue == []
    ensures forall k :: k in After(Start(seeds, skip), dirs, max, steps).order <==>
      k !in skip && Within(seeds, dirs, skip, k)
  {
    var c := After(Start(seeds, skip), dirs, max, steps);
    AfterIsFair(seeds, dirs, skip, max, steps);
    AfterIsSafe(seeds, dirs, skip, max, steps);
    forall k | k !in skip && Within(seeds, dirs, skip, k)
      ensures k in c.order
    {
      OfferIsServed(c, seeds, dirs, skip, k, 0);
    }
  }

  // ---------------------------------------------------------------------
  // Order: the seeds, and then the children of each page in turn.

  /** The directories that start to wait when entries are offered. */
  function News(c: Crawl, entries: seq<Entry>): seq<Key> {
    if entries == [] then []
    else
      var before, e := News(c, entries[..|entries| - 1]), entries[|entries| - 1];
      if e.isDirectory && e.key !in c.seen && e.key !in Waits(c) && e.key !in before then before + [e.key] else before
  }

  lemma {:induction false} OfferAdds(c: Crawl, entries: seq<Entry>, budget: nat)
    ensures Waits(OfferChildren(c, entries, budget)) == Waits(c) + News(c, entries)
  {
    if entries != [] {
      var front, e := entries[..|entries| - 1], entries[|entries| - 1];
      var before, after := OfferChildren(c, front, budget), OfferChildren(c, entries, budget);
      OfferAdds(c, front, budget);
      ChildrenKeepOrder(c, front, budget);
      if e.isDirectory && e.key !in c.seen {
        assert after.queue[..|after.queue| - 1] == before.queue && after.queue[|after.queue| - 1].key == e.key;
      }
    }
  }

  ghost predicate ListedBefore(entries: seq<Entry>, a: Key, b: Key) {
    exists x, y :: 0 <= x < y < |entries| && entries[x].key == a && entries[y].key == b
  }

  lemma {:induction false} NewsAreListed(c: Crawl, entries: seq<Entry>)
    ensures forall k :: k in News(c, entries) ==> Entry(k, true) in entries
    ensures forall i, j :: 0 <= i < j < |News(c, entries)| ==>
      ListedBefore(entries, News(c, entries)[i], News(c, entries)[j])
  {
    if entries != [] {
      var front, e, news := entries[..|entries| - 1], entries[|entries| - 1], News(c, entries);
      NewsAreListed(c, front);
      assert e == Entry(e.key, e.isDirectory);
      forall i, j | 0 <= i < j < |news|
        ensures ListedBefore(entries, news[i], news[j])
      {
        if j < |News(c, front)| {
          assert ListedBefore(front, News(c, front)[i], News(c, front)[j]);
          var x, y :| 0 <= x < y < |front| && front[x].key == news[i] && front[y].key == news[j];
          assert entries[x].key == news[i] && entries[y].key == news[j];
        } else {
          assert news[i] in News(c, front);
          var x :| 0 <= x < |front| && front[x] == Entry(news[i], true);
          assert entries[x].key == news[i] && entries[|entries| - 1].key == news[j];
        }
      }
    }
  }

  predicate IsChild(k: Key, parent: Key) {
    k != [] && Parent(k) == parent
  }

  /** The first is listed before the second: by an earlier page, or earlier by the same. */
  ghost predicate Follows(order: seq<Key>, dirs: Dirs, a: Key, b: Key) {
    exists x, y :: 0 <= x <= y < |order| && IsChild(a, order[x]) && IsChild(b, order[y])
      && (x == y ==> order[x] in dirs && ListedBefore(dirs[order[x]], a, b))
  }

  /** The pages and then what waits. */
  function Row(c: Crawl): seq<Key> {
    c.order + Waits(c)
  }

  ghost predicate ListedByPages(order: seq<Key>, row: seq<Key>, first: nat) {
    forall i :: first <= i < |row| ==> row[i] != [] && Parent(row[i]) in order
  }

  ghost predicate RowFollows(order: seq<Key>, row: seq<Key>, dirs: Dirs, first: nat) {
    forall i, j :: first <= i < j < |row| ==> Follows(order, dirs, row[i], row[j])
  }

  /** The row is some first directories and then children in order. */
  ghost predicate InOrder(c: Crawl, dirs: Dirs, seeds: seq<Key>) {
    && seeds <= Row(c)
    && ListedByPages(c.order, Row(c), |seeds|)
    && RowFollows(c.order, Row(c), dirs, |seeds|)
  }

  lemma StillFollows(order: seq<Key>, more: seq<Key>, dirs: Dirs, a: Key, b: Key)
    requires Follows(order, dirs, a, b) && order <= more
    ensures Follows(more, dirs, a, b)
  {
    var x, y :| 0 <= x <= y < |order| && IsChild(a, order[x]) && IsChild(b, order[y])
      && (x == y ==> order[x] in dirs && ListedBefore(dirs[order[x]], a, b));
    assert more[x] == order[x] && more[y] == order[y];
  }

  lemma PopKeepsRow(c: Crawl, d: Crawl)
    requires c.queue != []
    requires d == Popped(c)
    ensures Row(d) == Row(c) && c.order <= d.order
  {
    PendingPops(c.queue, c.seen);
  }

  lemma NewFollows(order: seq<Key>, dirs: Dirs, key: Key, a: Key, b: Key)
    requires order != [] && order[|order| - 1] == key && key in dirs && IsListing(key, dirs[key])
    requires Entry(b, true) in dirs[key]
    requires (a != [] && Parent(a) in order && Parent(a) != key) || ListedBefore(dirs[key], a, b)
    ensures Follows(order, dirs, a, b)
  {
    var last, entries := |order| - 1, dirs[key];
    assert IsChild(Entry(b, true).key, order[last]);
    if ListedBefore(entries, a, b) {
      var x, y :| 0 <= x < y < |entries| && entries[x].key == a && entries[y].key == b;
      assert entries[x] in entries && IsChild(entries[x].key, order[last]);
    } else {
      var x :| 0 <= x < |order| && order[x] == Parent(a);
      assert x < last && IsChild(a, order[x]);
    }
  }

  /** Nothing in the row is listed by a directory before it is a page. */
  ghost predicate NotListedBy(row: seq<Key>, first: nat, key: Key) {
    forall i :: first <= i < |row| ==> row[i] != [] && Parent(row[i]) != key
  }

  /** What a listing adds keeps the row in order. */
  lemma RowGrows(order: seq<Key>, row: seq<Key>, news: seq<Key>, dirs: Dirs, first: nat, key: Key)
    requires order != [] && order[|order| - 1] == key && key in dirs && IsListing(key, dirs[key])
    requires ListedByPages(order, row, first) && RowFollows(order, row, dirs, first) && NotListedBy(row, first, key)
    requires forall k :: k in news ==> Entry(k, true) in dirs[key]
    requires forall i, j :: 0 <= i < j < |news| ==> ListedBefore(dirs[key], news[i], news[j])
    ensures first <= |row| ==> ListedByPages(order, row + news, first) && RowFollows(order, row + news, dirs, first)
  {
    var all := row + news;
    forall j | |row| <= j < |all|
      ensures Entry(all[j], true) in dirs[key] && IsChild(all[j], key)
    {
      assert all[j] == news[j - |row|] && all[j] in news;
      assert Parent(Entry(all[j], true).key) == key;
    }
    if first <= |row| {
      forall i, j | first <= i < j < |all|
        ensures Follows(order, dirs, all[i], all[j])
      {
        if j < |row| {
          assert Follows(order, dirs, row[i], row[j]);
        } else {
          if i >= |row| {
            assert ListedBefore(dirs[key], news[i - |row|], news[j - |row|]);
          } else {
            assert all[i] == row[i];
          }
          NewFollows(order, dirs, key, all[i], all[j]);
        }
      }
    }
  }

  lemma OfferInOrder(v: Crawl, dirs: Dirs, seeds: seq<Key>, key: Key, budget: nat)
    requires v.order != [] && v.order[|v.order| - 1] == key && key in dirs && IsListing(key, dirs[key])
    requires InOrder(v, dirs, seeds) && NotListedBy(Row(v), |seeds|, key)
    ensures InOrder(OfferChildren(v, dirs[key], budget), dirs, seeds)
  {
    var d, news := OfferChildren(v, dirs[key], budget), News(v, dirs[key]);
    ChildrenKeepOrder(v, dirs[key], budget);
    OfferAdds(v, dirs[key], budget);
    NewsAreListed(v, dirs[key]);
    assert d.order == v.order && Row(d) == Row(v) + news;
    assert seeds <= Row(v) && |seeds| <= |Row(v)|;
    RowGrows(d.order, Row(v), news, dirs, |seeds|, key);
  }

  lemma PopInOrder(c: Crawl, dirs: Dirs, seeds: seq<Key>)
    requires InOrder(c, dirs, seeds) && c.queue != []
    ensures InOrder(Popped(c), dirs, seeds) && Row(Popped(c)) == Row(c)
  {
    PopKeepsRow(c, Popped(c));
    forall i, j | |seeds| <= i < j < |Row(c)|
      ensures Follows(Popped(c).order, dirs, Row(c)[i], Row(c)[j])
    {
      StillFollows(c.order, Popped(c).order, dirs, Row(c)[i], Row(c)[j]);
    }
  }

  lemma StepInOrder(c: Crawl, dirs: Dirs, seeds: seq<Key>)
    requires IsTree(dirs) && InOrder(c, dirs, seeds) && c.queue != []
    requires forall k :: k in c.order ==> k in c.seen
    ensures InOrder(Step(c, dirs), dirs, seeds)
  {
    var key := c.queue[0].key;
    PopInOrder(c, dirs, seeds);
    if key in c.seen || Budget(c, key) == 0 || key !in dirs {
      assert Step(c, dirs) == Popped(c);
    } else {
      assert NotListedBy(Row(c), |seeds|, key);
      OfferInOrder(Popped(c), dirs, seeds, key, Budget(c, key) - 1);
    }
  }

  /** On every tree and for all seeds: the seeds not to be skipped come first, in their
      order, and then children, in the order of the pages that list them and of each
      listing. */
  ghost predicate BreadthFirst(order: seq<Key>, seeds: seq<Offer>, dirs: Dirs, skip: set<Key>) {
    var pending := Pending(seeds, skip);
    && (forall i :: 0 <= i < |order| && i < |pending| ==> order[i] == pending[i])
    && (forall i, j :: |pending| <= i < j < |order| ==> Follows(order, dirs, order[i], order[j]))
  }

  lemma AfterInOrder(seeds: seq<Offer>, dirs: Dirs, skip: set<Key>, max: nat, steps: nat)
    requires IsTree(dirs)
    ensures InOrder(After(Start(seeds, skip), dirs, max, steps), dirs, Pending(seeds, skip))
  {
    assert Row(Start(seeds, skip)) == Pending(seeds, skip);
    for n := 0 to steps
      invariant InOrder(After(Start(seeds, skip), dirs, max, n), dirs, Pending(seeds, skip))
    {
      AfterIsSafe(seeds, dirs, skip, max, n);
      if !Ended(After(Start(seeds, skip), dirs, max, n), max) {
        StepInOrder(After(Start(seeds, skip), dirs, max, n), dirs, Pending(seeds, skip));
      }
    }
  }

  lemma CrawlIsBreadthFirst(seeds: seq<Offer>, dirs: Dirs, skip: set<Key>, max: nat, steps: nat)
    requires IsTree(dirs)
    ensures BreadthFirst(After(Start(seeds, skip), dirs, max, steps).order, seeds, dirs, skip)
  {
    var c := After(Start(seeds, skip), dirs, max, steps);
    AfterInOrder(seeds, dirs, skip, max, steps);
    assert forall i :: 0 <= i < |c.order| ==> c.order[i] == Row(c)[i];
  }

  // ---------------------------------------------------------------------
  // What seeds that are not settled hide.

  /** A tree that is one path. */
  function TreeOf(p: seq<Key>): Dirs {
    if |p| < 2 then map[] else TreeOf(p[1..])[p[0] := [Entry(p[1], true)]]
  }

  lemma {:induction false} TreeIsPath(p: seq<Key>)
    requires Distinct(p)
    ensures forall t :: 0 <= t < |p| - 1 ==> p[t] in TreeOf(p) && TreeOf(p)[p[t]] == [Entry(p[t + 1], true)]
    ensures forall k :: k in TreeOf(p) ==> exists t :: 0 <= t < |p| - 1 && p[t] == k
  {
    if |p| >= 2 {
      var rest := p[1..];
      TreeIsPath(rest);
      forall t | 0 <= t < |p| - 1
        ensures p[t] in TreeOf(p) && TreeOf(p)[p[t]] == [Entry(p[t + 1], true)]
      {
        if t > 0 {
          assert rest[t - 1] == p[t] && rest[t] == p[t + 1];
        }
      }
      forall k | k in TreeOf(p)
        ensures exists t :: 0 <= t < |p| - 1 && p[t] == k
      {
        if k in TreeOf(rest) {
          var t :| 0 <= t < |rest| - 1 && rest[t] == k;
          assert p[t + 1] == k;
        } else {
          assert p[0] == k;
        }
      }
    }
  }

  /** Whatever waits or is a page was offered something. */
  ghost predicate Known(c: Crawl) {
    && (forall o :: o in c.queue ==> o.key in c.best)
    && (forall k :: k in c.order ==> k in c.best)
  }

  /** From a place on a path on, no more was offered than a budget there leaves. */
  ghost predicate AtMost(c: Crawl, p: seq<Key>, y: nat, budget: nat) {
    forall t :: y <= t < |p| && p[t] in c.best ==> c.best[p[t]] + (t - y) <= budget
  }

  /** A seed on a path waits before the one above it on the path, which alone could offer
      it more, so what is below gets at most what the seed's own budget leaves. */
  ghost predicate Hides(c: Crawl, p: seq<Key>, y: nat, budget: nat)
    requires 0 < y < |p|
  {
    Known(c) && AtMost(c, p, y, budget) && InTurn(c, p[y], p[y - 1])
  }

  lemma PopHides(c: Crawl, p: seq<Key>, y: nat, budget: nat)
    requires 0 < y < |p| && Hides(c, p, y, budget) && c.queue != [] && Distinct(p)
    ensures Hides(Popped(c), p, y, budget) && c.queue[0].key in c.best
    ensures c.queue[0].key == p[y - 1] && c.queue[0].key !in c.seen ==> p[y] in Popped(c).seen
  {
    PopInTurn(c, Popped(c), p[y], p[y - 1]);
    assert c.queue[0] in c.queue;
    forall o | o in Popped(c).queue
      ensures o in c.queue
    {
      var i :| 0 <= i < |Popped(c).queue| && Popped(c).queue[i] == o;
      assert c.queue[i + 1] == o;
    }
  }

  lemma OfferHides(v: Crawl, p: seq<Key>, y: nat, budget: nat, t: nat, left: nat)
    requires 0 < y < |p| && t + 1 < |p| && Hides(v, p, y, budget) && Distinct(p)
    requires t + 1 == y ==> p[y] in v.seen
    requires t >= y ==> left + 1 + (t - y) <= budget
    ensures Hides(OfferChildren(v, [Entry(p[t + 1], true)], left), p, y, budget)
  {
    var e := Entry(p[t + 1], true);
    var d, es := OfferChildren(v, [e], left), [e];
    assert es[..|es| - 1] == [] && OfferChildren(v, [], left) == v;
    if e.key !in v.seen {
      assert d == v.(best := Raise(v.best, e.key, left), queue := v.queue + [Offer(e.key, left)]);
      assert d.queue[..|v.queue|] == v.queue;
      OfferInTurn(v, d, p[y], p[y - 1]);
    }
  }

  /** On a tree that is one path a step offers the next directory, if any. */
  lemma PathStep(c: Crawl, p: seq<Key>) returns (t: nat)
    requires c.queue != [] && Distinct(p)
    requires c.queue[0].key !in c.seen && Budget(c, c.queue[0].key) > 0 && c.queue[0].key in TreeOf(p)
    ensures t + 1 < |p| && p[t] == c.queue[0].key
    ensures Step(c, TreeOf(p)) == OfferChildren(Popped(c), [Entry(p[t + 1], true)], Budget(c, p[t]) - 1)
  {
    TreeIsPath(p);
    t :| 0 <= t < |p| - 1 && p[t] == c.queue[0].key;
  }

  lemma StepHides(c: Crawl, p: seq<Key>, y: nat, budget: nat)
    requires 0 < y < |p| && Hides(c, p, y, budget) && c.queue != [] && Distinct(p)
    ensures Hides(Step(c, TreeOf(p)), p, y, budget)
  {
    var key := c.queue[0].key;
    PopHides(c, p, y, budget);
    if key in c.seen || Budget(c, key) == 0 || key !in TreeOf(p) {
      assert Step(c, TreeOf(p)) == Popped(c);
    } else {
      var t := PathStep(c, p);
      assert AtMost(c, p, y, budget) && p[t] in c.best;
      OfferHides(Popped(c), p, y, budget, t, Budget(c, p[t]) - 1);
    }
  }

  lemma {:induction false} AfterHides(c: Crawl, p: seq<Key>, y: nat, budget: nat, max: nat, steps: nat)
    requires 0 < y < |p| && Hides(c, p, y, budget) && Distinct(p)
    ensures Hides(After(c, TreeOf(p), max, steps), p, y, budget)
  {
    if steps > 0 {
      AfterHides(c, p, y, budget, max, steps - 1);
      var before := After(c, TreeOf(p), max, steps - 1);
      if !Ended(before, max) {
        StepHides(before, p, y, budget);
      }
    }
  }

  /** The directories on the way down to one, from a certain depth. */
  function Line(k: Key, from: nat): (p: seq<Key>)
    requires from <= |k|
    ensures |p| == |k| - from + 1
    ensures forall t :: 0 <= t < |p| ==> p[t] == k[..from + t]
  {
    if |k| == from then [k] else Line(Parent(k), from) + [k]
  }

  lemma LineIsDistinct(k: Key, from: nat)
    requires from <= |k|
    ensures Distinct(Line(k, from))
  {
    assert forall t :: 0 <= t < |Line(k, from)| ==> |Line(k, from)[t]| == from + t;
  }

  lemma LineIsTree(k: Key, from: nat)
    requires from <= |k| && forall n :: from <= n < |k| ==> Visible(k[n])
    ensures Distinct(Line(k, from)) && IsTree(TreeOf(Line(k, from)))
  {
    var p := Line(k, from);
    LineIsDistinct(k, from);
    TreeIsPath(p);
    forall d | d in TreeOf(p)
      ensures IsListing(d, TreeOf(p)[d])
    {
      var t :| 0 <= t < |p| - 1 && p[t] == d;
      assert p[t + 1] == k[..from + t + 1] && Parent(p[t + 1]) == p[t];
      assert TreeOf(p)[d] == [Entry(p[t + 1], true)];
    }
  }

  function Repeated(name: string, n: nat): (names: Key)
    ensures |names| == n && forall i :: 0 <= i < n ==> names[i] == name
  {
    if n == 0 then [] else Repeated(name, n - 1) + [name]
  }

  /** A name a listing may show and that is on none of some paths. */
  lemma {:induction false} NewName(keys: set<Key>) returns (name: string)
    ensures Visible(name) && forall k :: k in keys ==> name !in k
  {
    var size := LongerThanAll(keys);
    name := Repeat('x', size + 1);
    assert name[0] == 'x' && forall c :: c in name ==> c == 'x';
  }

  function Repeat(c: char, n: nat): (s: string)
    ensures |s| == n && forall i :: 0 <= i < n ==> s[i] == c
  {
    if n == 0 then [] else Repeat(c, n - 1) + [c]
  }

  lemma {:induction false} LongerThanAll(keys: set<Key>) returns (size: nat)
    ensures forall k, n :: k in keys && 0 <= n < |k| ==> |k[n]| < size
    decreases |keys|
  {
    if keys == {} {
      size := 0;
    } else {
      var k :| k in keys;
      var rest := LongerThanAll(keys - {k});
      var own := LongerThan(k);
      size := rest + own;
    }
  }

  lemma {:induction false} LongerThan(k: Key) returns (size: nat)
    ensures forall n :: 0 <= n < |k| ==> |k[n]| < size
  {
    if k == [] {
      size := 0;
    } else {
      var rest := LongerThan(Parent(k));
      size := rest + |k[|k| - 1]| + 1;
    }
  }

  lemma LineIsWithin(seeds: seq<Offer>, skip: set<Key>, k: Key, from: nat)
    requires from <= |k| && k[..from] in RaiseAll(seeds) && RaiseAll(seeds)[k[..from]] >= |k| - from
    requires forall n :: from <= n < |k| ==> Visible(k[n]) && k[..n] !in skip
    ensures Within(seeds, TreeOf(Line(k, from)), skip, k)
  {
    var p := Line(k, from);
    RaisedFromSeeds(seeds);
    LineIsTree(k, from);
    TreeIsPath(p);
    var seed := Offer(p[0], RaiseAll(seeds)[p[0]]);
    assert p[0] == k[..from] && seed in seeds;
    forall i | 0 <= i < |p| - 1
      ensures p[i] !in skip && p[i] in TreeOf(p) && Entry(p[i + 1], true) in TreeOf(p)[p[i]]
    {
      assert p[i] == k[..from + i];
      assert TreeOf(p)[p[i]] == [Entry(p[i + 1], true)];
    }
    assert p[|p| - 1] == k[..|k|] == k;
    assert Leaves(seeds, TreeOf(p), skip, p, seed, 0);
  }

  lemma StartHides(seeds: seq<Offer>, skip: set<Key>, p: seq<Key>, y: nat)
    requires 0 < y < |p| && p[y] in RaiseAll(seeds) && p[y - 1] !in skip
    requires forall t :: y < t < |p| ==> p[t] !in RaiseAll(seeds)
    requires Before(Pending(seeds, skip), p[y], p[y - 1])
    ensures Hides(Start(seeds, skip), p, y, RaiseAll(seeds)[p[y]])
  {
    RaisedFromSeeds(seeds);
  }

  lemma LooseIsBefore(pending: seq<Key>, w: Key)
    requires w in pending && w != [] && !ParentFirst(pending, w)
    ensures Before(pending, w, Parent(w))
  {
    forall i, j | 0 <= i < |pending| && 0 <= j < |pending| && pending[i] == w && pending[j] == Parent(w)
      ensures i < j
    {
      assert |pending[i]| != |pending[j]|;
    }
  }

  /** A directory by new names below a seed that is taken too early. */
  lemma BelowIsHidden(seeds: seq<Offer>, skip: set<Key>, u: Key, w: Key, hidden: Key)
    requires u in RaiseAll(seeds) && w in Pending(seeds, skip) && w in RaiseAll(seeds) && Above(u, w, skip)
    requires !ParentFirst(Pending(seeds, skip), w) && Parent(w) !in skip
    requires |hidden| == |w| + RaiseAll(seeds)[w] + 1 && hidden[..|w|] == w
    requires forall m :: |w| < m <= |hidden| ==> hidden[..m] !in RaiseAll(seeds)
    ensures forall max, steps ::
      hidden !in After(Start(seeds, skip), TreeOf(Line(hidden, |u|)), max, steps).order
  {
    var p, y, budget := Line(hidden, |u|), |w| - |u|, RaiseAll(seeds)[w];
    assert p[y] == hidden[..|w|] == w && p[y - 1] == hidden[..|w| - 1] == Parent(w);
    LooseIsBefore(Pending(seeds, skip), w);
    LineIsDistinct(hidden, |u|);
    forall t | y < t < |p|
      ensures p[t] !in RaiseAll(seeds)
    {
      assert p[t] == hidden[..|u| + t];
    }
    StartHides(seeds, skip, p, y);
    forall max, steps
      ensures hidden !in After(Start(seeds, skip), TreeOf(p), max, steps).order
    {
      AfterHides(Start(seeds, skip), p, y, budget, max, steps);
      assert p[|p| - 1] == hidden;
    }
  }

  /** For seeds that are not settled there is a tree with a directory within the budget
      that no crawl, however long, makes a page: being settled is exactly what it takes. */
  lemma UnsettledSeedsHide(seeds: seq<Offer>, skip: set<Key>) returns (dirs: Dirs, hidden: Key)
    requires !Settled(seeds, skip)
    ensures IsTree(dirs) && hidden !in skip && Within(seeds, dirs, skip, hidden)
    ensures forall max, steps :: hidden !in After(Start(seeds, skip), dirs, max, steps).order
  {
    var pending, best := Pending(seeds, skip), RaiseAll(seeds);
    var u, w :| u in pending && w in pending && u in best && w in best && Above(u, w, skip)
      && !ParentFirst(pending, w) && best[u] > best[w] + (|w| - |u|);
    var name := NewName(skip + best.Keys);
    hidden := w + Repeated(name, best[w] + 1);
    dirs := TreeOf(Line(hidden, |u|));
    BelowIsNew(skip + best.Keys, w, name, best[w] + 1);
    PathBelow(seeds, skip, u, w, hidden);
    LineIsTree(hidden, |u|);
    LineIsWithin(seeds, skip, hidden, |u|);
    assert hidden[..|w|] == w && hidden[..|w| - 1] == Parent(w);
    BelowIsHidden(seeds, skip, u, w, hidden);
  }

  /** Nothing below a directory by a new name is among the keys. */
  lemma BelowIsNew(keys: set<Key>, w: Key, name: string, n: nat)
    requires forall k :: k in keys ==> name !in k
    ensures forall m :: |w| < m <= |w| + n ==> (w + Repeated(name, n))[..m] !in keys
  {
    var k := w + Repeated(name, n);
    forall m | |w| < m <= |w| + n
      ensures k[..m] !in keys
    {
      assert k[..m][|w|] == name;
    }
  }

  lemma PathBelow(seeds: seq<Offer>, skip: set<Key>, u: Key, w: Key, k: Key)
    requires u in Pending(seeds, skip) && w in Pending(seeds, skip) && Above(u, w, skip)
    requires |w| < |k| && k[..|w|] == w
    requires forall m :: |w| < m <= |k| ==> k[..m] !in skip
    ensures k[..|u|] == u && forall n :: |u| <= n <= |k| ==> k[..n] !in skip
  {
    PendingHolds(seeds, skip);
    assert k[..|u|] == w[..|u|];
    forall n | |u| <= n <= |k|
      ensures k[..n] !in skip
    {
      if n < |w| {
        assert k[..n] == w[..n];
      }
    }
  }

  // ---------------------------------------------------------------------
  // The seeds the site is built from: two deep ones, and the volumes without depth.

  function SiteSeeds(start: Key, home: Key, deep: nat, volumes: seq<Key>): seq<Offer> {
    if volumes == [] then [Offer(start, deep), Offer(home, deep)]
    else SiteSeeds(start, home, deep, volumes[..|volumes| - 1]) + [Offer(volumes[|volumes| - 1], 0)]
  }

  predicate IsDeep(start: Key, home: Key, k: Key) {
    k == start || k == home
  }

  lemma SiteBudgets(start: Key, home: Key, deep: nat, volumes: seq<Key>, skip: set<Key>)
    ensures var seeds := SiteSeeds(start, home, deep, volumes);
      && (forall k :: k in RaiseAll(seeds) ==> RaiseAll(seeds)[k] == if IsDeep(start, home, k) then deep else 0)
      && (forall k :: k in RaiseAll(seeds) <==> IsDeep(start, home, k) || k in volumes)
      && (forall k :: k in Pending(seeds, skip) <==> k !in skip && (IsDeep(start, home, k) || k in volumes))
      && DeepFirst(start, home, Pending(seeds, skip))
  {
    SiteRaised(start, home, deep, volumes);
    SitePending(start, home, deep, volumes, skip);
  }

  lemma {:induction false} SiteRaised(start: Key, home: Key, deep: nat, volumes: seq<Key>)
    ensures var best := RaiseAll(SiteSeeds(start, home, deep, volumes));
      && (forall k :: k in best ==> best[k] == if IsDeep(start, home, k) then deep else 0)
      && (forall k :: k in best <==> IsDeep(start, home, k) || k in volumes)
  {
    var seeds := SiteSeeds(start, home, deep, volumes);
    if volumes == [] {
      assert seeds[..1] == [Offer(start, deep)] && [Offer(start, deep)][..0] == [];
      assert RaiseAll([Offer(start, deep)]) == map[start := deep];
    } else {
      var front, last := volumes[..|volumes| - 1], volumes[|volumes| - 1];
      SiteRaised(start, home, deep, front);
      assert seeds[..|seeds| - 1] == SiteSeeds(start, home, deep, front) && seeds[|seeds| - 1] == Offer(last, 0);
      assert forall k :: k in volumes <==> k in front || k == last;
    }
  }

  lemma {:induction false} SitePending(start: Key, home: Key, deep: nat, volumes: seq<Key>, skip: set<Key>)
    ensures var pending := Pending(SiteSeeds(start, home, deep, volumes), skip);
      && (forall k :: k in pending <==> k !in skip && (IsDeep(start, home, k) || k in volumes))
      && DeepFirst(start, home, pending)
  {
    var seeds := SiteSeeds(start, home, deep, volumes);
    if volumes == [] {
      assert seeds[..1] == [Offer(start, deep)] && [Offer(start, deep)][..0] == [];
      assert Pending([Offer(start, deep)], skip) == if start in skip then [] else [start];
    } else {
      var front, last := volumes[..|volumes| - 1], volumes[|volumes| - 1];
      SitePending(start, home, deep, front, skip);
      assert seeds[..|seeds| - 1] == SiteSeeds(start, home, deep, front) && seeds[|seeds| - 1] == Offer(last, 0);
      assert forall k :: k in volumes <==> k in front || k == last;
    }
  }

  predicate DeepFirst(start: Key, home: Key, pending: seq<Key>) {
    forall i, j :: 0 <= i < j < |pending| && IsDeep(start, home, pending[j]) ==> IsDeep(start, home, pending[i])
  }

  /** A volume that a deep directory may not have offered its depth by its turn. */
  predicate Early(start: Key, home: Key, deep: nat, volumes: seq<Key>, skip: set<Key>, volume: Key) {
    && volume in volumes && volume !in skip && !IsDeep(start, home, volume)
    && !ParentFirst(Pending(SiteSeeds(start, home, deep, volumes), skip), volume)
  }

  /** The site's crawl is complete on every tree exactly when no early volume is below a
      deep directory by less than the depth. */
  lemma SiteIsSettledWhen(start: Key, home: Key, deep: nat, volumes: seq<Key>, skip: set<Key>)
    ensures Settled(SiteSeeds(start, home, deep, volumes), skip) <==>
      forall v, u ::
        Early(start, home, deep, volumes, skip, v) && u in {start, home} && u !in skip && Above(u, v, skip) ==>
        deep <= |v| - |u|
  {
    SiteBudgets(start, home, deep, volumes, skip);
  }

  /** So it is for the site as shipped, with home as its one volume, at any depth; and for
      any volumes at a depth of two or less. */
  lemma SiteIsComplete(start: Key, home: Key, deep: nat, volumes: seq<Key>, skip: set<Key>)
    requires deep <= 2 || forall v :: v in volumes ==> IsDeep(start, home, v)
    ensures Settled(SiteSeeds(start, home, deep, volumes), skip)
  {
    SiteIsSettledWhen(start, home, deep, volumes, skip);
    SiteBudgets(start, home, deep, volumes, skip);
    var pending := Pending(SiteSeeds(start, home, deep, volumes), skip);
    forall v, u | Early(start, home, deep, volumes, skip, v) && u in {start, home} && u !in skip && Above(u, v, skip)
      ensures deep <= |v| - |u|
    {
      if |v| - |u| == 1 {
        ChildOfDeepIsNotEarly(start, home, pending, v, u);
      }
    }
  }

  lemma ChildOfDeepIsNotEarly(start: Key, home: Key, pending: seq<Key>, v: Key, u: Key)
    requires DeepFirst(start, home, pending) && v in pending && u in pending
    requires IsDeep(start, home, u) && !IsDeep(start, home, v) && v != [] && u == Parent(v)
    ensures ParentFirst(pending, v)
  {
    var i :| 0 <= i < |pending| && pending[i] == u;
    var j :| 0 <= j < |pending| && pending[j] == v;
    assert i < j;
  }

  /** A volume whose parent is no seed, fewer levels below a deep directory than the
      depth, is enough to hide folders. */
  lemma VolumeUnsettles(start: Key, home: Key, deep: nat, volumes: seq<Key>, skip: set<Key>, volume: Key, u: Key)
    requires volume in volumes && volume !in skip && !IsDeep(start, home, volume)
    requires u !in skip && IsDeep(start, home, u) && Above(u, volume, skip) && |volume| - |u| < deep
    requires !IsDeep(start, home, Parent(volume)) && Parent(volume) !in volumes
    ensures !Settled(SiteSeeds(start, home, deep, volumes), skip)
  {
    SiteBudgets(start, home, deep, volumes, skip);
    var pending := Pending(SiteSeeds(start, home, deep, volumes), skip);
    forall i | 0 <= i < |pending|
      ensures pending[i] != Parent(volume)
    {
      assert pending[i] in pending;
    }
  }

  /** Such as one two levels below home, at a depth of three. */
  lemma DepthThreeMayHide()
    ensures !Settled(SiteSeeds(["home"], ["home"], 3, [["home", "media", "disk"]]), {})
  {
    var home, disk := ["home"], ["home", "media", "disk"];
    assert disk in [disk] && disk[..1] == home;
    assert |Parent(disk)| == 2 && |home| == 1 && |disk| == 3;
    VolumeUnsettles(home, home, 3, [disk], {}, disk, home);
  }

  // ---------------------------------------------------------------------
  // The crawl itself.

  method OfferSeeds(seeds: seq<Offer>) returns (best: map<Key, nat>)
    ensures best == RaiseAll(seeds)
  {
    best := map[];
    for i := 0 to |seeds|
      invariant best == RaiseAll(seeds[..i])
    {
      assert seeds[..i + 1][..i] == seeds[..i];
      best := Raise(best, seeds[i].key, seeds[i].budget);
    }
    assert seeds[..|seeds|] == seeds;
  }

  method OfferEntries(c: Crawl, entries: seq<Entry>, budget: nat) returns (queue: seq<Offer>, best: map<Key, nat>)
    ensures c.(queue := queue, best := best) == OfferChildren(c, entries, budget)
  {
    queue, best := c.queue, c.best;
    for i := 0 to |entries|
      invariant c.(queue := queue, best := best) == OfferChildren(c, entries[..i], budget)
    {
      assert entries[..i + 1][..i] == entries[..i];
      if entries[i].isDirectory && entries[i].key !in c.seen {
        best := Raise(best, entries[i].key, budget);
        queue := queue + [Offer(entries[i].key, budget)];
      }
    }
    assert entries[..|entries|] == entries;
  }

  /** Takes the head of the queue. */
  method Look(c: Crawl, dirs: Dirs) returns (d: Crawl)
    requires c.queue != []
    ensures d == Step(c, dirs)
  {
    var key := c.queue[0].key;
    d := c.(queue := c.queue[1..]);
    if key in c.seen {
      return;
    }
    d := d.(seen := d.seen + {key}, order := d.order + [key]);
    var budget := if key in c.best then c.best[key] else 0;
    if budget == 0 || key !in dirs {
      return;
    }
    var queue, best := OfferEntries(d, dirs[key], budget - 1);
    d := d.(queue := queue, best := best);
  }

  method Discover(seeds: seq<Offer>, skip: set<Key>, dirs: Dirs, max: nat) returns (order: seq<Key>)
    ensures |order| <= max && Distinct(order)
    ensures IsTree(dirs) ==> BreadthFirst(order, seeds, dirs, skip)
    ensures forall k :: k in order ==> k !in skip && Within(seeds, dirs, skip, k)
    ensures IsTree(dirs) && Settled(seeds, skip) && |order| < max ==>
      forall k :: k !in skip && Within(seeds, dirs, skip, k) ==> k in order
  {
    var best := OfferSeeds(seeds);
    var c := Crawl(skip, [], seeds, best);
    ghost var steps := 0;
    AfterIsSafe(seeds, dirs, skip, max, 0);
    while c.queue != [] && |c.order| < max
      invariant c == After(Start(seeds, skip), dirs, max, steps) && |c.order| <= max
      decreases max - |c.order|, |c.queue|
    {
      StepShrinks(c, dirs);
      c := Look(c, dirs);
      steps := steps + 1;
    }
    order := c.order;
    AfterIsSafe(seeds, dirs, skip, max, steps);
    if IsTree(dirs) {
      CrawlIsBreadthFirst(seeds, dirs, skip, max, steps);
    }
    if IsTree(dirs) && Settled(seeds, skip) && |order| < max {
      CrawlFindsAll(seeds, dirs, skip, max, steps);
    }
  }
}
