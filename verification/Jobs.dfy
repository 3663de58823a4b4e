/**
 Background copy and move jobs (files-app/backend.py:280-412, 1784-1794). Each event
 is one stretch of code between taking the table's lock and letting it go; between
 them workers, cancels, polls and creations interleave freely.
 */
module Jobs {
  import opened Sequences
  import opened Stacking
  import opened Wrappers

  const JOBS_MAX := 50

  type Id = string

  datatype Failure = Failure(message: string, errno: int)

  const CANCELLED := Failure("cancelled", 125)

  datatype Job = Job(
    done: bool, processed: nat, total: nat, copied: seq<string>, error: Option<Failure>, cancel: bool, cancelled: bool)

  /** What a poll shows. */
  datatype Snapshot = Snapshot(
    done: bool, processed: nat, total: nat, copied: seq<string>, error: Option<Failure>, cancelled: bool)

  function SnapshotOf(j: Job): Snapshot {
    Snapshot(j.done, j.processed, j.total, j.copied, j.error, j.cancelled)
  }

  /** Where a job's thread is among its `n` sources: about to look at source `at`,
      busy with it outside the lock, or gone. */
  datatype Worker = Looking(at: nat, n: nat) | Busy(at: nat, n: nat) | Gone(n: nat)

  /** What one source came to. A skipped source counts as processed. */
  datatype Report = Copied(path: string) | Skipped | Failed(failure: Failure)

  datatype Table = Table(jobs: map<Id, Job>, order: seq<Id>, workers: map<Id, Worker>)

  // ---------------------------------------------------------------------
  // Eviction.

  /** The place in the order of the oldest finished job, or its end. */
  function OldestDone(jobs: map<Id, Job>, order: seq<Id>): (k: nat)
    ensures k <= |order|
    ensures k < |order| ==> order[k] in jobs && jobs[order[k]].done
    ensures forall i :: 0 <= i < k ==> !(order[i] in jobs && jobs[order[i]].done)
  {
    if order == [] then 0
    else if order[0] in jobs && jobs[order[0]].done then 0
    else 1 + OldestDone(jobs, order[1..])
  }

  function Without(order: seq<Id>, k: nat): seq<Id>
    requires k < |order|
  {
    order[..k] + order[k + 1..]
  }

  /** Drops the oldest finished jobs until the table is small enough or holds none. */
  function Evict(jobs: map<Id, Job>, order: seq<Id>): (map<Id, Job>, seq<Id>)
    decreases |order|
  {
    if |jobs| <= JOBS_MAX then (jobs, order)
    else
      var k := OldestDone(jobs, order);
      if k == |order| then (jobs, order) else Evict(jobs - {order[k]}, Without(order, k))
  }

  // ---------------------------------------------------------------------
  // The events.

  function NewJob(total: nat): Job {
    Job(false, 0, total, [], None, false, false)
  }

  function Create(t: Table, id: Id, n: nat): Table {
    var (jobs, order) := Evict(t.jobs[id := NewJob(n)], t.order + [id]);
    Table(jobs, order, t.workers[id := Looking(0, n)])
  }

  function Cancel(t: Table, id: Id): Table {
    if id in t.jobs then t.(jobs := t.jobs[id := t.jobs[id].(cancel := true)]) else t
  }

  /** Changes a job the table still holds. */
  function Update(t: Table, id: Id, j: Job, w: Worker): Table {
    Table(if id in t.jobs then t.jobs[id := j] else t.jobs, t.order, t.workers[id := w])
  }

  /** A worker looks whether to go on: past the last source it makes sure the job is
      done, and a cancel stops it here. */
  function Look(t: Table, id: Id): Table
    requires id in t.workers && t.workers[id].Looking?
  {
    var w := t.workers[id];
    if id !in t.jobs then t.(workers := t.workers[id := Gone(w.n)]) else
    var j := t.jobs[id];
    if w.at >= w.n then Update(t, id, j.(done := true), Gone(w.n))
    else if j.cancel then
      var error := if j.error.None? then Some(CANCELLED) else j.error;
      Update(t, id, j.(cancelled := true, done := true, error := error), Gone(w.n))
    else Update(t, id, j, Busy(w.at, w.n))
  }

  /** A worker is through with one source. */
  function Finish(t: Table, id: Id, r: Report): Table
    requires id in t.workers && t.workers[id].Busy?
  {
    var w := t.workers[id];
    if id !in t.jobs then t.(workers := t.workers[id := Looking(w.at + 1, w.n)]) else
    var j := t.jobs[id];
    match r
    case Failed(f) => Update(t, id, j.(error := Some(f), done := true), Gone(w.n))
    case Copied(path) => Update(t, id, OneMore(j.(copied := j.copied + [path])), Looking(w.at + 1, w.n))
    case Skipped => Update(t, id, OneMore(j), Looking(w.at + 1, w.n))
  }

  /** Counts a source; the last one makes the job done. */
  function OneMore(j: Job): Job {
    j.(processed := j.processed + 1, done := j.done || j.processed + 1 >= j.total)
  }

  datatype Event =
    | Created(id: Id, n: nat)
    | Cancelled(id: Id)
    | Polled(id: Id)
    | Looked(id: Id)
    | Finished(id: Id, report: Report)

  /** Ids are fresh, and a worker's steps come in order. */
  predicate Enabled(t: Table, e: Event) {
    match e
    case Created(id, _) => id !in t.workers
    case Cancelled(_) => true
    case Polled(_) => true
    case Looked(id) => id in t.workers && t.workers[id].Looking?
    case Finished(id, _) => id in t.workers && t.workers[id].Busy?
  }

  function Next(t: Table, e: Event): Table
    requires Enabled(t, e)
  {
    match e
    case Created(id, n) => Create(t, id, n)
    case Cancelled(id) => Cancel(t, id)
    case Polled(_) => t
    case Looked(id) => Look(t, id)
    case Finished(id, r) => Finish(t, id, r)
  }

  // ---------------------------------------------------------------------
  // What every run keeps.

  /** The table and its order list hold the same jobs, each once. */
  ghost predicate Agree(jobs: map<Id, Job>, order: seq<Id>) {
    && Distinct(order)
    && (forall i :: 0 <= i < |order| ==> order[i] in jobs)
    && (forall id :: id in jobs ==> id in order)
  }

  /** How a job stands with its worker. */
  ghost predicate InStep(t: Table, id: Id)
    requires id in t.workers
  {
    var w := t.workers[id];
    && (!(w.Gone? || (w.Looking? && w.at >= w.n)) ==>
         id in t.jobs && w.at < w.n && !t.jobs[id].done && t.jobs[id].processed == w.at)
    && (w.Looking? && w.n == 0 ==> id in t.jobs && !t.jobs[id].done)
    && (id in t.jobs ==>
         var j := t.jobs[id];
         && j.total == w.n && j.processed <= j.total
         && (w.Gone? ==> j.done)
         && (w.Looking? && w.at >= w.n ==> j.processed == w.n && (w.n > 0 ==> j.done))
         && (!j.done ==> j.error.None? && !j.cancelled)
         && (j.done && j.error.None? ==> j.processed == j.total))
  }

  ghost predicate Inv(t: Table) {
    && Agree(t.jobs, t.order)
    && (forall id :: id in t.jobs ==> id in t.workers)
    && (forall id :: id in t.workers ==> InStep(t, id))
  }

  lemma WithoutAgrees(jobs: map<Id, Job>, order: seq<Id>, k: nat)
    requires Agree(jobs, order) && k < |order|
    ensures Agree(jobs - {order[k]}, Without(order, k))
  {
    var rest := Without(order, k);
    forall id | id in jobs - {order[k]}
      ensures id in rest
    {
      var i :| 0 <= i < |order| && order[i] == id;
      assert i < k ==> rest[i] == id;
      assert i > k ==> rest[i - 1] == id;
    }
  }

  /** `left` is what eviction may leave of `jobs`. */
  ghost predicate Evicted(jobs: map<Id, Job>, left: map<Id, Job>) {
    && (forall id :: id in left ==> id in jobs && left[id] == jobs[id])
    && (forall id :: id in jobs && id !in left ==> jobs[id].done)
    && (|left| <= JOBS_MAX || forall id :: id in left ==> !left[id].done)
  }

  lemma DropOne(jobs: map<Id, Job>, id: Id, left: map<Id, Job>)
    requires id in jobs && jobs[id].done && Evicted(jobs - {id}, left)
    ensures Evicted(jobs, left)
  {
    forall x | x in jobs && x !in left
      ensures jobs[x].done
    {
      assert x != id ==> x in jobs - {id};
    }
  }

  lemma NoneDone(jobs: map<Id, Job>, order: seq<Id>)
    requires Agree(jobs, order) && OldestDone(jobs, order) == |order|
    ensures Evicted(jobs, jobs)
  {
    forall id | id in jobs
      ensures !jobs[id].done
    {
      var i :| 0 <= i < |order| && order[i] == id;
    }
  }

  /** Eviction takes finished jobs only, keeps the lists in agreement, and stops at
      the limit or when no finished job is left. */
  lemma {:induction false} EvictKeeps(jobs: map<Id, Job>, order: seq<Id>)
    requires Agree(jobs, order)
    ensures var (j, o) := Evict(jobs, order);
      Agree(j, o) && Evicted(jobs, j)
    decreases |order|
  {
    var k := OldestDone(jobs, order);
    if |jobs| <= JOBS_MAX {
    } else if k == |order| {
      NoneDone(jobs, order);
    } else {
      WithoutAgrees(jobs, order, k);
      EvictKeeps(jobs - {order[k]}, Without(order, k));
      DropOne(jobs, order[k], Evict(jobs, order).0);
    }
  }

  lemma {:induction false} FilterAll(order: seq<Id>, keep: set<Id>)
    requires forall i :: 0 <= i < |order| ==> order[i] in keep
    ensures Filter(order, keep) == order
  {
    if order != [] {
      assert forall i :: 0 <= i < |order[1..]| ==> order[1..][i] == order[i + 1];
      FilterAll(order[1..], keep);
    }
  }

  lemma FilterWithout(order: seq<Id>, k: nat, keep: set<Id>)
    requires k < |order| && order[k] !in keep
    ensures Filter(Without(order, k), keep) == Filter(order, keep)
  {
    assert order == order[..k] + ([order[k]] + order[k + 1..]) && ([order[k]] + order[k + 1..])[1..] == order[k + 1..];
    FilterAppend(order[..k], order[k + 1..], keep);
    FilterAppend(order[..k], [order[k]] + order[k + 1..], keep);
  }

  /** What is not left is older than every finished job that is. */
  ghost predicate OldestGone(jobs: map<Id, Job>, order: seq<Id>, left: map<Id, Job>)
    requires Agree(jobs, order)
  {
    forall a, b :: 0 <= a < b < |order| && order[b] !in left && jobs[order[a]].done ==> order[a] !in left
  }

  lemma DropOldest(jobs: map<Id, Job>, order: seq<Id>, k: nat, left: map<Id, Job>)
    requires Agree(jobs, order) && k == OldestDone(jobs, order) && k < |order|
    requires Agree(jobs - {order[k]}, Without(order, k))
    requires OldestGone(jobs - {order[k]}, Without(order, k), left) && order[k] !in left
    ensures OldestGone(jobs, order, left)
  {
    var fewer, rest := jobs - {order[k]}, Without(order, k);
    forall a, b | 0 <= a < b < |order| && order[b] !in left && jobs[order[a]].done
      ensures order[a] !in left
    {
      if k < a {
        assert rest[a - 1] == order[a] && rest[b - 1] == order[b];
        assert order[a] != order[k] && fewer[rest[a - 1]].done;
      }
    }
  }

  /** What goes is older than every finished job that stays, no more goes than the limit
      asks for, and the rest stays in its order. */
  lemma {:induction false} EvictTakesOldest(jobs: map<Id, Job>, order: seq<Id>)
    requires Agree(jobs, order)
    ensures var (j, o) := Evict(jobs, order);
      && o == Filter(order, j.Keys)
      && (j != jobs ==> |j| >= 50)
      && OldestGone(jobs, order, j)
    decreases |order|
  {
    var k := OldestDone(jobs, order);
    if |jobs| <= JOBS_MAX || k == |order| {
      FilterAll(order, jobs.Keys);
    } else {
      var fewer, rest := jobs - {order[k]}, Without(order, k);
      WithoutAgrees(jobs, order, k);
      EvictKeeps(fewer, rest);
      EvictTakesOldest(fewer, rest);
      var left := Evict(fewer, rest).0;
      FilterWithout(order, k, left.Keys);
      DropOldest(jobs, order, k, left);
      assert |fewer| == |jobs| - 1;
    }
  }

  lemma NewAgrees(t: Table, id: Id, j: Job)
    requires Agree(t.jobs, t.order) && id !in t.jobs
    ensures Agree(t.jobs[id := j], t.order + [id])
  {
    var order := t.order + [id];
    assert order[|t.order|] == id;
    forall x | x in t.jobs
      ensures x in order
    {
      var i :| 0 <= i < |t.order| && t.order[i] == x;
      assert order[i] == x;
    }
  }

  /** `after` is what a creation may make of `jobs`. */
  ghost predicate Added(jobs: map<Id, Job>, id: Id, j: Job, after: map<Id, Job>) {
    && id in after && after[id] == j
    && (forall x :: x in after && x != id ==> x in jobs && after[x] == jobs[x])
    && (forall x :: x in jobs && x !in after ==> jobs[x].done)
    && (|after| <= JOBS_MAX || forall x :: x in after ==> !after[x].done)
  }

  lemma EvictedAdds(jobs: map<Id, Job>, id: Id, j: Job, after: map<Id, Job>)
    requires id !in jobs && !j.done && Evicted(jobs[id := j], after)
    ensures Added(jobs, id, j, after)
  {
    assert id in jobs[id := j];
    forall x | x in jobs && x !in after
      ensures jobs[x].done
    {
      assert x in jobs[id := j];
    }
  }

  /** A creation adds its job, and may drop finished ones. */
  lemma CreateAdds(t: Table, id: Id, n: nat)
    requires Agree(t.jobs, t.order) && id !in t.jobs
    ensures Agree(Create(t, id, n).jobs, Create(t, id, n).order)
    ensures Added(t.jobs, id, NewJob(n), Create(t, id, n).jobs)
  {
    NewAgrees(t, id, NewJob(n));
    EvictKeeps(t.jobs[id := NewJob(n)], t.order + [id]);
    EvictedAdds(t.jobs, id, NewJob(n), Create(t, id, n).jobs);
  }

  lemma WorkerKeeps(t: Table, id: Id, n: nat, x: Id)
    requires x in t.workers && InStep(t, x) && id !in t.workers && id !in t.jobs
    requires var c := Create(t, id, n);
      && (x in c.jobs ==> x in t.jobs && c.jobs[x] == t.jobs[x])
      && (x in t.jobs && x !in c.jobs ==> t.jobs[x].done)
    ensures InStep(Create(t, id, n), x)
  {
    var w, c := t.workers[x], Create(t, id, n);
    assert c.workers[x] == w;
  }

  lemma CreateKeeps(t: Table, id: Id, n: nat)
    requires Inv(t) && id !in t.workers
    ensures Inv(Create(t, id, n))
  {
    CreateAdds(t, id, n);
    var after := Create(t, id, n);
    forall x | x in after.workers
      ensures InStep(after, x)
    {
      if x != id {
        WorkerKeeps(t, id, n, x);
      }
    }
  }

  lemma OtherKeeps(t: Table, id: Id, after: Table)
    requires Inv(t) && after.order == t.order && after.jobs.Keys == t.jobs.Keys && after.workers.Keys == t.workers.Keys
    requires forall x :: x in t.jobs && x != id ==> after.jobs[x] == t.jobs[x]
    requires forall x :: x in t.workers && x != id ==> after.workers[x] == t.workers[x]
    requires id in after.workers ==> InStep(after, id)
    ensures Inv(after)
  {
    forall x | x in after.workers
      ensures InStep(after, x)
    {
      assert InStep(t, x);
    }
  }

  lemma CancelKeeps(t: Table, id: Id)
    requires Inv(t)
    ensures Inv(Cancel(t, id))
  {
    if id in t.jobs {
      assert InStep(t, id);
    }
    OtherKeeps(t, id, Cancel(t, id));
  }

  lemma LookKeeps(t: Table, id: Id)
    requires Inv(t) && id in t.workers && t.workers[id].Looking?
    ensures Inv(Look(t, id))
  {
    assert InStep(t, id);
    OtherKeeps(t, id, Look(t, id));
  }

  lemma FinishKeeps(t: Table, id: Id, r: Report)
    requires Inv(t) && id in t.workers && t.workers[id].Busy?
    ensures Inv(Finish(t, id, r))
  {
    assert InStep(t, id);
    OtherKeeps(t, id, Finish(t, id, r));
  }

  lemma NextKeeps(t: Table, e: Event)
    requires Inv(t) && Enabled(t, e)
    ensures Inv(Next(t, e))
  {
    match e {
      case Created(id, n) => CreateKeeps(t, id, n);
      case Cancelled(id) => CancelKeeps(t, id);
      case Polled(_) =>
      case Looked(id) => LookKeeps(t, id);
      case Finished(id, r) => FinishKeeps(t, id, r);
    }
  }

  /** One event: no running job leaves the table, a finished job's snapshot does not
      change while it is there, and a creation ends with at most fifty jobs or none
      finished, the new job among them. */
  lemma NextIsFair(t: Table, e: Event, id: Id)
    requires Inv(t) && Enabled(t, e)
    ensures id in t.jobs && !t.jobs[id].done ==> id in Next(t, e).jobs
    ensures id in t.jobs && t.jobs[id].done && id in Next(t, e).jobs ==>
      SnapshotOf(Next(t, e).jobs[id]) == SnapshotOf(t.jobs[id])
    ensures e.Created? ==> e.id in Next(t, e).jobs
    ensures e.Created? ==>
      |Next(t, e).jobs| <= JOBS_MAX || forall x :: x in Next(t, e).jobs ==> !Next(t, e).jobs[x].done
  {
    if e.Created? {
      CreateAdds(t, e.id, e.n);
    } else if e.Looked? || e.Finished? {
      assert InStep(t, e.id);
    }
  }

  // ---------------------------------------------------------------------
  // Runs.

  ghost predicate Runs(t: Table, events: seq<Event>)
    decreases |events|
  {
    events == [] || (Enabled(t, events[0]) && Runs(Next(t, events[0]), events[1..]))
  }

  ghost function Run(t: Table, events: seq<Event>): Table
    requires Runs(t, events)
    decreases |events|
  {
    if events == [] then t else Run(Next(t, events[0]), events[1..])
  }

  const EMPTY := Table(map[], [], map[])

  lemma {:induction false} RunKeeps(t: Table, events: seq<Event>)
    requires Inv(t) && Runs(t, events)
    ensures Inv(Run(t, events))
    decreases |events|
  {
    if events != [] {
      NextKeeps(t, events[0]);
      RunKeeps(Next(t, events[0]), events[1..]);
    }
  }

  /** In every state of every interleaving the table and its order agree, a job still
      under way is in the table, and a job done without an error has processed all. */
  lemma JobsAreSafe(events: seq<Event>, id: Id)
    requires Runs(EMPTY, events)
    ensures var t := Run(EMPTY, events);
      && Agree(t.jobs, t.order)
      && (id in t.workers && t.workers[id].Busy? ==> id in t.jobs && !t.jobs[id].done)
      && (id in t.jobs && t.jobs[id].done && t.jobs[id].error.None? ==> t.jobs[id].processed == t.jobs[id].total)
      && (id in t.jobs && !t.jobs[id].done ==> id in t.workers && !t.workers[id].Gone?)
  {
    RunKeeps(EMPTY, events);
    var t := Run(EMPTY, events);
    assert id in t.workers ==> InStep(t, id);
  }

  lemma {:induction false} IdsAreNotReused(t: Table, events: seq<Event>, id: Id)
    requires Inv(t) && Runs(t, events) && id in t.workers && id !in t.jobs
    ensures id !in Run(t, events).jobs
    decreases |events|
  {
    if events != [] {
      var next := Next(t, events[0]);
      NextKeeps(t, events[0]);
      if events[0].Created? {
        CreateAdds(t, events[0].id, events[0].n);
      }
      IdsAreNotReused(next, events[1..], id);
    }
  }

  /** Over any continuation, a finished job shows the same snapshot for as long as it
      is in the table. */
  lemma {:induction false} DoneIsFinal(t: Table, events: seq<Event>, id: Id)
    requires Inv(t) && Runs(t, events) && id in t.jobs && t.jobs[id].done
    ensures id in Run(t, events).jobs ==> SnapshotOf(Run(t, events).jobs[id]) == SnapshotOf(t.jobs[id])
    decreases |events|
  {
    if events != [] {
      var next := Next(t, events[0]);
      NextKeeps(t, events[0]);
      NextIsFair(t, events[0], id);
      if id in next.jobs {
        DoneIsFinal(next, events[1..], id);
      } else {
        assert id in t.workers;
        IdsAreNotReused(next, events[1..], id);
      }
    }
  }

  /** What one event adds to the list `id` shows. */
  function CopiedAt(e: Event, id: Id): seq<string> {
    if e.Finished? && e.id == id && e.report.Copied? then [e.report.path] else []
  }

  function ThroughAt(e: Event, id: Id): nat {
    if e.Finished? && e.id == id && !e.report.Failed? then 1 else 0
  }

  /** The paths that `id`'s worker reported copied, in order. */
  function CopiedBy(events: seq<Event>, id: Id): seq<string> {
    if events == [] then [] else CopiedAt(events[0], id) + CopiedBy(events[1..], id)
  }

  /** How many sources it got through. */
  function ThroughBy(events: seq<Event>, id: Id): nat {
    if events == [] then 0 else ThroughAt(events[0], id) + ThroughBy(events[1..], id)
  }

  function CopiedIn(t: Table, id: Id): seq<string> {
    if id in t.jobs then t.jobs[id].copied else []
  }

  function ProcessedIn(t: Table, id: Id): nat {
    if id in t.jobs then t.jobs[id].processed else 0
  }

  lemma ReportsAdd(t: Table, e: Event, id: Id)
    requires Agree(t.jobs, t.order) && Enabled(t, e) && id in Next(t, e).jobs
    requires e.Created? ==> e.id !in t.jobs
    requires e.Finished? ==> e.id in t.jobs
    ensures CopiedIn(Next(t, e), id) == CopiedIn(t, id) + CopiedAt(e, id)
    ensures ProcessedIn(Next(t, e), id) == ProcessedIn(t, id) + ThroughAt(e, id)
  {
    match e {
      case Created(made, n) => CreateAdds(t, made, n);
      case Cancelled(_) =>
      case Polled(_) =>
      case Looked(_) =>
      case Finished(_, _) =>
    }
  }

  /** A job still in the table shows exactly what its worker reported, in order,
      whatever the other workers, cancels, polls and creations in between. */
  lemma {:induction false} JobShowsItsReports(t: Table, events: seq<Event>, id: Id)
    requires Inv(t) && Runs(t, events) && (id in t.workers ==> id in t.jobs) && id in Run(t, events).jobs
    ensures CopiedIn(Run(t, events), id) == CopiedIn(t, id) + CopiedBy(events, id)
    ensures ProcessedIn(Run(t, events), id) == ProcessedIn(t, id) + ThroughBy(events, id)
    decreases |events|
  {
    if events != [] {
      var e, next, rest := events[0], Next(t, events[0]), events[1..];
      StepShows(t, e, rest, id);
      JobShowsItsReports(next, rest, id);
      AddsUp(CopiedIn(t, id), CopiedAt(e, id), CopiedBy(rest, id));
    }
  }

  lemma AddsUp(a: seq<string>, b: seq<string>, c: seq<string>)
    ensures (a + b) + c == a + (b + c)
  {
  }

  lemma StepShows(t: Table, e: Event, rest: seq<Event>, id: Id)
    requires Inv(t) && Enabled(t, e) && Runs(Next(t, e), rest)
    requires (id in t.workers ==> id in t.jobs) && id in Run(Next(t, e), rest).jobs
    ensures Inv(Next(t, e)) && (id in Next(t, e).workers ==> id in Next(t, e).jobs)
    ensures CopiedIn(Next(t, e), id) == CopiedIn(t, id) + CopiedAt(e, id)
    ensures ProcessedIn(Next(t, e), id) == ProcessedIn(t, id) + ThroughAt(e, id)
  {
    var next := Next(t, e);
    NextKeeps(t, e);
    if id in next.workers && id !in next.jobs {
      IdsAreNotReused(next, rest, id);
    }
    if id in next.jobs {
      if e.Finished? {
        assert InStep(t, e.id);
      }
      ReportsAdd(t, e, id);
    } else {
      OnlyItsOwn(t, e, id);
    }
  }

  /** Only its own creation brings in a job. */
  lemma OnlyItsOwn(t: Table, e: Event, id: Id)
    requires Enabled(t, e) && id !in Next(t, e).workers
    ensures id !in t.workers && CopiedAt(e, id) == [] && ThroughAt(e, id) == 0
  {
    match e {
      case Created(_, _) =>
      case Cancelled(_) =>
      case Polled(_) =>
      case Looked(_) =>
      case Finished(_, _) =>
    }
  }

  // ---------------------------------------------------------------------
  // How a job ends.

  /** A new job is shown with all its sources to come. */
  lemma CreatedIsNew(t: Table, id: Id, n: nat)
    requires Inv(t) && Enabled(t, Created(id, n))
    ensures var next := Next(t, Created(id, n));
      && id in next.jobs && SnapshotOf(next.jobs[id]) == Snapshot(false, 0, n, [], None, false)
      && next.order != [] && next.order[|next.order| - 1] == id
      && id in next.workers && next.workers[id] == Looking(0, n)
  {
    CreateAdds(t, id, n);
    NewIsLast(t, id, n);
  }

  lemma NewIsLast(t: Table, id: Id, n: nat)
    requires Agree(t.jobs, t.order) && id !in t.jobs && id in Create(t, id, n).jobs
    ensures var order := Create(t, id, n).order; order != [] && order[|order| - 1] == id
  {
    var after := Create(t, id, n);
    NewAgrees(t, id, NewJob(n));
    EvictTakesOldest(t.jobs[id := NewJob(n)], t.order + [id]);
    assert after.order == Filter(t.order + [id], after.jobs.Keys);
    FilterKeepsLast(t.order, id, after.jobs.Keys);
  }

  lemma FilterKeepsLast(order: seq<Id>, id: Id, keep: set<Id>)
    requires id in keep
    ensures var kept := Filter(order + [id], keep); kept != [] && kept[|kept| - 1] == id
  {
    FilterAppend(order, [id], keep);
    assert [id][1..] == [];
  }

  /** The failure a worker reported, if any. */
  function FailureBy(events: seq<Event>, id: Id): Option<Failure> {
    if events == [] then None
    else if events[0].Finished? && events[0].id == id && events[0].report.Failed? then Some(events[0].report.failure)
    else FailureBy(events[1..], id)
  }

  function FailureAt(e: Event, id: Id): Option<Failure> {
    if e.Finished? && e.id == id && e.report.Failed? then Some(e.report.failure) else None
  }

  function ErrorIn(t: Table, id: Id): Option<Failure> {
    if id in t.jobs then t.jobs[id].error else None
  }

  /** No one has cancelled a job. */
  predicate NotCancelled(t: Table, id: Id) {
    id in t.jobs ==> !t.jobs[id].cancel && !t.jobs[id].cancelled
  }

  lemma StepEnds(t: Table, e: Event, id: Id)
    requires Inv(t) && Enabled(t, e) && id in Next(t, e).jobs && NotCancelled(t, id) && e != Cancelled(id)
    ensures NotCancelled(Next(t, e), id)
    ensures ErrorIn(Next(t, e), id) == if ErrorIn(t, id).Some? then ErrorIn(t, id) else FailureAt(e, id)
  {
    if e.Created? {
      CreateAdds(t, e.id, e.n);
    } else if e.Looked? || e.Finished? {
      assert InStep(t, e.id);
    }
  }

  /** A job that no one cancels shows the failure its worker reported, and no other. */
  lemma {:induction false} ErrorIsReported(t: Table, events: seq<Event>, id: Id)
    requires Inv(t) && Runs(t, events) && (id in t.workers ==> id in t.jobs) && id in Run(t, events).jobs
    requires NotCancelled(t, id) && Cancelled(id) !in events
    ensures NotCancelled(Run(t, events), id)
    ensures ErrorIn(Run(t, events), id) == if ErrorIn(t, id).Some? then ErrorIn(t, id) else FailureBy(events, id)
    decreases |events|
  {
    if events != [] {
      var e, next, rest := events[0], Next(t, events[0]), events[1..];
      StepShows(t, e, rest, id);
      if id in next.jobs {
        StepEnds(t, e, id);
      } else {
        OnlyItsOwn(t, e, id);
      }
      ErrorIsReported(next, rest, id);
    }
  }

  lemma StepKeepsTotal(t: Table, e: Event, id: Id)
    requires Inv(t) && Enabled(t, e) && id in Next(t, e).jobs
    ensures if id in t.jobs then Next(t, e).jobs[id].total == t.jobs[id].total
      else e == Created(id, Next(t, e).jobs[id].total)
  {
    if e.Created? {
      CreateAdds(t, e.id, e.n);
    }
  }

  /** A job's total is what it was created with. */
  lemma {:induction false} TotalIsCreated(t: Table, events: seq<Event>, id: Id)
    requires Inv(t) && Runs(t, events) && (id in t.workers ==> id in t.jobs) && id in Run(t, events).jobs
    ensures if id in t.jobs then Run(t, events).jobs[id].total == t.jobs[id].total
      else Created(id, Run(t, events).jobs[id].total) in events
    decreases |events|
  {
    if events != [] {
      var e, next, rest := events[0], Next(t, events[0]), events[1..];
      StepShows(t, e, rest, id);
      TotalIsCreated(next, rest, id);
      if id in next.jobs {
        StepKeepsTotal(t, e, id);
      }
    }
  }

  /** Whatever else happens, a job of some sources that no one cancels is done exactly when
      its worker reported a failure, which it shows, or got through all of them. */
  lemma EndsWithItsWorker(events: seq<Event>, id: Id)
    requires Runs(EMPTY, events) && id in Run(EMPTY, events).jobs && Cancelled(id) !in events
    ensures var j := Run(EMPTY, events).jobs[id];
      && Created(id, j.total) in events && !j.cancelled && j.error == FailureBy(events, id)
      && (j.total > 0 ==> (j.done <==> j.error.Some? || ThroughBy(events, id) == j.total))
  {
    RunKeeps(EMPTY, events);
    JobShowsItsReports(EMPTY, events, id);
    ErrorIsReported(EMPTY, events, id);
    TotalIsCreated(EMPTY, events, id);
    assert InStep(Run(EMPTY, events), id);
  }

  // ---------------------------------------------------------------------
  // Cancelling.

  /** How often a worker was through with a source, whatever came of it. */
  function FinishedBy(events: seq<Event>, id: Id): nat {
    if events == [] then 0
    else (if events[0].Finished? && events[0].id == id then 1 else 0) + FinishedBy(events[1..], id)
  }

  lemma {:induction false} ThroughIsFinished(events: seq<Event>, id: Id)
    ensures ThroughBy(events, id) <= FinishedBy(events, id)
  {
    if events != [] {
      ThroughIsFinished(events[1..], id);
    }
  }

  /** A cancel leaves every other job, the order and all workers as they were, and the job
      itself as it is shown. */
  lemma CancelLeavesOthers(t: Table, id: Id)
    requires Inv(t)
    ensures var next := Next(t, Cancelled(id));
      && next.jobs.Keys == t.jobs.Keys && next.order == t.order && next.workers == t.workers
      && (forall x :: x in t.jobs && x != id ==> next.jobs[x] == t.jobs[x])
      && (id in t.jobs ==> SnapshotOf(next.jobs[id]) == SnapshotOf(t.jobs[id]))
  {
  }

  /** A worker that has gone, or is past its last source, finishes nothing more. */
  ghost predicate Spent(t: Table, id: Id) {
    id in t.workers && (t.workers[id].Gone? || (t.workers[id].Looking? && t.workers[id].at >= t.workers[id].n))
  }

  lemma {:induction false} SpentFinishesNothing(t: Table, events: seq<Event>, id: Id)
    requires Inv(t) && Runs(t, events) && Spent(t, id)
    ensures FinishedBy(events, id) == 0
    decreases |events|
  {
    if events != [] {
      NextKeeps(t, events[0]);
      if events[0].Looked? || events[0].Finished? {
        assert InStep(t, events[0].id);
      }
      SpentFinishesNothing(Next(t, events[0]), events[1..], id);
    }
  }

  /** A job under way that has been told to stop. */
  ghost predicate Stopping(t: Table, id: Id) {
    id in t.workers && !Spent(t, id) && id in t.jobs && t.jobs[id].cancel
  }

  lemma StepStops(t: Table, e: Event, id: Id)
    requires Inv(t) && Enabled(t, e) && Stopping(t, id)
    ensures var next := Next(t, e);
      && id in next.workers && (Stopping(next, id) || Spent(next, id))
      && (e == Looked(id) ==> next.workers[id].Gone? && EndsCancelled(next, id))
      && (e.Finished? && e.id == id ==> t.workers[id].Busy? && (Spent(next, id) || next.workers[id].Looking?))
      && (e != Looked(id) && !(e.Finished? && e.id == id) ==> Stopping(next, id) && next.workers[id] == t.workers[id])
  {
    assert InStep(t, id);
    NextIsFair(t, e, id);
    if e.Created? {
      CreateAdds(t, e.id, e.n);
    }
  }

  /** How a cancelled job is shown. */
  ghost predicate EndsCancelled(t: Table, id: Id) {
    id in t.jobs && t.jobs[id].done && t.jobs[id].cancelled && t.jobs[id].error == Some(Failure("cancelled", 125))
  }

  lemma {:induction false} StoppingFinishes(t: Table, events: seq<Event>, id: Id)
    requires Inv(t) && Runs(t, events) && Stopping(t, id)
    ensures FinishedBy(events, id) <= if t.workers[id].Busy? then 1 else 0
    ensures Stopping(Run(t, events), id) || Spent(Run(t, events), id)
    decreases |events|
  {
    if events != [] {
      var next := Next(t, events[0]);
      NextKeeps(t, events[0]);
      StepStops(t, events[0], id);
      if Spent(next, id) {
        SpentFinishesNothing(next, events[1..], id);
        SpentStays(next, events[1..], id);
      } else {
        StoppingFinishes(next, events[1..], id);
      }
    }
  }

  lemma {:induction false} SpentStays(t: Table, events: seq<Event>, id: Id)
    requires Inv(t) && Runs(t, events) && Spent(t, id)
    ensures Spent(Run(t, events), id)
    decreases |events|
  {
    if events != [] {
      NextKeeps(t, events[0]);
      if events[0].Looked? || events[0].Finished? {
        assert InStep(t, events[0].id);
      }
      SpentStays(Next(t, events[0]), events[1..], id);
    }
  }

  /** After a cancel of a job under way, whatever happens: its worker is through with at
      most the source it is busy with, and none if it was looking. */
  lemma CancelStartsNothing(t: Table, rest: seq<Event>, id: Id)
    requires Inv(t) && id in t.jobs && !Spent(t, id)
    requires Runs(t, [Cancelled(id)] + rest)
    ensures ThroughBy(rest, id) <= FinishedBy(rest, id) <= if t.workers[id].Busy? then 1 else 0
  {
    assert ([Cancelled(id)] + rest)[1..] == rest;
    CancelKeeps(t, id);
    StoppingFinishes(Next(t, Cancelled(id)), rest, id);
    ThroughIsFinished(rest, id);
  }

  /** The worker's next look, with a source still to come, ends the job: it is done, is shown
      as cancelled and with that error. */
  lemma CancelStopsTheWorker(t: Table, rest: seq<Event>, id: Id)
    requires Inv(t) && id in t.jobs && !Spent(t, id)
    requires Runs(t, [Cancelled(id)] + rest)
    requires var mid := Run(t, [Cancelled(id)] + rest);
      Enabled(mid, Looked(id)) && mid.workers[id].at < mid.workers[id].n
    ensures var next := Next(Run(t, [Cancelled(id)] + rest), Looked(id));
      next.workers[id].Gone? && EndsCancelled(next, id)
  {
    assert ([Cancelled(id)] + rest)[1..] == rest;
    CancelKeeps(t, id);
    StoppingFinishes(Next(t, Cancelled(id)), rest, id);
    RunKeeps(Next(t, Cancelled(id)), rest);
    StepStops(Run(Next(t, Cancelled(id)), rest), Looked(id), id);
  }

  /** How many steps a worker has left. */
  function StepsLeft(w: Worker): nat {
    match w
    case Looking(at, n) => if at < n then 2 * (n - at) + 1 else 1
    case Busy(at, n) => if at < n then 2 * (n - at) else 2
    case Gone(_) => 0
  }

  /** Every step of a worker brings it nearer its end, and after a cancel it starts no
      further source. */
  lemma WorkersEnd(t: Table, e: Event)
    requires Inv(t) && Enabled(t, e) && (e.Looked? || e.Finished?)
    ensures StepsLeft(Next(t, e).workers[e.id]) < StepsLeft(t.workers[e.id])
    ensures e.id in t.jobs && t.jobs[e.id].cancel ==> !Next(t, e).workers[e.id].Busy?
    ensures Next(t, e).workers[e.id].Gone? && e.id in t.jobs ==> Next(t, e).jobs[e.id].done
  {
    assert InStep(t, e.id);
  }

  // ---------------------------------------------------------------------
  // The table, changed in place.

  class JobTable {
    var jobs: map<Id, Job>
    var order: seq<Id>
    ghost var workers: map<Id, Worker>

    constructor ()
      ensures View() == EMPTY
    {
      jobs, order, workers := map[], [], map[];
    }

    ghost function View(): Table
      reads this
    {
      Table(jobs, order, workers)
    }

    method FirstDone() returns (k: nat)
      ensures k == OldestDone(jobs, order)
    {
      k := 0;
      while k < |order| && !(order[k] in jobs && jobs[order[k]].done)
        invariant 0 <= k <= |order|
        invariant OldestDone(jobs, order) == k + OldestDone(jobs, order[k..])
      {
        assert order[k..][1..] == order[k + 1..];
        k := k + 1;
      }
    }

    method EvictLocked()
      modifies `jobs, `order
      ensures (jobs, order) == Evict(old(jobs), old(order))
    {
      while |jobs| > JOBS_MAX
        invariant Evict(jobs, order) == Evict(old(jobs), old(order))
        decreases |order|
      {
        var k := FirstDone();
        if k == |order| {
          break;
        }
        jobs, order := jobs - {order[k]}, Without(order, k);
      }
    }

    method CreateJob(id: Id, total: nat)
      requires id !in workers
      modifies this
      ensures View() == Create(old(View()), id, total)
    {
      jobs := jobs[id := NewJob(total)];
      order := order + [id];
      EvictLocked();
      workers := workers[id := Looking(0, total)];
    }

    /** After any run, a job that is still in the table is shown with the paths its worker
        reported copied, in order, and the number of sources it got through; all of them
        when it is done without an error. */
    method Poll(id: Id, ghost events: seq<Event>) returns (s: Option<Snapshot>)
      requires Runs(EMPTY, events) && View() == Run(EMPTY, events)
      ensures s.Some? <==> id in jobs
      ensures s.Some? ==> s.value.copied == CopiedBy(events, id) && s.value.processed == ThroughBy(events, id)
      ensures s.Some? && s.value.done && s.value.error.None? ==> s.value.processed == s.value.total
    {
      if id !in jobs {
        return None;
      }
      JobsAreSafe(events, id);
      JobShowsItsReports(EMPTY, events, id);
      s := Some(SnapshotOf(jobs[id]));
    }

    /** Answers whether the job was done already, or nothing for no such job. */
    method CancelJob(id: Id) returns (done: Option<bool>)
      modifies this
      ensures View() == Cancel(old(View()), id)
      ensures done == if id in old(jobs) then Some(old(jobs)[id].done) else None
    {
      if id !in jobs {
        return None;
      }
      jobs := jobs[id := jobs[id].(cancel := true)];
      done := Some(jobs[id].done);
    }

    /** The worker's look before source `at` of `n`; it goes on if the answer is yes. */
    method LookBefore(id: Id, at: nat, n: nat) returns (more: bool)
      requires id in workers && workers[id] == Looking(at, n)
      modifies this
      ensures View() == Look(old(View()), id)
      ensures id in old(jobs) ==> (more <==> workers[id].Busy?)
      ensures id !in old(jobs) ==> !more
    {
      more := false;
      workers := workers[id := Gone(n)];
      if id !in jobs {
        return;
      }
      if at >= n {
        if !jobs[id].done {
          jobs := jobs[id := jobs[id].(done := true)];
        }
        assert jobs == old(jobs)[id := old(jobs)[id].(done := true)];
        return;
      }
      if jobs[id].cancel {
        jobs := jobs[id := jobs[id].(cancelled := true, done := true)];
        if jobs[id].error.None? {
          jobs := jobs[id := jobs[id].(error := Some(CANCELLED))];
        }
        return;
      }
      workers := workers[id := Busy(at, n)];
      assert jobs == old(jobs)[id := old(jobs)[id]];
      more := true;
    }

    method ReportOne(id: Id, at: nat, n: nat, r: Report)
      requires id in workers && workers[id] == Busy(at, n)
      modifies this
      ensures View() == Finish(old(View()), id, r)
    {
      workers := workers[id := Looking(at + 1, n)];
      if id !in jobs {
        return;
      }
      match r {
        case Failed(f) =>
          jobs := jobs[id := jobs[id].(error := Some(f), done := true)];
          workers := workers[id := Gone(n)];
        case Copied(path) =>
          jobs := jobs[id := jobs[id].(copied := jobs[id].copied + [path])];
          CountOne(id);
        case Skipped =>
          CountOne(id);
      }
    }

    method CountOne(id: Id)
      requires id in jobs
      modifies `jobs
      ensures jobs == old(jobs)[id := OneMore(old(jobs)[id])]
    {
      jobs := jobs[id := jobs[id].(processed := jobs[id].processed + 1)];
      if jobs[id].processed >= jobs[id].total && !jobs[id].done {
        jobs := jobs[id := jobs[id].(done := true)];
      }
    }
  }
}
