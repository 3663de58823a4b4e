/**
 The host bridge's package jobs (aurade-host-bridge/aurade_host_bridge.py:350-404,
 428-443): at most one package command at a time, and a table of recent jobs.
 */
module PackageJobs {
  import opened Wrappers

  const JOBS_MAX := 32

  type Id = string

  /** What preparing an upgrade came to. */
  datatype Rollback = NotAsked | Unavailable | Snapshot(name: string)

  /** How a job ended: its command ran, or something refused. */
  datatype Outcome = Ran(code: int, rollback: Rollback) | Refused(reason: string)

  datatype Job = Job(owner: int, operation: string, outcome: Option<Outcome>)

  datatype State = Running | Succeeded | Failed

  function StateOf(j: Job): State {
    match j.outcome
    case None => Running
    case Some(Ran(code, _)) => if code == 0 then Succeeded else Failed
    case Some(Refused(_)) => Failed
  }

  /** Where a job's thread is: preparing, about to run the command, done and waiting
      for the main loop to take the outcome, or over. */
  datatype Phase = Preparing | Ready(rollback: Rollback) | Posted(outcome: Outcome) | Over

  /** What has happened outside the lock, in order. */
  datatype Act = PreparedFor(id: Id) | RanFor(id: Id)

  datatype Bridge = Bridge(jobs: map<Id, Job>, order: seq<Id>, running: bool,
    workers: map<Id, Phase>, ops: map<Id, string>, acts: seq<Act>)

  const UPGRADE := "upgrade"

  predicate IsId(id: Id) {
    |id| == 32 && forall i :: 0 <= i < |id| ==> '0' <= id[i] <= '9' || 'a' <= id[i] <= 'f'
  }

  // ---------------------------------------------------------------------
  // The events.

  /** Drops the oldest jobs while there are too many, but never the new one. */
  function Trim(jobs: map<Id, Job>, order: seq<Id>, id: Id): (map<Id, Job>, seq<Id>)
    decreases |order|
  {
    if |jobs| > JOBS_MAX && order != [] && order[0] != id then Trim(jobs - {order[0]}, order[1..], id)
    else (jobs, order)
  }

  function FirstPhase(operation: string): Phase {
    if operation == UPGRADE then Preparing else Ready(NotAsked)
  }

  function Start(b: Bridge, id: Id, owner: int, operation: string): Bridge {
    if b.running then b
    else
      var (jobs, order) := Trim(b.jobs[id := Job(owner, operation, None)], b.order + [id], id);
      Bridge(jobs, order, true, b.workers[id := FirstPhase(operation)], b.ops[id := operation], b.acts)
  }

  function Prepare(b: Bridge, id: Id, r: Result<Rollback, string>): Bridge {
    match r
    case Ok(rollback) => b.(workers := b.workers[id := Ready(rollback)], acts := b.acts + [PreparedFor(id)])
    case Err(reason) => b.(workers := b.workers[id := Posted(Refused(reason))])
  }

  function RunCommand(b: Bridge, id: Id, r: Result<int, string>): Bridge
    requires id in b.workers && b.workers[id].Ready?
  {
    var outcome := if r.Ok? then Ran(r.value, b.workers[id].rollback) else Refused(r.error);
    b.(workers := b.workers[id := Posted(outcome)], acts := b.acts + [RanFor(id)])
  }

  function Settle(jobs: map<Id, Job>, id: Id, outcome: Outcome): map<Id, Job> {
    if id in jobs then jobs[id := jobs[id].(outcome := Some(outcome))] else jobs
  }

  function Finish(b: Bridge, id: Id): Bridge
    requires id in b.workers && b.workers[id].Posted?
  {
    b.(jobs := Settle(b.jobs, id, b.workers[id].outcome), running := false, workers := b.workers[id := Over])
  }

  datatype Event =
    | Started(id: Id, owner: int, operation: string)
    | Prepared(id: Id, prepared: Result<Rollback, string>)
    | Commanded(id: Id, command: Result<int, string>)
    | Finished(id: Id)

  /** Ids are fresh, and a thread's steps come in order. */
  predicate Enabled(b: Bridge, e: Event) {
    match e
    case Started(id, _, _) => IsId(id) && id !in b.workers
    case Prepared(id, _) => id in b.workers && b.workers[id].Preparing?
    case Commanded(id, _) => id in b.workers && b.workers[id].Ready?
    case Finished(id) => id in b.workers && b.workers[id].Posted?
  }

  function Next(b: Bridge, e: Event): Bridge
    requires Enabled(b, e)
  {
    match e
    case Started(id, owner, operation) => Start(b, id, owner, operation)
    case Prepared(id, r) => Prepare(b, id, r)
    case Commanded(id, r) => RunCommand(b, id, r)
    case Finished(id) => Finish(b, id)
  }

  // ---------------------------------------------------------------------
  // What every run keeps.

  ghost predicate Agree(jobs: map<Id, Job>, order: seq<Id>) {
    && (forall i, j :: 0 <= i < j < |order| ==> order[i] != order[j])
    && (forall i :: 0 <= i < |order| ==> order[i] in jobs)
    && (forall id :: id in jobs ==> id in order)
  }

  /** Whether a job's thread is still about. */
  predicate About(b: Bridge, id: Id) {
    id in b.workers && !b.workers[id].Over?
  }

  /** The one job under way, if any, is the newest. */
  ghost predicate Current(b: Bridge, id: Id) {
    && b.running && b.order != [] && id == b.order[|b.order| - 1]
  }

  ghost predicate InStep(b: Bridge, id: Id) {
    && (About(b, id) <==> Current(b, id))
    && (id in b.jobs ==> id in b.workers && IsId(id) && (b.jobs[id].outcome.None? <==> About(b, id)))
    && (id in b.workers <==> id in b.ops)
    && (id in b.jobs ==> id in b.ops && b.jobs[id].operation == b.ops[id])
  }

  /** A command for an upgrade is preceded by its preparation, and so is a thread about
      to run one. */
  ghost predicate WasPrepared(b: Bridge, id: Id, before: nat)
    requires before <= |b.acts|
  {
    exists j :: 0 <= j < before && b.acts[j] == PreparedFor(id)
  }

  ghost predicate InOrder(b: Bridge) {
    && (forall i :: 0 <= i < |b.acts| && b.acts[i].RanFor? ==> b.acts[i].id in b.ops)
    && (forall i :: 0 <= i < |b.acts| && b.acts[i].RanFor? && b.ops[b.acts[i].id] == UPGRADE ==>
         WasPrepared(b, b.acts[i].id, i))
    && (forall id :: id in b.workers && b.workers[id].Ready? && id in b.ops && b.ops[id] == UPGRADE ==>
         WasPrepared(b, id, |b.acts|))
  }

  ghost predicate Inv(b: Bridge) {
    && Agree(b.jobs, b.order)
    && |b.jobs| <= JOBS_MAX
    && (b.running ==> b.order != [])
    && (forall id :: InStep(b, id))
    && InOrder(b)
  }

  lemma TrimKeeps(jobs: map<Id, Job>, order: seq<Id>, id: Id)
    requires Agree(jobs, order) && |jobs| <= JOBS_MAX + 1 && order != [] && order[|order| - 1] == id
    ensures var (j, o) := Trim(jobs, order, id);
      && Agree(j, o) && |j| <= JOBS_MAX
      && o != [] && o[|o| - 1] == id
      && (forall x :: x in j ==> x in jobs && j[x] == jobs[x])
      && (forall x :: x in jobs && x !in j ==> x == order[0] && x != id)
  {
    if |jobs| > JOBS_MAX {
      OneLess(jobs, order);
      TrimsOnce(jobs, order, id);
      assert order[1..][|order| - 2] == id;
    }
  }

  lemma TrimsOnce(jobs: map<Id, Job>, order: seq<Id>, id: Id)
    requires Agree(jobs, order) && |jobs| == JOBS_MAX + 1 && order != [] && order[|order| - 1] == id
    ensures |order| > 1 && order[0] != id && Trim(jobs, order, id) == (jobs - {order[0]}, order[1..])
  {
    AsMany(jobs, order);
    OneLess(jobs, order);
    assert Trim(jobs - {order[0]}, order[1..], id) == (jobs - {order[0]}, order[1..]);
  }

  lemma OneLess(jobs: map<Id, Job>, order: seq<Id>)
    requires Agree(jobs, order) && order != []
    ensures Agree(jobs - {order[0]}, order[1..]) && |jobs - {order[0]}| == |jobs| - 1
  {
    var rest, left := jobs - {order[0]}, order[1..];
    assert rest.Keys == jobs.Keys - {order[0]};
    forall x | x in rest
      ensures x in left
    {
      var i :| 0 <= i < |order| && order[i] == x;
      assert left[i - 1] == x;
    }
  }

  lemma {:induction false} AsMany(jobs: map<Id, Job>, order: seq<Id>)
    requires Agree(jobs, order)
    ensures |jobs| == |order|
    decreases |order|
  {
    if order == [] {
      assert jobs == map[];
    } else {
      OneLess(jobs, order);
      AsMany(jobs - {order[0]}, order[1..]);
    }
  }

  lemma StartAgrees(b: Bridge, id: Id, j: Job)
    requires Agree(b.jobs, b.order) && id !in b.jobs
    ensures Agree(b.jobs[id := j], b.order + [id])
  {
    var order := b.order + [id];
    assert order[|b.order|] == id;
    forall x | x in b.jobs
      ensures x in order
    {
      var i :| 0 <= i < |b.order| && b.order[i] == x;
      assert order[i] == x;
    }
  }

  lemma StartKeeps(b: Bridge, id: Id, owner: int, operation: string)
    requires Inv(b) && IsId(id) && id !in b.workers
    ensures Inv(Start(b, id, owner, operation))
  {
    if !b.running {
      var after := Start(b, id, owner, operation);
      assert InStep(b, id);
      StartAgrees(b, id, Job(owner, operation, None));
      TrimKeeps(b.jobs[id := Job(owner, operation, None)], b.order + [id], id);
      forall x
        ensures InStep(after, x)
      {
        assert InStep(b, x);
      }
      StartKeepsOrder(b, after, id);
    }
  }

  lemma StartKeepsOrder(b: Bridge, after: Bridge, id: Id)
    requires InOrder(b) && id !in b.workers && id !in b.ops
    requires after.acts == b.acts && id in after.ops && after.ops == b.ops[id := after.ops[id]]
    requires id in after.workers && after.workers == b.workers[id := after.workers[id]]
    requires after.workers[id] == FirstPhase(after.ops[id])
    ensures InOrder(after)
  {
    forall x | x in after.workers && after.workers[x].Ready? && x in after.ops && after.ops[x] == UPGRADE
      ensures WasPrepared(after, x, |after.acts|)
    {
      assert x != id && WasPrepared(b, x, |b.acts|);
    }
    forall i | 0 <= i < |after.acts| && after.acts[i].RanFor? && after.acts[i].id in after.ops &&
      after.ops[after.acts[i].id] == UPGRADE
      ensures WasPrepared(after, after.acts[i].id, i)
    {
      assert WasPrepared(b, b.acts[i].id, i);
    }
  }

  lemma StepKeepsOrder(b: Bridge, e: Event)
    requires Inv(b) && Enabled(b, e) && !e.Started?
    ensures InOrder(Next(b, e))
  {
    var after := Next(b, e);
    assert InStep(b, e.id);
    forall x | x in after.workers && after.workers[x].Ready? && x in after.ops && after.ops[x] == UPGRADE
      ensures WasPrepared(after, x, |after.acts|)
    {
      if x == e.id {
        assert after.acts[|b.acts|] == PreparedFor(x);
      } else {
        assert WasPrepared(b, x, |b.acts|);
        var j :| 0 <= j < |b.acts| && b.acts[j] == PreparedFor(x);
        assert after.acts[j] == PreparedFor(x);
      }
    }
    forall i | 0 <= i < |after.acts| && after.acts[i].RanFor? && after.acts[i].id in after.ops &&
      after.ops[after.acts[i].id] == UPGRADE
      ensures WasPrepared(after, after.acts[i].id, i)
    {
      if i < |b.acts| {
        assert after.acts[i] == b.acts[i];
        assert WasPrepared(b, b.acts[i].id, i);
        var j :| 0 <= j < i && b.acts[j] == PreparedFor(b.acts[i].id);
        assert after.acts[j] == b.acts[j];
      } else {
        assert WasPrepared(b, e.id, |b.acts|);
        var j :| 0 <= j < |b.acts| && b.acts[j] == PreparedFor(e.id);
        assert after.acts[j] == b.acts[j];
      }
    }
  }

  lemma StepInStep(b: Bridge, e: Event, x: Id)
    requires Inv(b) && Enabled(b, e) && !e.Started?
    ensures InStep(Next(b, e), x)
  {
    assert InStep(b, x) && InStep(b, e.id);
  }

  lemma NextKeeps(b: Bridge, e: Event)
    requires Inv(b) && Enabled(b, e)
    ensures Inv(Next(b, e))
  {
    if e.Started? {
      StartKeeps(b, e.id, e.owner, e.operation);
    } else {
      forall x
        ensures InStep(Next(b, e), x)
      {
        StepInStep(b, e, x);
      }
      StepKeepsOrder(b, e);
    }
  }

  // ---------------------------------------------------------------------
  // Runs.

  const EMPTY := Bridge(map[], [], false, map[], map[], [])

  ghost predicate Runs(b: Bridge, events: seq<Event>)
    decreases |events|
  {
    events == [] || (Enabled(b, events[0]) && Runs(Next(b, events[0]), events[1..]))
  }

  ghost function Run(b: Bridge, events: seq<Event>): Bridge
    requires Runs(b, events)
    decreases |events|
  {
    if events == [] then b else Run(Next(b, events[0]), events[1..])
  }

  lemma {:induction false} RunKeeps(b: Bridge, events: seq<Event>)
    requires Inv(b) && Runs(b, events)
    ensures Inv(Run(b, events))
    decreases |events|
  {
    if events != [] {
      NextKeeps(b, events[0]);
      RunKeeps(Next(b, events[0]), events[1..]);
    }
  }

  /** In every state of every run: a thread is about exactly when its job is in the
      table as running, that is so for no two jobs, it is so for one exactly when the
      flag is set, and that one is the newest; and the table holds at most 32 jobs. */
  lemma OneAtATime(events: seq<Event>, id: Id, other: Id)
    requires Runs(EMPTY, events)
    ensures var b := Run(EMPTY, events);
      && (About(b, id) <==> id in b.jobs && StateOf(b.jobs[id]) == Running)
      && (About(b, id) && About(b, other) ==> id == other)
      && (About(b, id) ==> b.running)
      && (b.running ==> b.order != [] && About(b, b.order[|b.order| - 1]))
      && (About(b, id) ==> b.order != [] && b.order[|b.order| - 1] == id)
      && |b.jobs| <= JOBS_MAX
  {
    RunKeeps(EMPTY, events);
    GoodIsOne(Run(EMPTY, events), id, other);
  }

  lemma GoodIsOne(b: Bridge, id: Id, other: Id)
    requires Inv(b)
    ensures About(b, id) <==> id in b.jobs && StateOf(b.jobs[id]) == Running
    ensures About(b, id) && About(b, other) ==> id == other
    ensures About(b, id) ==> b.running && b.order != [] && b.order[|b.order| - 1] == id
    ensures b.running ==> b.order != [] && About(b, b.order[|b.order| - 1])
  {
    assert InStep(b, id) && InStep(b, other);
    if b.order != [] {
      assert InStep(b, b.order[|b.order| - 1]);
    }
  }

  /** Nothing a bridge does evicts a job whose thread is about, so finishing always
      finds its job and writes down how it ended. */
  lemma FinishFindsItsJob(events: seq<Event>, id: Id)
    requires Runs(EMPTY, events) && Enabled(Run(EMPTY, events), Finished(id))
    ensures var b := Run(EMPTY, events);
      && id in b.jobs
      && Next(b, Finished(id)).jobs == b.jobs[id := b.jobs[id].(outcome := Some(b.workers[id].outcome))]
      && !Next(b, Finished(id)).running
  {
    RunKeeps(EMPTY, events);
    var b := Run(EMPTY, events);
    assert InStep(b, id);
  }

  /** No upgrade command runs unless preparing that upgrade returned first. */
  lemma UpgradesArePrepared(events: seq<Event>, i: nat)
    requires Runs(EMPTY, events) && i < |Run(EMPTY, events).acts|
    requires Run(EMPTY, events).acts[i].RanFor?
    ensures var b := Run(EMPTY, events);
      && b.acts[i].id in b.ops
      && (b.ops[b.acts[i].id] == UPGRADE ==> exists j :: 0 <= j < i && b.acts[j] == PreparedFor(b.acts[i].id))
  {
    RunKeeps(EMPTY, events);
    var b := Run(EMPTY, events);
    assert b.ops[b.acts[i].id] == UPGRADE ==> WasPrepared(b, b.acts[i].id, i);
  }

  // ---------------------------------------------------------------------
  // What one job comes to.

  /** While a job runs a start changes nothing. Otherwise the job is in the table as running,
      with who asked for what, it is the newest and the flag is set; an upgrade prepares first.
      No other job changes, and none goes but the oldest, to make room. */
  lemma StartIsTold(b: Bridge, id: Id, owner: int, operation: string)
    requires Inv(b) && Enabled(b, Started(id, owner, operation))
    ensures b.running ==> Next(b, Started(id, owner, operation)) == b
    ensures !b.running ==>
      var after := Next(b, Started(id, owner, operation));
      && id in after.jobs && after.jobs[id] == Job(owner, operation, None) && after.running
      && after.order != [] && after.order[|after.order| - 1] == id
      && after.workers == b.workers[id := if operation == "upgrade" then Preparing else Ready(NotAsked)]
      && (forall x :: x in after.jobs && x != id ==> x in b.jobs && after.jobs[x] == b.jobs[x])
      && (forall x :: x in b.jobs && x !in after.jobs ==> |b.jobs| == 32 && b.order != [] && x == b.order[0])
  {
    if !b.running {
      assert InStep(b, id);
      RoomIsMade(b, id, Job(owner, operation, None));
    }
  }

  /** The table with one more job, and without the oldest if it was full. */
  lemma RoomIsMade(b: Bridge, id: Id, j: Job)
    requires Agree(b.jobs, b.order) && |b.jobs| <= JOBS_MAX && id !in b.jobs
    ensures var (jobs, order) := Trim(b.jobs[id := j], b.order + [id], id);
      && id in jobs && jobs[id] == j && order != [] && order[|order| - 1] == id
      && (forall x :: x in jobs && x != id ==> x in b.jobs && jobs[x] == b.jobs[x])
      && (forall x :: x in b.jobs && x !in jobs ==> |b.jobs| == 32 && b.order != [] && x == b.order[0])
  {
    StartAgrees(b, id, j);
    AsMany(b.jobs, b.order);
    OneMore(b.jobs, id, j);
    TrimKeeps(b.jobs[id := j], b.order + [id], id);
    TrimsWhenFull(b, id, j);
  }

  lemma OneMore(jobs: map<Id, Job>, id: Id, j: Job)
    requires id !in jobs
    ensures |jobs[id := j]| == |jobs| + 1
  {
    assert jobs[id := j].Keys == jobs.Keys + {id};
  }

  lemma TrimsWhenFull(b: Bridge, id: Id, j: Job)
    requires Agree(b.jobs, b.order) && id !in b.jobs
    ensures |b.jobs| < 32 ==> Trim(b.jobs[id := j], b.order + [id], id) == (b.jobs[id := j], b.order + [id])
    ensures |b.jobs| >= 32 ==> b.order != [] && (b.order + [id])[0] == b.order[0]
  {
    AsMany(b.jobs, b.order);
    OneMore(b.jobs, id, j);
  }

  /** No event has to do with a job. */
  predicate OfOthers(events: seq<Event>, id: Id) {
    forall i :: 0 <= i < |events| ==> events[i].id != id
  }

  lemma OthersLeaveIt(b: Bridge, e: Event, id: Id)
    requires Inv(b) && Enabled(b, e) && About(b, id) && e.id != id
    ensures About(Next(b, e), id) && Next(b, e).workers[id] == b.workers[id]
    ensures id in b.jobs && id in Next(b, e).jobs && Next(b, e).jobs[id] == b.jobs[id]
  {
    assert InStep(b, id);
  }

  lemma {:induction false} WaitsForItsTurn(b: Bridge, events: seq<Event>, id: Id)
    requires Inv(b) && Runs(b, events) && About(b, id) && OfOthers(events, id)
    ensures var end := Run(b, events);
      && About(end, id) && end.workers[id] == b.workers[id]
      && id in b.jobs && id in end.jobs && end.jobs[id] == b.jobs[id]
    decreases |events|
  {
    assert InStep(b, id);
    if events != [] {
      assert events[0].id != id && forall i :: 0 <= i < |events[1..]| ==> events[1..][i] == events[i + 1];
      NextKeeps(b, events[0]);
      OthersLeaveIt(b, events[0], id);
      WaitsForItsTurn(Next(b, events[0]), events[1..], id);
    }
  }

  /** How a finished job is shown, and that the next may start. */
  ghost predicate EndsWith(b: Bridge, end: Bridge, id: Id, outcome: Outcome, good: bool) {
    && id in b.jobs && id in end.jobs && end.jobs[id] == b.jobs[id].(outcome := Some(outcome))
    && StateOf(end.jobs[id]) == (if good then Succeeded else Failed) && !end.running
  }

  lemma PostedIsFinished(b: Bridge, rest: seq<Event>, id: Id, outcome: Outcome)
    requires Inv(b) && id in b.workers && b.workers[id] == Posted(outcome)
    requires Runs(b, rest) && OfOthers(rest, id)
    ensures Enabled(Run(b, rest), Finished(id))
    ensures EndsWith(b, Next(Run(b, rest), Finished(id)), id, outcome, outcome.Ran? && outcome.code == 0)
  {
    WaitsForItsTurn(b, rest, id);
  }

  /** When a job's command has run, then whatever happens before it is taken, finishing shows
      how it went: succeeded exactly for code zero, with the rollback it was prepared with. */
  lemma EndsAsItRan(b: Bridge, id: Id, r: Result<int, string>, rest: seq<Event>)
    requires Inv(b) && Enabled(b, Commanded(id, r))
    requires Runs(b, [Commanded(id, r)] + rest) && OfOthers(rest, id)
    ensures var b' := Run(b, [Commanded(id, r)] + rest);
      && Enabled(b', Finished(id))
      && EndsWith(b, Next(b', Finished(id)), id,
           if r.Ok? then Ran(r.value, b.workers[id].rollback) else Refused(r.error), r == Ok(0))
    ensures Next(b, Commanded(id, r)).acts == b.acts + [RanFor(id)]
  {
    assert ([Commanded(id, r)] + rest)[1..] == rest && InStep(b, id);
    NextKeeps(b, Commanded(id, r));
    PostedIsFinished(Next(b, Commanded(id, r)), rest, id,
      if r.Ok? then Ran(r.value, b.workers[id].rollback) else Refused(r.error));
  }

  /** An upgrade whose preparation is refused fails with that, and its command is not run. */
  lemma RefusedPreparationEnds(b: Bridge, id: Id, reason: string, rest: seq<Event>)
    requires Inv(b) && Enabled(b, Prepared(id, Err(reason)))
    requires Runs(b, [Prepared(id, Err(reason))] + rest) && OfOthers(rest, id)
    ensures var b' := Run(b, [Prepared(id, Err(reason))] + rest);
      Enabled(b', Finished(id)) && EndsWith(b, Next(b', Finished(id)), id, Refused(reason), false)
    ensures Next(b, Prepared(id, Err(reason))).acts == b.acts
  {
    assert ([Prepared(id, Err(reason))] + rest)[1..] == rest && InStep(b, id);
    NextKeeps(b, Prepared(id, Err(reason)));
    PostedIsFinished(Next(b, Prepared(id, Err(reason))), rest, id, Refused(reason));
  }

  // ---------------------------------------------------------------------
  // The bridge, changed in place.

  lemma HexIsId(id: Id)
    ensures IsId(id) <==> |id| == 32 && forall c :: c in id ==> c in "0123456789abcdef"
  {
    assert forall c: char :: '0' <= c <= '9' || 'a' <= c <= 'f' <==> c in "0123456789abcdef";
    assert forall i :: 0 <= i < |id| ==> id[i] in id;
  }

  datatype Problem = Busy | BadId | NotFound | NotYours

  /** What a caller is told of a job. */
  datatype Told = Told(operation: string, state: State, outcome: Option<Outcome>)

  class HostBridge {
    var jobs: map<Id, Job>
    var order: seq<Id>
    var running: bool
    ghost var workers: map<Id, Phase>
    ghost var ops: map<Id, string>
    ghost var acts: seq<Act>

    constructor ()
      ensures View() == EMPTY
    {
      jobs, order, running := map[], [], false;
      workers, ops, acts := map[], map[], [];
    }

    ghost function View(): Bridge
      reads this
    {
      Bridge(jobs, order, running, workers, ops, acts)
    }

    method StartJob(id: Id, owner: int, operation: string) returns (r: Result<Id, Problem>)
      requires Enabled(View(), Started(id, owner, operation))
      modifies this
      ensures View() == Next(old(View()), Started(id, owner, operation))
      ensures r == if old(running) then Err(Busy) else Ok(id)
      ensures old(running) ==> View() == old(View())
    {
      if running {
        return Err(Busy);
      }
      running := true;
      jobs := jobs[id := Job(owner, operation, None)];
      order := order + [id];
      assert order[|order| - 1] == id;
      DropOldest(id);
      workers := workers[id := FirstPhase(operation)];
      ops := ops[id := operation];
      r := Ok(id);
    }

    method DropOldest(id: Id)
      requires id in order
      modifies `jobs, `order
      ensures (jobs, order) == Trim(old(jobs), old(order), id)
    {
      while |jobs| > JOBS_MAX
        invariant Trim(jobs, order, id) == Trim(old(jobs), old(order), id) && id in order
        decreases |order|
      {
        var oldest := order[0];
        if oldest != id {
          jobs, order := jobs - {oldest}, order[1..];
        } else {
          break;
        }
      }
    }

    method FinishJob(id: Id, update: Outcome)
      requires id in workers && workers[id] == Posted(update)
      modifies this
      ensures View() == Next(old(View()), Finished(id))
    {
      if id in jobs {
        jobs := jobs[id := jobs[id].(outcome := Some(update))];
      }
      running := false;
      workers := workers[id := Over];
    }

    method JobGet(id: Id, caller: int) returns (r: Result<Told, Problem>)
      ensures r == Err(BadId) <==> |id| != 32 || exists c :: c in id && c !in "0123456789abcdef"
      ensures IsId(id) && id !in jobs ==> r == Err(NotFound)
      ensures IsId(id) && id in jobs && caller != jobs[id].owner && caller != 0 ==> r == Err(NotYours)
      ensures r.Ok? <==> IsId(id) && id in jobs && (caller == jobs[id].owner || caller == 0)
      ensures r.Ok? ==> r.value == Told(jobs[id].operation, StateOf(jobs[id]), jobs[id].outcome)
    {
      HexIsId(id);
      if !IsId(id) {
        return Err(BadId);
      }
      if id !in jobs {
        return Err(NotFound);
      }
      if caller != jobs[id].owner && caller != 0 {
        return Err(NotYours);
      }
      r := Ok(Told(jobs[id].operation, StateOf(jobs[id]), jobs[id].outcome));
    }
  }

  /** A job's thread from end to end, given what preparing and running would come to:
      the update it posts, and whether the command ran. */
  method RunJob(operation: string, prepare: Result<Rollback, string>, command: Result<int, string>)
    returns (update: Outcome, ran: bool)
    ensures ran <==> operation != UPGRADE || prepare.Ok?
    ensures update == if operation == UPGRADE && prepare.Err? then Refused(prepare.error)
                      else if command.Err? then Refused(command.error)
                      else Ran(command.value, if operation == UPGRADE then prepare.value else NotAsked)
  {
    ran := false;
    var rollback := NotAsked;
    if operation == UPGRADE {
      if prepare.Err? {
        return Refused(prepare.error), ran;
      }
      rollback := prepare.value;
    }
    ran := true;
    if command.Err? {
      return Refused(command.error), ran;
    }
    update := Ran(command.value, rollback);
  }
}
