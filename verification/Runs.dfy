/** The bulk job over whole runs: any sequence of events, from the empty system. */
module Runs {
  import opened Numbering
  import opened Batching
  import opened Protocol
  import opened DatabaseInvariant
  import opened SystemInvariant
  import opened SystemSteps

  lemma InitialInv()
    ensures Inv(INITIAL)
  {
  }

  lemma {:induction false} RunKeepsInv(s: State, events: seq<Event>)
    requires Inv(s)
    ensures Inv(Run(s, events))
  {
    hide Inv;
    if events != [] {
      RunKeepsInv(s, events[..|events| - 1]);
      ExecKeepsInv(Run(s, events[..|events| - 1]), events[|events| - 1]);
    }
  }

  lemma {:induction false} RunConcat(s: State, first: seq<Event>, second: seq<Event>)
    ensures Run(s, first + second) == Run(Run(s, first), second)
  {
    hide Exec;
    if second == [] {
      assert first + second == first;
    } else {
      var last := |second| - 1;
      RunConcat(s, first, second[..last]);
      assert (first + second)[..|first| + last] == first + second[..last];
    }
  }

  // ---------- numbering ----------

  // In every reachable state the issued sequences of a key are exactly 1..lastSequence, each once.
  lemma NumbersAreGapFree(events: seq<Event>, key: CounterKey)
    ensures var db := Run(INITIAL, events).db;
            && (forall n: nat :: Issued(db.documents, key, n) <==> 1 <= n <= Counter(db, key))
            && (forall d, e :: d in db.documents && e in db.documents && SameNumber(db.documents[d], db.documents[e]) ==> d == e)
  {
    hide Run;
    InitialInv();
    RunKeepsInv(INITIAL, events);
    assert DbInv(Run(INITIAL, events).db);
  }

  // An active job holds the top of its counter and owns exactly the documents of its range, so a
  // revert always finds the counter where the job left it.
  lemma ActiveJobHoldsItsRange(events: seq<Event>, id: JobId)
    ensures var db := Run(INITIAL, events).db;
            id in db.jobs && Active(db.jobs[id].status) && db.jobs[id].range.Some? ==>
              var range := db.jobs[id].range.value;
              && Counter(db, db.jobs[id].key) == range.last
              && CounterAfterRevert(Counter(db, db.jobs[id].key), range) == Some(range.first - 1)
              && (forall d :: d in db.documents ==> (db.documents[d].job == Some(id) <==> InRange(db.jobs[id], db.documents[d])))
              && (forall n: nat :: range.first <= n <= range.last ==> Issued(db.documents, db.jobs[id].key, n))
  {
    hide Run, PlansInv, ProgressInv, NetInv, ZipKept, LinksResolve;
    InitialInv();
    RunKeepsInv(INITIAL, events);
    var db := Run(INITIAL, events).db;
    assert DbInv(db);
    if id in db.jobs {
      assert RangeHeld(db.counters, db.jobs[id]);
    }
  }

  // ---------- progress ----------

  // The count of an active job is what its rows say, and it assembles exactly when every row is done
  // and every document is counted.
  lemma ProgressIsWhatRowsSay(events: seq<Event>, id: JobId)
    ensures var s := Run(INITIAL, events);
            id in s.db.jobs && Active(s.db.jobs[id].status) ==>
              var rows := RowsIn(s.db.batches, id);
              && s.db.jobs[id].completed == DoneSum(rows)
              && (s.db.jobs[id].status == ASSEMBLING <==> id in s.db.batches && AllDone(rows))
              && (s.db.jobs[id].status == ASSEMBLING ==> s.db.jobs[id].completed == s.db.jobs[id].total)
  {
    hide Run;
    InitialInv();
    RunKeepsInv(INITIAL, events);
    var s := Run(INITIAL, events);
    if id in s.db.jobs {
      assert PlansInv(s.db.jobs, s.db.documents, s.plans);
      assert Progress(s.db.jobs[id], s.plans[id], id in s.db.batches, RowsIn(s.db.batches, id));
    }
  }

  // ---------- statuses ----------

  // PREPARING, RUNNING, ASSEMBLING, DONE, EXPIRED in this order; FAILED only from an active status.
  function Rank(status: Status): nat {
    match status
    case PREPARING => 0
    case RUNNING => 1
    case ASSEMBLING => 2
    case DONE => 3
    case EXPIRED => 4
    case FAILED => 4
  }

  predicate Climbs(before: Job, after: Job) {
    && after.key == before.key && after.total == before.total && after.range == before.range
    && (before.status == after.status
        || (Rank(before.status) < Rank(after.status) && (after.status == FAILED ==> Active(before.status))))
  }

  lemma ExecClimbs(s: State, e: Event, id: JobId)
    requires id in s.db.jobs
    ensures id in Exec(s, e).db.jobs && Climbs(s.db.jobs[id], Exec(s, e).db.jobs[id])
  {
    if WorkerEvent(e) {
      WorkerLeavesDatabase(s, e);
    } else if e.ApplyResult? {
      ApplyResultClimbs(s, e.result, id);
    } else if DispatchEvent(e) || e.CreateJob? || e.GenerateSingle? {
      CreationClimbs(s, e, id);
    } else {
      CoordinatorClimbs(s, e, id);
    }
  }

  lemma CreationClimbs(s: State, e: Event, id: JobId)
    requires id in s.db.jobs && (DispatchEvent(e) || e.CreateJob? || e.GenerateSingle?)
    ensures id in Exec(s, e).db.jobs && Climbs(s.db.jobs[id], Exec(s, e).db.jobs[id])
  {
    hide Exec;
    Dispatched(s, e);
    if e.CreateJob? && Exec(s, e) != s {
      ReservedJob(s.db, e.job, e.key, e.groups, |e.rerendered|);
    }
  }

  lemma ApplyResultClimbs(s: State, r: Result, id: JobId)
    requires id in s.db.jobs
    ensures id in DoApplyResult(s, r).db.jobs && Climbs(s.db.jobs[id], DoApplyResult(s, r).db.jobs[id])
  {
    hide CountersAfterRevert, Unlink, AllDone, ApplyBatchDone, Revert, Advance;
    match r
    case BatchDone(job, b, n, attempt) => BatchDoneClimbs(s.db, job, b, n, attempt, id);
    case BatchFailed(job, _) => RevertClimbs(s.db, job, {PREPARING, RUNNING}, id);
    case ZipDone(job) => AdvanceClimbs(s.db, job, id);
    case ZipFailed(job) => RevertClimbs(s.db, job, {ASSEMBLING}, id);
  }

  lemma BatchDoneClimbs(db: Database, job: JobId, batchIndex: nat, count: nat, attempt: nat, id: JobId)
    requires id in db.jobs
    ensures var next := ApplyBatchDone(db, job, batchIndex, count, attempt).0; id in next.jobs && Climbs(db.jobs[id], next.jobs[id])
  {
    hide AllDone;
  }

  lemma RevertClimbs(db: Database, job: JobId, fromStatuses: set<Status>, id: JobId)
    requires id in db.jobs && fromStatuses <= ACTIVE_STATUSES
    ensures var next := Revert(db, job, fromStatuses); id in next.jobs && Climbs(db.jobs[id], next.jobs[id])
  {
    hide CountersAfterRevert, Unlink;
  }

  lemma AdvanceClimbs(db: Database, job: JobId, id: JobId)
    requires id in db.jobs
    ensures var next := Advance(db, job, ASSEMBLING, DONE); id in next.jobs && Climbs(db.jobs[id], next.jobs[id])
  {
  }

  lemma CoordinatorClimbs(s: State, e: Event, id: JobId)
    requires id in s.db.jobs && !WorkerEvent(e) && !e.ApplyResult? && !DispatchEvent(e) && !e.CreateJob? && !e.GenerateSingle?
    ensures id in Exec(s, e).db.jobs && Climbs(s.db.jobs[id], Exec(s, e).db.jobs[id])
  {
    hide Exec;
    Dispatched(s, e);
  }

  // Over any run a job's status only climbs; FAILED and EXPIRED are final and only an active job fails.
  lemma {:induction false} StatusOnlyClimbs(s: State, events: seq<Event>, id: JobId)
    requires id in s.db.jobs
    ensures id in Run(s, events).db.jobs && Climbs(s.db.jobs[id], Run(s, events).db.jobs[id])
  {
    hide Exec;
    if events != [] {
      var before := Run(s, events[..|events| - 1]);
      StatusOnlyClimbs(s, events[..|events| - 1], id);
      ExecClimbs(before, events[|events| - 1], id);
    }
  }
}
