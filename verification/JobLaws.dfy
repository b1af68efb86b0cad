/** What each result, failure and clean-up does to a job, in the tables and queues themselves. */
module JobLaws {
  import opened Numbering
  import opened Batching
  import opened Protocol
  import opened DatabaseInvariant
  import opened SystemInvariant
  import opened SystemSteps
  import opened Runs

  // ---------- a batch result ----------

  // The job takes batch results and still waits for this one.
  predicate Waits(db: Database, id: JobId, b: int) {
    && id in db.jobs && (db.jobs[id].status == PREPARING || db.jobs[id].status == RUNNING)
    && id in db.batches && 0 <= b < |db.batches[id]| && !db.batches[id][b].done
  }

  // And for no other.
  predicate WaitsOnlyFor(db: Database, id: JobId, b: int) {
    Waits(db, id, b) && forall k :: 0 <= k < |db.batches[id]| && k != b ==> db.batches[id][k].done
  }

  lemma MarkedTables(db: Database, id: JobId, b: int, n: nat, attempt: nat)
    ensures !Waits(db, id, b) ==> ApplyBatchDone(db, id, b, n, attempt) == (db, false)
    ensures Waits(db, id, b) ==>
              var job, rows, last := db.jobs[id], db.batches[id], WaitsOnlyFor(db, id, b);
              ApplyBatchDone(db, id, b, n, attempt)
              == (db.(jobs := db.jobs[id := Job(job.key, if last then ASSEMBLING else job.status, job.total, job.completed + n, job.range)],
                      batches := db.batches[id := rows[b := BatchRow(rows[b].documentCount, true, attempt)]]),
                  last)
  {
    if Waits(db, id, b) {
      var rows := db.batches[id];
      var marked := rows[b := rows[b].(done := true, attempts := attempt)];
      assert forall k :: 0 <= k < |rows| ==> marked[k].done == (k == b || rows[k].done);
    } else if id in db.jobs && id in db.batches {
      assert db.jobs[id := db.jobs[id]] == db.jobs && db.batches[id := db.batches[id]] == db.batches;
    }
  }

  function ZipAsked(db: Database, id: JobId, b: nat): multiset<WorkMessage> {
    if WaitsOnlyFor(db, id, b) then multiset{AssembleZip(id, db.jobs[id].total)} else multiset{}
  }

  // A batch result counts once, on a job that waits for it, and the last one, even if it comes while the
  // job is still PREPARING, asks for the ZIP of all its documents; any other changes nothing.
  lemma BatchResultEffect(s: State, id: JobId, b: nat, n: nat, attempt: nat)
    requires BatchDone(id, b, n, attempt) in s.results
    ensures var after := Exec(s, ApplyResult(BatchDone(id, b, n, attempt)));
            && (!Waits(s.db, id, b) ==> after == s)
            && (Waits(s.db, id, b) ==>
                  var job, rows, last := s.db.jobs[id], s.db.batches[id], WaitsOnlyFor(s.db, id, b);
                  && after == s.(db := after.db, work := s.work + ZipAsked(s.db, id, b))
                  && after.db == s.db.(jobs := after.db.jobs, batches := after.db.batches)
                  && after.db.jobs
                     == s.db.jobs[id := Job(job.key, if last then ASSEMBLING else job.status, job.total, job.completed + n, job.range)]
                  && after.db.batches == s.db.batches[id := rows[b := BatchRow(rows[b].documentCount, true, attempt)]])
  {
    hide Exec, ApplyBatchDone;
    Dispatched(s, ApplyResult(BatchDone(id, b, n, attempt)));
    MarkedTables(s.db, id, b, n, attempt);
  }

  // A commit that fails after the message was sent leaves nothing but that message.
  lemma LostCommitEffect(s: State, id: JobId, b: nat, n: nat, attempt: nat)
    requires BatchDone(id, b, n, attempt) in s.results
    ensures Exec(s, ApplyResultButLoseCommit(BatchDone(id, b, n, attempt))) == s.(work := s.work + ZipAsked(s.db, id, b))
  {
    hide Exec, ApplyBatchDone;
    Dispatched(s, ApplyResultButLoseCommit(BatchDone(id, b, n, attempt)));
    MarkedTables(s.db, id, b, n, attempt);
    assert s.work + multiset{} == s.work;
  }

  // ---------- who asks for a ZIP ----------

  // The event applies the result a job waits for alone, committed or not.
  predicate AsksForZip(s: State, e: Event, id: JobId) {
    && (e.ApplyResult? || e.ApplyResultButLoseCommit?) && e.result in s.results
    && e.result.BatchDone? && e.result.job == id && WaitsOnlyFor(s.db, id, e.result.batchIndex)
  }

  // Of all events only those ask for a ZIP, once each.
  lemma OnlyLastResultsAsk(s: State, e: Event, id: JobId, expected: nat)
    ensures var asked := AsksForZip(s, e, id) && expected == s.db.jobs[id].total;
            if asked then Exec(s, e).work[AssembleZip(id, expected)] == s.work[AssembleZip(id, expected)] + 1
            else Exec(s, e).work[AssembleZip(id, expected)] <= s.work[AssembleZip(id, expected)]
  {
    hide Exec, DoApplyResult, DoLoseCommit, WorkerStep;
    Dispatched(s, e);
    if (e.ApplyResult? || e.ApplyResultButLoseCommit?) && e.result in s.results && e.result.BatchDone? {
      var r := e.result;
      BatchResultEffect(s, r.job, r.batchIndex, r.documentCount, r.attempt);
      LostCommitEffect(s, r.job, r.batchIndex, r.documentCount, r.attempt);
    } else if e.ApplyResult? || e.ApplyResultButLoseCommit? {
      OtherResultsSendNothing(s, e.result);
    } else if WorkerEvent(e) {
      WorkersAskForNothing(s, e);
    } else {
      OthersSendBatches(s, e);
    }
  }

  lemma OtherResultsSendNothing(s: State, r: Result)
    requires r !in s.results || !r.BatchDone?
    ensures DoApplyResult(s, r).work == s.work && DoLoseCommit(s, r).work == s.work
  {
  }

  lemma WorkersAskForNothing(s: State, e: Event)
    requires WorkerEvent(e)
    ensures forall m :: WorkerStep(s, e).work[m] <= s.work[m]
  {
  }

  lemma OthersSendBatches(s: State, e: Event)
    requires !WorkerEvent(e) && !e.ApplyResult? && !e.ApplyResultButLoseCommit?
    ensures Exec(s, e).work == s.work
         || (e.SendBatch? && Exec(s, e).work == s.work + multiset{RenderBatch(e.job, e.batchIndex)})
  {
    hide Exec, Reserve;
    Dispatched(s, e);
  }

  // ---------- the other results and failures ----------

  // A failed job: its range is back, and nothing of it is left in any table.
  ghost predicate HandsBack(before: Database, after: Database, id: JobId)
    requires id in before.jobs
  {
    var job := before.jobs[id];
    && after.jobs == before.jobs[id := Job(job.key, FAILED, job.total, job.completed, job.range)]
    && after.batches == before.batches - {id} && after.nextDocument == before.nextDocument
    && (forall key :: CounterOf(after.counters, key)
                      == if job.range.Some? && key == job.key then job.range.value.first - 1 else CounterOf(before.counters, key))
    && (forall d :: d in after.documents <==> d in before.documents && before.documents[d].job != Some(id))
    && (forall d :: d in after.documents ==> after.documents[d] == before.documents[d])
    && after.settlements.Keys == before.settlements.Keys
    && (forall x :: x in before.settlements ==>
          && after.settlements[x].municipality == before.settlements[x].municipality
          && after.settlements[x].replaced == before.settlements[x].replaced
          && after.settlements[x].resolution == LeftOf(before, before.settlements[x].resolution, id)
          && after.settlements[x].order == LeftOf(before, before.settlements[x].order, id))
  }

  // A link that goes to one of the job's documents goes.
  function LeftOf(before: Database, link: Option<DocumentId>, id: JobId): Option<DocumentId> {
    if link.Some? && link.value in before.documents && before.documents[link.value].job == Some(id) then None else link
  }

  lemma RevertHandsBack(db: Database, id: JobId, fromStatuses: set<Status>)
    requires DbInv(db) && fromStatuses <= ACTIVE_STATUSES
    ensures if id in db.jobs && db.jobs[id].status in fromStatuses then HandsBack(db, Revert(db, id, fromStatuses), id)
            else Revert(db, id, fromStatuses) == db
  {
    hide GapFree, OneActiveJob, DocumentsOwned, LinksResolve;
    if id in db.jobs && db.jobs[id].status in fromStatuses {
      assert RangeHeld(db.counters, db.jobs[id]);
      RevertShape(db, id, fromStatuses);
    }
  }

  predicate ActiveNow(db: Database, id: JobId) {
    id in db.jobs && (db.jobs[id].status == PREPARING || db.jobs[id].status == RUNNING || db.jobs[id].status == ASSEMBLING)
  }

  // The events that fail a job, each in the statuses it looks for.
  predicate Fails(s: State, e: Event, id: JobId) {
    id in s.db.jobs && var status := s.db.jobs[id].status;
    match e
    case ApplyResult(BatchFailed(job, b)) => job == id && BatchFailed(job, b) in s.results && (status == PREPARING || status == RUNNING)
    case ApplyResult(ZipFailed(job)) => job == id && ZipFailed(job) in s.results && status == ASSEMBLING
    case FailDispatch(job) => job == id && ActiveNow(s.db, id)
    case RecoverInterrupted(job) => job == id && ActiveNow(s.db, id)
    case FailStalled(job) => job == id && (status == RUNNING || status == ASSEMBLING)
    case _ => false
  }

  predicate FailureEvent(e: Event) {
    || (e.ApplyResult? && (e.result.BatchFailed? || e.result.ZipFailed?))
    || e.FailDispatch? || e.RecoverInterrupted? || e.FailStalled?
  }

  function Failing(e: Event): JobId
    requires FailureEvent(e)
  {
    if e.ApplyResult? then e.result.job else e.job
  }

  // A failure of an active job hands everything back; one that does not find it so changes nothing.
  lemma FailureEffect(s: State, e: Event)
    requires DbInv(s.db) && FailureEvent(e)
    ensures var after, id := Exec(s, e), Failing(e);
            && after == s.(db := after.db)
            && (if Fails(s, e, id) then HandsBack(s.db, after.db, id) else after == s)
  {
    hide Exec, Revert, DbInv, HandsBack;
    Dispatched(s, e);
    var id := Failing(e);
    RevertHandsBack(s.db, id, {PREPARING, RUNNING});
    RevertHandsBack(s.db, id, {ASSEMBLING});
    RevertHandsBack(s.db, id, ACTIVE_STATUSES);
    RevertHandsBack(s.db, id, {RUNNING, ASSEMBLING});
  }

  // A ZIP that was written finishes the job that waits for it, and nothing else.
  lemma ZipResultEffect(s: State, id: JobId)
    requires ZipDone(id) in s.results
    ensures Exec(s, ApplyResult(ZipDone(id)))
         == if id in s.db.jobs && s.db.jobs[id].status == ASSEMBLING
            then s.(db := s.db.(jobs := s.db.jobs[id := s.db.jobs[id].(status := DONE)])) else s
  {
    hide Exec;
    Dispatched(s, ApplyResult(ZipDone(id)));
  }

  // ---------- clean-up ----------

  // A blob goes when its job failed or expired, or when the job is done and the blob is not the ZIP.
  predicate NotNeeded(db: Database, path: Path) {
    path.job in db.jobs
    && match db.jobs[path.job].status
       case FAILED => true
       case EXPIRED => true
       case DONE => !path.ZipPath?
       case _ => false
  }

  // Deleting a blob or a job's rows takes exactly those away, and only when they are not needed any more.
  lemma CleanupEffect(s: State, path: Path, id: JobId)
    ensures Exec(s, DeleteBlob(path)) == if NotNeeded(s.db, path) then s.(blobs := s.blobs - {path}) else s
    ensures Exec(s, DeleteRows(id))
         == if id in s.db.jobs && !ActiveNow(s.db, id) then s.(db := s.db.(batches := s.db.batches - {id})) else s
  {
    hide Exec;
    CleanupSteps(s, DeleteBlob(path));
    CleanupSteps(s, DeleteRows(id));
  }

  // ---------- every change of a status ----------

  predicate EverySent(s: State, id: JobId) {
    id in s.plans && s.plans[id].rowsCreated && forall b :: 0 <= b < |PlanBatches(s.plans[id])| ==> b in s.plans[id].sent
  }

  // The status a job has after an event: the whole of what moves it.
  function StatusAfter(s: State, e: Event, id: JobId): Status
    requires id in s.db.jobs
  {
    var status := s.db.jobs[id].status;
    if Fails(s, e, id) then FAILED
    else if e == FinishDispatch(id) && status == PREPARING && EverySent(s, id) then RUNNING
    else if e.ApplyResult? && AsksForZip(s, e, id) then ASSEMBLING
    else if e == ApplyResult(ZipDone(id)) && ZipDone(id) in s.results && status == ASSEMBLING then DONE
    else if e == Expire(id) && status == DONE then EXPIRED
    else status
  }

  lemma StatusMovesExactly(s: State, e: Event, id: JobId)
    requires DbInv(s.db) && id in s.db.jobs
    ensures id in Exec(s, e).db.jobs && Exec(s, e).db.jobs[id].status == StatusAfter(s, e, id)
  {
    hide Exec, DbInv, HandsBack, Waits, EverySent, PlanBatches;
    if FailureEvent(e) {
      FailureEffect(s, e);
      FailedStatus(s, e, id);
    } else if e.ApplyResult? && e.result in s.results && e.result.BatchDone? {
      var r := e.result;
      BatchResultEffect(s, r.job, r.batchIndex, r.documentCount, r.attempt);
    } else if e.ApplyResult? && e.result in s.results {
      ZipResultEffect(s, e.result.job);
    } else {
      OtherStatuses(s, e, id);
    }
  }

  lemma FailedStatus(s: State, e: Event, id: JobId)
    requires DbInv(s.db) && id in s.db.jobs && FailureEvent(e)
    requires if Fails(s, e, Failing(e)) then HandsBack(s.db, Exec(s, e).db, Failing(e)) else Exec(s, e) == s
    ensures id in Exec(s, e).db.jobs && Exec(s, e).db.jobs[id].status == if Fails(s, e, id) then FAILED else s.db.jobs[id].status
  {
    hide Exec, DbInv;
  }

  lemma OtherStatuses(s: State, e: Event, id: JobId)
    requires id in s.db.jobs && !FailureEvent(e) && !(e.ApplyResult? && e.result in s.results)
    ensures id in Exec(s, e).db.jobs && Exec(s, e).db.jobs[id].status == StatusAfter(s, e, id)
  {
    hide Exec, PlanBatches, Reserve, WaitsOnlyFor;
    if e.CreateJob? {
      CreatedStatuses(s, e, id);
    } else if e.FinishDispatch? || e.Expire? {
      MovedStatuses(s, e, id);
    } else {
      QuietEvents(s, e);
    }
  }

  lemma MovedStatuses(s: State, e: Event, id: JobId)
    requires id in s.db.jobs && (e.FinishDispatch? || e.Expire?)
    ensures id in Exec(s, e).db.jobs && Exec(s, e).db.jobs[id].status == StatusAfter(s, e, id)
  {
    hide Exec, DoFinishDispatch, DoExpire, EverySent;
    if e.FinishDispatch? {
      DispatchSteps(s, e);
      DispatchMoves(s, e.job, id);
    } else {
      CleanupSteps(s, e);
      ExpiryMoves(s, e.job, id);
    }
  }

  lemma DispatchMoves(s: State, job: JobId, id: JobId)
    requires id in s.db.jobs
    ensures var after := DoFinishDispatch(s, job).db.jobs;
            id in after && after[id].status
                           == if job == id && s.db.jobs[id].status == PREPARING && EverySent(s, id) then RUNNING else s.db.jobs[id].status
  {
    hide PlanBatches, AllSent, EverySent;
    AllSentIs(s, job);
  }

  lemma AllSentIs(s: State, id: JobId)
    ensures EverySent(s, id) <==> id in s.plans && AllSent(s.plans[id])
  {
    hide PlanBatches;
  }

  lemma ExpiryMoves(s: State, job: JobId, id: JobId)
    requires id in s.db.jobs
    ensures var after := DoExpire(s, job).db.jobs;
            id in after && after[id].status == if job == id && s.db.jobs[id].status == DONE then EXPIRED else s.db.jobs[id].status
  {
  }

  predicate MovesJobs(e: Event) {
    FailureEvent(e) || e.ApplyResult? || e.CreateJob? || e.FinishDispatch? || e.Expire?
  }

  lemma QuietEvents(s: State, e: Event)
    requires !MovesJobs(e) || (e.ApplyResult? && e.result !in s.results)
    ensures Exec(s, e).db.jobs == s.db.jobs
  {
    hide Exec, PlanBatches, Plannable, IssueSingle, DoLoseCommit;
    if WorkerEvent(e) {
      WorkerLeavesDatabase(s, e);
    } else if e.GenerateSingle? {
      SingleKeepsJobs(s, e);
    } else {
      Dispatched(s, e);
      if e.ApplyResultButLoseCommit? {
        LostCommitKeepsJobs(s, e.result);
      }
    }
  }

  lemma LostCommitKeepsJobs(s: State, r: Result)
    ensures DoLoseCommit(s, r).db == s.db
  {
    hide ApplyBatchDone;
  }

  lemma CreatedStatuses(s: State, e: Event, id: JobId)
    requires e.CreateJob?
    ensures id in s.db.jobs ==> id in Exec(s, e).db.jobs && Exec(s, e).db.jobs[id].status == s.db.jobs[id].status
    ensures id !in s.db.jobs && id in Exec(s, e).db.jobs ==> Exec(s, e).db.jobs[id].status == PREPARING
  {
    hide Exec, Reserve, Plannable, OldFiles, NewFiles;
    Dispatched(s, e);
    if e.job !in s.db.jobs && Reserve(s.db, e.job, e.key, e.groups, |e.rerendered|).Accepted? {
      ReservedJob(s.db, e.job, e.key, e.groups, |e.rerendered|);
    }
  }

  lemma SingleKeepsJobs(s: State, e: Event)
    requires e.GenerateSingle?
    ensures Exec(s, e).db.jobs == s.db.jobs
  {
    hide Exec, Plannable, IssuedDocuments, LinkTargets, Linkable;
    Dispatched(s, e);
  }

  // ---------- over runs ----------

  // A job that assembles, or has, was asked its ZIP at some moment of the run.
  lemma {:induction false} AssemblingWasAsked(events: seq<Event>, id: JobId) returns (i: nat)
    requires id in Run(INITIAL, events).db.jobs && Run(INITIAL, events).db.jobs[id].status in {ASSEMBLING, DONE, EXPIRED}
    ensures i < |events| && AsksForZip(Run(INITIAL, events[..i]), events[i], id) && events[i].ApplyResult?
    ensures var zip := AssembleZip(id, Run(INITIAL, events).db.jobs[id].total);
            Run(INITIAL, events[..i + 1]).work[zip] == Run(INITIAL, events[..i]).work[zip] + 1
  {
    hide Exec, Waits, WaitsOnlyFor, DbInv;
    var n := |events| - 1;
    var before := Run(INITIAL, events[..n]);
    ReachableDbInv(events[..n]);
    if id in before.db.jobs && before.db.jobs[id].status in {ASSEMBLING, DONE, EXPIRED} {
      i := AssemblingWasAsked(events[..n], id);
      assert events[..n][..i] == events[..i] && events[..n][..i + 1] == events[..i + 1];
      ExecClimbs(before, events[n], id);
    } else {
      i := n;
      if id in before.db.jobs {
        StatusMovesExactly(before, events[n], id);
        ExecClimbs(before, events[n], id);
      } else {
        NewJobsPrepare(before, events[n], id);
      }
      OnlyLastResultsAsk(before, events[n], id, Run(INITIAL, events).db.jobs[id].total);
      assert events[..n + 1] == events;
    }
  }

  lemma ReachableDbInv(events: seq<Event>)
    ensures DbInv(Run(INITIAL, events).db)
  {
    hide Run, DbInv;
    InitialInv();
    RunKeepsInv(INITIAL, events);
  }

  lemma NewJobsPrepare(s: State, e: Event, id: JobId)
    requires id !in s.db.jobs && id in Exec(s, e).db.jobs
    ensures Exec(s, e).db.jobs[id].status == PREPARING
  {
    hide Exec, PlanBatches, DoApplyResult, Revert;
    if e.CreateJob? {
      CreatedStatuses(s, e, id);
    } else if MovesJobs(e) {
      Dispatched(s, e);
      MoversKeepJobs(s, e);
    } else {
      QuietEvents(s, e);
    }
  }

  lemma MoversKeepJobs(s: State, e: Event)
    requires MovesJobs(e) && !e.CreateJob?
    ensures Exec(s, e).db.jobs.Keys == s.db.jobs.Keys
  {
    hide Exec, PlanBatches, DoApplyResult, CountersAfterRevert, UnlinkAll, DocumentsWithout;
    Dispatched(s, e);
    if e.ApplyResult? {
      ResultsKeepJobs(s, e.result);
    }
  }

  lemma ResultsKeepJobs(s: State, r: Result)
    ensures DoApplyResult(s, r).db.jobs.Keys == s.db.jobs.Keys
  {
    hide CountersAfterRevert, UnlinkAll, DocumentsWithout, MarkBatch;
  }
}
