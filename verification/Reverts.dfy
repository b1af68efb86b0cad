/** A failed job hands back everything it took: counter, documents and links of its municipality are
    what they were before it was created, whatever happened in between. */
module Reverts {
  import opened Numbering
  import opened Batching
  import opened Protocol
  import opened DatabaseInvariant
  import opened SystemInvariant
  import opened SystemSteps
  import opened Runs

  predicate SameLinks(a: Settlement, b: Settlement) {
    a.municipality == b.municipality && a.resolution == b.resolution && a.order == b.order
  }

  // Numbering of one municipality: counters, documents and the links of the settlements of `a`.
  ghost predicate SameCounters(a: Counters, b: Counters, municipality: nat) {
    forall k: CounterKey :: k.municipality == municipality ==> CounterOf(a, k) == CounterOf(b, k)
  }

  ghost predicate SameDocuments(a: Documents, b: Documents, municipality: nat) {
    && (forall d :: d in a && a[d].key.municipality == municipality ==> d in b && b[d] == a[d])
    && (forall d :: d in b && b[d].key.municipality == municipality ==> d in a && a[d] == b[d])
  }

  ghost predicate LinksKept(a: Settlements, b: Settlements, municipality: nat) {
    forall s :: s in a && a[s].municipality == municipality ==> s in b && SameLinks(a[s], b[s])
  }

  ghost predicate SameNumbering(a: Database, b: Database, municipality: nat) {
    && SameCounters(a.counters, b.counters, municipality)
    && SameDocuments(a.documents, b.documents, municipality)
    && LinksKept(a.settlements, b.settlements, municipality)
  }

  // ---------- while a job is active its municipality is frozen ----------

  lemma IssueElsewhereKeepsNumbering(db: Database, key: CounterKey, groups: seq<seq<SettlementId>>, job: Option<JobId>, municipality: nat)
    requires NumbersInRange(db.counters, db.documents, db.nextDocument)
    requires Plannable(db, key, groups, []) && key.municipality != municipality
    ensures SameNumbering(db, Issue(db, key, groups, job), municipality)
  {
    LinkTargetsMeaning(groups, db.nextDocument);
  }

  lemma ReserveElsewhereKeepsNumbering(db: Database, id: JobId, key: CounterKey, groups: seq<seq<SettlementId>>, rerendered: nat, municipality: nat)
    requires DbInv(db) && Plannable(db, key, groups, []) && key.municipality != municipality
    requires Reserve(db, id, key, groups, rerendered).Accepted?
    ensures SameNumbering(db, Reserve(db, id, key, groups, rerendered).value, municipality)
  {
    if groups != [] {
      var next := Reserve(db, id, key, groups, rerendered).value;
      ReserveShape(db, id, key, groups, rerendered);
      NumbersOf(db);
      hide DbInv;
      IssueElsewhereKeepsNumbering(db.(jobs := next.jobs), key, groups, Some(id), municipality);
    }
  }

  lemma RevertElsewhereKeepsNumbering(db: Database, id: JobId, fromStatuses: set<Status>, municipality: nat)
    requires DbInv(db) && fromStatuses <= ACTIVE_STATUSES && id in db.jobs && db.jobs[id].status in fromStatuses
    requires db.jobs[id].key.municipality != municipality
    ensures SameNumbering(db, Revert(db, id, fromStatuses), municipality)
  {
    RevertShape(db, id, fromStatuses);
    OthersDoNotOwn(db, id, municipality);
    hide DbInv;
  }

  // Neither documents nor links of another municipality belong to the job.
  lemma OthersDoNotOwn(db: Database, id: JobId, municipality: nat)
    requires DbInv(db) && id in db.jobs && db.jobs[id].key.municipality != municipality
    ensures forall d :: d in db.documents && db.documents[d].key.municipality == municipality ==> db.documents[d].job != Some(id)
    ensures forall s :: s in db.settlements && db.settlements[s].municipality == municipality ==>
              Unlink(db.settlements[s], db.documents, id) == db.settlements[s]
  {
    forall d | d in db.documents && db.documents[d].key.municipality == municipality
      ensures db.documents[d].job != Some(id)
    {
      assert db.documents[d].job == Some(id) ==> InRange(db.jobs[id], db.documents[d]);
    }
    forall s | s in db.settlements && db.settlements[s].municipality == municipality
      ensures Unlink(db.settlements[s], db.documents, id) == db.settlements[s]
    {
      assert SettlementResolves(db.documents, db.settlements[s]);
    }
  }

  lemma RevertFrozen(db: Database, id: JobId, fromStatuses: set<Status>, active: JobId)
    requires DbInv(db) && fromStatuses <= ACTIVE_STATUSES && active in db.jobs && Active(db.jobs[active].status)
    requires Active(Revert(db, id, fromStatuses).jobs[active].status)
    ensures SameNumbering(db, Revert(db, id, fromStatuses), db.jobs[active].key.municipality)
  {
    if id in db.jobs && db.jobs[id].status in fromStatuses {
      assert id != active;
      assert OneActiveJob(db.jobs);
      RevertElsewhereKeepsNumbering(db, id, fromStatuses, db.jobs[active].key.municipality);
    }
  }

  lemma ExecFrozen(s: State, e: Event, active: JobId)
    requires DbInv(s.db) && active in s.db.jobs && Active(s.db.jobs[active].status)
    requires active in Exec(s, e).db.jobs && Active(Exec(s, e).db.jobs[active].status)
    ensures SameNumbering(s.db, Exec(s, e).db, s.db.jobs[active].key.municipality)
  {
    hide DbInv;
    if e.CreateJob? {
      CreateJobFrozen(s, e, active);
    } else if e.GenerateSingle? {
      SingleFrozen(s, e, active);
    } else if e.FailDispatch? {
      RevertFrozen(s.db, e.job, ACTIVE_STATUSES, active);
    } else if e.RecoverInterrupted? {
      RevertFrozen(s.db, e.job, ACTIVE_STATUSES, active);
    } else if e.FailStalled? {
      RevertFrozen(s.db, e.job, {RUNNING, ASSEMBLING}, active);
    } else if e.ApplyResult? {
      ApplyResultFrozen(s, e.result, active);
    } else {
      OtherEventsFrozen(s, e, s.db.jobs[active].key.municipality);
    }
  }

  lemma CreateJobFrozen(s: State, e: Event, active: JobId)
    requires DbInv(s.db) && e.CreateJob? && active in s.db.jobs && Active(s.db.jobs[active].status)
    ensures SameNumbering(s.db, DoCreateJob(s, e).db, s.db.jobs[active].key.municipality)
  {
    hide DbInv;
    if e.job !in s.db.jobs && e.batchSize != 0 && Plannable(s.db, e.key, e.groups, e.rerendered) {
      if Reserve(s.db, e.job, e.key, e.groups, |e.rerendered|).Accepted? {
        ReserveElsewhereKeepsNumbering(s.db, e.job, e.key, e.groups, |e.rerendered|, s.db.jobs[active].key.municipality);
      }
    }
  }

  lemma SingleFrozen(s: State, e: Event, active: JobId)
    requires DbInv(s.db) && e.GenerateSingle? && active in s.db.jobs && Active(s.db.jobs[active].status)
    ensures SameNumbering(s.db, Exec(s, e).db, s.db.jobs[active].key.municipality)
  {
    hide WorkerStep;
    NumbersOf(s.db);
    hide DbInv;
    if Plannable(s.db, e.key, e.groups, []) && IssueSingle(s.db, e.key, e.groups).Accepted? {
      IssueElsewhereKeepsNumbering(s.db, e.key, e.groups, None, s.db.jobs[active].key.municipality);
    }
  }

  lemma ApplyResultFrozen(s: State, r: Result, active: JobId)
    requires DbInv(s.db) && active in s.db.jobs && Active(s.db.jobs[active].status)
    requires active in DoApplyResult(s, r).db.jobs && Active(DoApplyResult(s, r).db.jobs[active].status)
    ensures SameNumbering(s.db, DoApplyResult(s, r).db, s.db.jobs[active].key.municipality)
  {
    hide DbInv;
    if r in s.results {
      if r.BatchFailed? {
        RevertFrozen(s.db, r.job, {PREPARING, RUNNING}, active);
      } else if r.ZipFailed? {
        RevertFrozen(s.db, r.job, {ASSEMBLING}, active);
      }
    }
  }

  lemma OtherEventsFrozen(s: State, e: Event, municipality: nat)
    requires !e.CreateJob? && !e.GenerateSingle? && !FailureEvent(e) && !e.ApplyResult?
    ensures SameNumbering(s.db, Exec(s, e).db, municipality)
  {
    hide SameNumbering;
    SameNumberingReflexive(s.db, municipality);
    if WorkerEvent(e) {
      WorkerLeavesDatabase(s, e);
    } else {
      CoordinatorLeavesNumbering(s, e);
      SameTablesSameNumbering(s.db, Exec(s, e).db, municipality);
    }
  }

  ghost predicate SameTables(a: Database, b: Database) {
    && b.counters == a.counters && b.documents == a.documents
    && forall i :: i in a.settlements ==> i in b.settlements && SameLinks(a.settlements[i], b.settlements[i])
  }

  lemma DispatchLeavesNumbering(s: State, e: Event)
    requires DispatchEvent(e)
    ensures SameTables(s.db, Exec(s, e).db)
  {
    hide Exec, PlanBatches;
    Dispatched(s, e);
  }

  lemma SettlementEventsLeaveNumbering(s: State, e: Event)
    requires e.AddSettlement? || e.ReplaceSettlement?
    ensures SameTables(s.db, Exec(s, e).db)
  {
    hide Exec, IssueSingle, Revert, Advance, Plannable, Deletable, AllSent;
    Dispatched(s, e);
  }

  lemma CoordinatorLeavesNumbering(s: State, e: Event)
    requires !WorkerEvent(e) && !e.CreateJob? && !e.GenerateSingle? && !FailureEvent(e) && !e.ApplyResult?
    ensures SameTables(s.db, Exec(s, e).db)
  {
    hide Exec, IssueSingle, Revert, Plannable, Deletable;
    Dispatched(s, e);
    if DispatchEvent(e) {
      DispatchLeavesNumbering(s, e);
    } else if e.AddSettlement? || e.ReplaceSettlement? {
      SettlementEventsLeaveNumbering(s, e);
    } else {
      hide AllSent, ApplyBatchDone;
    }
  }

  lemma SameTablesSameNumbering(a: Database, b: Database, municipality: nat)
    requires SameTables(a, b)
    ensures SameNumbering(a, b, municipality)
  {
  }

  lemma SameNumberingTransitive(a: Database, b: Database, c: Database, municipality: nat)
    requires SameNumbering(a, b, municipality) && SameNumbering(b, c, municipality)
    ensures SameNumbering(a, c, municipality)
  {
  }

  lemma SameNumberingReflexive(a: Database, municipality: nat)
    ensures SameNumbering(a, a, municipality)
  {
  }

  lemma {:induction false} RunFrozen(s: State, events: seq<Event>, active: JobId)
    requires Inv(s) && active in s.db.jobs
    requires active in Run(s, events).db.jobs && Active(Run(s, events).db.jobs[active].status)
    ensures SameNumbering(s.db, Run(s, events).db, s.db.jobs[active].key.municipality)
    ensures Run(s, events).db.jobs[active].key == s.db.jobs[active].key
    ensures Run(s, events).db.jobs[active].range == s.db.jobs[active].range
  {
    hide Inv, Exec, SameNumbering;
    if events == [] {
      SameNumberingReflexive(s.db, s.db.jobs[active].key.municipality);
    } else {
      var last := |events| - 1;
      var before := Run(s, events[..last]);
      StatusOnlyClimbs(s, events[..last], active);
      ExecClimbs(before, events[last], active);
      RunFrozen(s, events[..last], active);
      RunKeepsInv(s, events[..last]);
      InvGivesDbInv(before);
      ExecFrozen(before, events[last], active);
      SameNumberingTransitive(s.db, before.db, Run(s, events).db, s.db.jobs[active].key.municipality);
    }
  }

  lemma InvGivesDbInv(s: State)
    requires Inv(s)
    ensures DbInv(s.db)
  {
  }

  // ---------- reserve, anything, revert ----------

  // What one reservation takes, one revert of the same job gives back.
  lemma RevertUndoesReserve(before: Database, frozen: Database, id: JobId, key: CounterKey, groups: seq<seq<SettlementId>>,
      rerendered: nat, fromStatuses: set<Status>)
    requires DbInv(before) && id !in before.jobs && Plannable(before, key, groups, [])
    requires Reserve(before, id, key, groups, rerendered).Accepted?
    requires var reserved := Reserve(before, id, key, groups, rerendered).value;
             && SameNumbering(reserved, frozen, key.municipality)
             && id in frozen.jobs && frozen.jobs[id].key == key && frozen.jobs[id].range == reserved.jobs[id].range
    requires DbInv(frozen) && frozen.jobs[id].status in fromStatuses && fromStatuses <= ACTIVE_STATUSES
    ensures SameNumbering(before, Revert(frozen, id, fromStatuses), key.municipality)
  {
    hide DbInv, Plannable;
    var reserved := Reserve(before, id, key, groups, rerendered).value;
    RevertShape(frozen, id, fromStatuses);
    RevertUndoesCounters(before, reserved, frozen, id, key, groups, rerendered);
    RevertUndoesDocuments(before, reserved, frozen, id, key, groups, rerendered);
    RevertUndoesLinks(before, reserved, frozen, id, key, groups, rerendered);
  }

  lemma RevertUndoesCounters(before: Database, reserved: Database, frozen: Database, id: JobId, key: CounterKey,
      groups: seq<seq<SettlementId>>, rerendered: nat)
    requires Reserve(before, id, key, groups, rerendered) == Accepted(reserved)
    requires SameCounters(reserved.counters, frozen.counters, key.municipality)
    requires id in frozen.jobs && frozen.jobs[id].key == key && frozen.jobs[id].range == reserved.jobs[id].range
    ensures SameCounters(before.counters, CountersWithout(frozen.counters, frozen.jobs[id]), key.municipality)
  {
    forall k: CounterKey | k.municipality == key.municipality
      ensures CounterOf(before.counters, k) == CounterOf(CountersWithout(frozen.counters, frozen.jobs[id]), k)
    {
      assert CounterOf(reserved.counters, k) == CounterOf(frozen.counters, k);
    }
  }

  lemma RevertUndoesDocuments(before: Database, reserved: Database, frozen: Database, id: JobId, key: CounterKey,
      groups: seq<seq<SettlementId>>, rerendered: nat)
    requires DbInv(before) && id !in before.jobs && Reserve(before, id, key, groups, rerendered) == Accepted(reserved)
    requires SameDocuments(reserved.documents, frozen.documents, key.municipality)
    ensures SameDocuments(before.documents, DocumentsWithout(frozen.documents, id), key.municipality)
  {
    ReservedJob(before, id, key, groups, rerendered);
    OldDocumentsStay(before, reserved, id, key, |groups|);
    hide DbInv, Reserve;
  }

  lemma OldDocumentsStay(before: Database, reserved: Database, id: JobId, key: CounterKey, n: nat)
    requires DbInv(before) && id !in before.jobs
    requires reserved.documents == before.documents + IssuedDocuments(key, Counter(before, key), before.nextDocument, n, Some(id))
    ensures forall d :: d in before.documents ==>
              d in reserved.documents && reserved.documents[d] == before.documents[d] && before.documents[d].job != Some(id)
    ensures forall d :: d in reserved.documents && reserved.documents[d].job != Some(id) ==> d in before.documents
  {
  }

  lemma RevertUndoesLinks(before: Database, reserved: Database, frozen: Database, id: JobId, key: CounterKey,
      groups: seq<seq<SettlementId>>, rerendered: nat)
    requires DbInv(before) && id !in before.jobs && Plannable(before, key, groups, [])
    requires Reserve(before, id, key, groups, rerendered) == Accepted(reserved)
    requires SameDocuments(reserved.documents, frozen.documents, key.municipality)
    requires LinksKept(reserved.settlements, frozen.settlements, key.municipality)
    ensures LinksKept(before.settlements, map s | s in frozen.settlements :: Unlink(frozen.settlements[s], frozen.documents, id), key.municipality)
  {
    ReservedJob(before, id, key, groups, rerendered);
    OldDocumentsStay(before, reserved, id, key, |groups|);
    var after := map s | s in frozen.settlements :: Unlink(frozen.settlements[s], frozen.documents, id);
    forall s | s in before.settlements && before.settlements[s].municipality == key.municipality
      ensures s in after && SameLinks(before.settlements[s], after[s])
    {
      ReservedLink(before, reserved, id, key, groups, rerendered, s);
      LinkAfterRevert(before, reserved.documents, frozen.documents, id, key.municipality,
        before.settlements[s], reserved.settlements[s], frozen.settlements[s]);
    }
  }

  // A reserved settlement had no link of the kind and got one to a document of the job.
  lemma ReservedLink(before: Database, reserved: Database, id: JobId, key: CounterKey, groups: seq<seq<SettlementId>>, rerendered: nat, s: SettlementId)
    requires DbInv(before) && Plannable(before, key, groups, []) && s in before.settlements
    requires Reserve(before, id, key, groups, rerendered) == Accepted(reserved)
    ensures s in reserved.settlements && reserved.settlements[s].municipality == before.settlements[s].municipality
    ensures SettlementResolves(before.documents, before.settlements[s])
    ensures || reserved.settlements[s] == before.settlements[s]
            || exists d :: d in reserved.documents && reserved.documents[d].job == Some(id) && reserved.documents[d].key == key
                 && Link(before.settlements[s], key.documentType) == None
                 && reserved.settlements[s] == WithLink(before.settlements[s], key.documentType, Some(d))
  {
    if groups != [] {
      ReserveShape(before, id, key, groups, rerendered);
      LinkTargetsMeaning(groups, before.nextDocument);
      var targets := LinkTargets(groups, before.nextDocument);
      if s in targets {
        assert s in Flatten(groups);
        var d := targets[s];
        assert d in reserved.documents && reserved.documents[d].job == Some(id) && reserved.documents[d].key == key;
      }
    }
  }

  lemma LinkAfterRevert(before: Database, reserved: Documents, frozen: Documents, id: JobId, municipality: nat,
      s0: Settlement, s1: Settlement, s2: Settlement)
    requires SettlementResolves(before.documents, s0) && s0.municipality == municipality && SameLinks(s1, s2)
    requires SameDocuments(reserved, frozen, municipality)
    requires forall d :: d in before.documents ==> d in reserved && reserved[d] == before.documents[d] && before.documents[d].job != Some(id)
    requires || s1 == s0
             || exists d, kind :: d in reserved && reserved[d].job == Some(id) && reserved[d].key.municipality == municipality
                  && Link(s0, kind) == None && s1 == WithLink(s0, kind, Some(d))
    ensures SameLinks(s0, Unlink(s2, frozen, id))
  {
  }

  // From any reachable state: create a job, let anything happen while it stays active, and fail it.
  lemma FailedJobLeavesNoTrace(events: seq<Event>, creation: Event, meanwhile: seq<Event>, failure: Event)
    requires creation.CreateJob? && creation.job !in Run(INITIAL, events).db.jobs
    requires var s0 := Run(INITIAL, events);
             var s2 := Run(Exec(s0, creation), meanwhile);
             && creation.job in Exec(s0, creation).db.jobs
             && creation.job in s2.db.jobs && Active(s2.db.jobs[creation.job].status)
             && creation.job in Exec(s2, failure).db.jobs && Exec(s2, failure).db.jobs[creation.job].status == FAILED
    ensures var s0 := Run(INITIAL, events);
            SameNumbering(s0.db, Exec(Run(Exec(s0, creation), meanwhile), failure).db, creation.key.municipality)
  {
    hide Run, Inv, Exec, SameNumbering, Revert;
    InitialInv();
    RunKeepsInv(INITIAL, events);
    var s0 := Run(INITIAL, events);
    var s1 := Exec(s0, creation);
    ExecKeepsInv(s0, creation);
    var s2 := Run(s1, meanwhile);
    RunKeepsInv(s1, meanwhile);
    RunFrozen(s1, meanwhile, creation.job);
    InvGivesDbInv(s0);
    InvGivesDbInv(s2);
    CreationReserves(s0, creation);
    var fromStatuses := FailureIsRevert(s2, failure, creation.job);
    RevertUndoesReserve(s0.db, s2.db, creation.job, creation.key, creation.groups, |creation.rerendered|, fromStatuses);
  }

  lemma CreationReserves(s: State, e: Event)
    requires e.CreateJob? && e.job !in s.db.jobs && e.job in Exec(s, e).db.jobs
    ensures Plannable(s.db, e.key, e.groups, [])
    ensures Reserve(s.db, e.job, e.key, e.groups, |e.rerendered|) == Accepted(Exec(s, e).db)
    ensures Exec(s, e).db.jobs[e.job].key == e.key
  {
    hide Exec;
    Dispatched(s, e);
  }

  // The only way a job becomes FAILED is its own revert.
  lemma FailureIsRevert(s: State, e: Event, id: JobId) returns (fromStatuses: set<Status>)
    requires id in s.db.jobs && Active(s.db.jobs[id].status)
    requires id in Exec(s, e).db.jobs && Exec(s, e).db.jobs[id].status == FAILED
    ensures fromStatuses <= ACTIVE_STATUSES && s.db.jobs[id].status in fromStatuses
    ensures Exec(s, e).db == Revert(s.db, id, fromStatuses)
  {
    hide Revert;
    if FailureEvent(e) {
      fromStatuses := if e.FailStalled? then {RUNNING, ASSEMBLING} else ACTIVE_STATUSES;
      OnlyItsOwnRevertFails(s.db, e.job, fromStatuses, id);
    } else if e.ApplyResult? {
      fromStatuses := if e.result.ZipFailed? then {ASSEMBLING} else {PREPARING, RUNNING};
      ApplyResultFailure(s, e.result, id, fromStatuses);
    } else {
      OtherEventsDoNotFail(s, e, id);
      fromStatuses := {};
    }
  }

  lemma OnlyItsOwnRevertFails(db: Database, reverted: JobId, fromStatuses: set<Status>, id: JobId)
    requires id in db.jobs && Active(db.jobs[id].status)
    requires id in Revert(db, reverted, fromStatuses).jobs && Revert(db, reverted, fromStatuses).jobs[id].status == FAILED
    ensures id == reverted && db.jobs[id].status in fromStatuses
  {
  }

  lemma ApplyResultFailure(s: State, r: Result, id: JobId, fromStatuses: set<Status>)
    requires id in s.db.jobs && Active(s.db.jobs[id].status)
    requires id in DoApplyResult(s, r).db.jobs && DoApplyResult(s, r).db.jobs[id].status == FAILED
    requires fromStatuses == if r.ZipFailed? then {ASSEMBLING} else {PREPARING, RUNNING}
    ensures s.db.jobs[id].status in fromStatuses && DoApplyResult(s, r).db == Revert(s.db, id, fromStatuses)
  {
    hide Revert;
    if r.BatchFailed? || r.ZipFailed? {
      OnlyItsOwnRevertFails(s.db, r.job, fromStatuses, id);
    }
  }

  lemma OtherEventsDoNotFail(s: State, e: Event, id: JobId)
    requires id in s.db.jobs && Active(s.db.jobs[id].status) && !FailureEvent(e) && !e.ApplyResult?
    ensures id in Exec(s, e).db.jobs ==> Exec(s, e).db.jobs[id].status != FAILED
  {
    hide Exec, PlanBatches, ApplyBatchDone, Reserve, Issue, Plannable;
    Dispatched(s, e);
    if e.CreateJob? {
      if Exec(s, e) != s {
        ReservedJob(s.db, e.job, e.key, e.groups, |e.rerendered|);
      }
    } else if e.GenerateSingle? {
      SingleLeavesJobs(s, e);
    } else if WorkerEvent(e) {
      WorkerLeavesDatabase(s, e);
    }
  }

  lemma SingleLeavesJobs(s: State, e: Event)
    requires e.GenerateSingle?
    ensures Exec(s, e).db.jobs == s.db.jobs
  {
    hide WorkerStep;
  }
}
