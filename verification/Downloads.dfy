/** What the ZIPs of finished jobs hold, and what a revert gives back, over whole runs. */
module Downloads {
  import opened Numbering
  import opened Batching
  import opened Protocol
  import opened DatabaseInvariant
  import opened SystemInvariant
  import opened SystemSteps
  import opened Runs

  // ---------- ZIP integrity ----------

  // The download endpoint serves result.zip of a job that is DONE.
  predicate Downloadable(s: State, id: JobId) {
    id in s.db.jobs && s.db.jobs[id].status == DONE && ZipPath(id) in s.blobs
  }

  function ZipEntries(s: State, id: JobId): map<string, PlannedFile> {
    if ZipPath(id) in s.blobs && s.blobs[ZipPath(id)].Zip? then s.blobs[ZipPath(id)].entries else map[]
  }

  // Every DONE job has its ZIP, with exactly totalDocuments entries: one per planned document, under
  // pairwise distinct names, each name printing its document's own number.
  lemma ZipOfDoneJobIsComplete(events: seq<Event>, id: JobId)
    ensures var s := Run(INITIAL, events);
            id in s.db.jobs && s.db.jobs[id].status == DONE ==>
              && Downloadable(s, id)
              && id in s.plans
              && |ZipEntries(s, id)| == s.db.jobs[id].total == |s.plans[id].files|
              && (forall f :: f in s.plans[id].files ==> f.fileName in ZipEntries(s, id) && ZipEntries(s, id)[f.fileName] == f)
              && (forall n :: n in ZipEntries(s, id) ==>
                    ZipEntries(s, id)[n].document in s.db.documents && ZipEntries(s, id)[n] == FileOf(s.db, ZipEntries(s, id)[n].document, s.plans[id].prefix))
  {
    hide Run;
    InitialInv();
    RunKeepsInv(INITIAL, events);
    var s := Run(INITIAL, events);
    if id in s.db.jobs && s.db.jobs[id].status == DONE {
      DoneJobHasFullZip(s, id);
    }
  }

  lemma DoneJobHasFullZip(s: State, id: JobId)
    requires Inv(s) && id in s.db.jobs && s.db.jobs[id].status == DONE
    ensures Downloadable(s, id) && id in s.plans && s.plans[id].batchSize > 0
    ensures |ZipEntries(s, id)| == s.db.jobs[id].total == |s.plans[id].files|
    ensures forall f :: f in s.plans[id].files ==> f.fileName in ZipEntries(s, id) && ZipEntries(s, id)[f.fileName] == f
    ensures forall n :: n in ZipEntries(s, id) ==>
              ZipEntries(s, id)[n] in s.plans[id].files && ZipEntries(s, id)[n].document in s.db.documents
              && ZipEntries(s, id)[n] == FileOf(s.db, ZipEntries(s, id)[n].document, s.plans[id].prefix)
  {
    ZipIsFull(s, id);
    var plan, entries := s.plans[id], ZipEntries(s, id);
    FullZipMatchesPlan(plan, entries);
    forall n | n in entries
      ensures entries[n].document in s.db.documents && entries[n] == FileOf(s.db, entries[n].document, plan.prefix)
    {
      PlannedFileKnown(s, id, entries[n]);
    }
  }

  lemma ZipIsFull(s: State, id: JobId)
    requires Inv(s) && id in s.db.jobs && s.db.jobs[id].status == DONE
    ensures Downloadable(s, id) && id in s.plans && FullZip(s.plans[id], ZipEntries(s, id))
    ensures PlanShape(s.db.jobs[id], s.plans[id])
  {
    hide DbInv, ProgressInv;
    assert ZipPath(id) in s.blobs;
    assert BlobOk(s.plans, ZipPath(id), s.blobs[ZipPath(id)]);
  }

  lemma PlannedFileKnown(s: State, id: JobId, f: PlannedFile)
    requires Inv(s) && id in s.db.jobs && s.db.jobs[id].status != FAILED && id in s.plans && f in s.plans[id].files
    ensures FileKnown(s.db.jobs, s.db.documents, id, f, s.plans[id].prefix)
  {
    hide DbInv, ProgressInv, NetInv, ZipKept;
    assert FilesKnown(s.db.jobs, s.db.documents, id, s.plans[id]);
  }

  lemma FullZipMatchesPlan(plan: Plan, entries: map<string, PlannedFile>)
    requires DistinctNames(plan.files) && FullZip(plan, entries)
    ensures |entries| == |plan.files|
    ensures forall f :: f in plan.files ==> f.fileName in entries && entries[f.fileName] == f
  {
    NamesCount(plan.files);
    assert |entries| == |entries.Keys|;
    forall f | f in plan.files
      ensures f.fileName in entries && entries[f.fileName] == f
    {
      assert f.fileName in Names(plan.files);
      var g := entries[f.fileName];
      assert g in plan.files && g.fileName == f.fileName;
    }
  }

  // ---------- two downloads never disagree about a number ----------

  ghost predicate Permanent(db: Database, d: DocumentId) {
    d in db.documents && Settled(db.jobs, db.documents[d])
  }

  // A document that no active job owns stays as it is, whatever happens.
  lemma ExecKeepsPermanent(s: State, e: Event, d: DocumentId)
    requires Inv(s) && Permanent(s.db, d)
    ensures Permanent(Exec(s, e).db, d) && Exec(s, e).db.documents[d] == s.db.documents[d]
  {
    hide Inv, Exec;
    DbInvOf(s);
    ExecKeepsDocument(s, e, d);
    var owner := s.db.documents[d].job;
    if owner.Some? {
      OwnerKnown(s.db, d);
      ExecClimbs(s, e, owner.value);
    }
  }

  lemma DbInvOf(s: State)
    requires Inv(s)
    ensures DbInv(s.db)
  {
  }

  lemma OwnerKnown(db: Database, d: DocumentId)
    requires DbInv(db) && d in db.documents && db.documents[d].job.Some?
    ensures db.documents[d].job.value in db.jobs
    ensures db.jobs[db.documents[d].job.value].key == db.documents[d].key
  {
  }

  lemma ExecKeepsDocument(s: State, e: Event, d: DocumentId)
    requires DbInv(s.db) && Permanent(s.db, d)
    ensures d in Exec(s, e).db.documents && Exec(s, e).db.documents[d] == s.db.documents[d]
  {
    hide WorkerStep;
    hide BackendStep, WorkerStep, LinksResolve, RangesHeld, OneActiveJob, GapFree;
    assert d in s.db.documents;
    if e.CreateJob? {
      CreateKeepsDocument(s, e, d);
    } else if e.GenerateSingle? {
      SingleKeepsDocument(s, e, d);
    } else if e.FailDispatch? || e.RecoverInterrupted? || e.FailStalled? {
      FailureKeepsDocument(s, e, d);
    } else if e.ApplyResult? {
      ApplyIsBackend(s, e);
      ApplyResultKeepsDocument(s, e.result, d);
    } else if WorkerEvent(e) {
      WorkerLeavesDatabase(s, e);
    } else {
      OthersKeepDocuments(s, e);
    }
  }

  lemma ApplyIsBackend(s: State, e: Event)
    requires e.ApplyResult?
    ensures Exec(s, e) == DoApplyResult(s, e.result)
  {
  }

  lemma CreateKeepsDocument(s: State, e: Event, d: DocumentId)
    requires DbInv(s.db) && d in s.db.documents && e.CreateJob?
    ensures d in Exec(s, e).db.documents && Exec(s, e).db.documents[d] == s.db.documents[d]
  {
    hide Exec, Plannable, LinksResolve, RangesHeld, OneActiveJob, Reserve;
    Dispatched(s, e);
    if DoCreateJob(s, e) != s {
      ReservedJob(s.db, e.job, e.key, e.groups, |e.rerendered|);
    }
  }

  lemma SingleKeepsDocument(s: State, e: Event, d: DocumentId)
    requires DbInv(s.db) && d in s.db.documents && e.GenerateSingle?
    ensures d in Exec(s, e).db.documents && Exec(s, e).db.documents[d] == s.db.documents[d]
  {
    hide Exec, LinksResolve, RangesHeld, OneActiveJob;
    Dispatched(s, e);
    PanelOnlyAddsDocuments(s, e);
  }

  lemma FailureKeepsDocument(s: State, e: Event, d: DocumentId)
    requires Permanent(s.db, d) && (e.FailDispatch? || e.RecoverInterrupted? || e.FailStalled?)
    ensures d in Exec(s, e).db.documents && Exec(s, e).db.documents[d] == s.db.documents[d]
  {
    hide Exec, AllSent, Deletable, Plannable, IssueSingle, CountersAfterRevert, Unlink;
    Dispatched(s, e);
  }

  lemma OthersKeepDocuments(s: State, e: Event)
    requires !WorkerEvent(e) && !e.CreateJob? && !e.GenerateSingle? && !e.ApplyResult?
    requires !e.FailDispatch? && !e.RecoverInterrupted? && !e.FailStalled?
    ensures Exec(s, e).db.documents == s.db.documents
  {
    hide Exec, IssueSingle, Revert, Plannable, AllSent, Deletable, ApplyBatchDone;
    Dispatched(s, e);
  }

  lemma ApplyResultKeepsDocument(s: State, r: Result, d: DocumentId)
    requires DbInv(s.db) && Permanent(s.db, d)
    ensures d in DoApplyResult(s, r).db.documents && DoApplyResult(s, r).db.documents[d] == s.db.documents[d]
  {
    hide LinksResolve, RangesHeld, OneActiveJob, GapFree;
  }

  lemma {:induction false} RunKeepsPermanent(s: State, events: seq<Event>, d: DocumentId)
    requires Inv(s) && Permanent(s.db, d)
    ensures Permanent(Run(s, events).db, d) && Run(s, events).db.documents[d] == s.db.documents[d]
  {
    hide Inv, Permanent, Exec;
    if events != [] {
      var last := |events| - 1;
      RunKeepsPermanent(s, events[..last], d);
      RunKeepsInv(s, events[..last]);
      ExecKeepsPermanent(Run(s, events[..last]), events[last], d);
    }
  }

  // The file stands for the document numbered (year, sequence): its name prints that number.
  predicate Carries(s: State, id: JobId, f: PlannedFile, year: nat, sequence: nat)
    requires id in s.plans
  {
    f.fileName == FileName(s.plans[id].prefix, NumberText(year, sequence))
  }

  lemma DownloadedFileIsPermanent(s: State, id: JobId, name: string, year: nat, sequence: nat)
    requires Inv(s) && Downloadable(s, id) && id in s.plans && name in ZipEntries(s, id) && year > 0 && sequence > 0
    requires Carries(s, id, ZipEntries(s, id)[name], year, sequence)
    ensures var d := ZipEntries(s, id)[name].document;
            && Permanent(s.db, d)
            && s.db.documents[d].key == CounterKey(s.db.jobs[id].key.municipality, year, s.db.jobs[id].key.documentType)
            && s.db.documents[d].sequence == sequence
  {
    hide Inv;
    DoneJobHasFullZip(s, id);
    var f := ZipEntries(s, id)[name];
    PlannedFileKnown(s, id, f);
    DocumentNumberPositive(s, f.document);
    FileNamesDiffer(s.plans[id].prefix, year, sequence, s.db.documents[f.document].key.year, s.db.documents[f.document].sequence);
  }

  lemma DocumentNumberPositive(s: State, d: DocumentId)
    requires Inv(s) && d in s.db.documents
    ensures s.db.documents[d].key.year > 0 && s.db.documents[d].sequence > 0
  {
    hide PlansInv, ProgressInv, NetInv, ZipKept;
  }

  lemma NumberNamesOneDocument(db: Database, d: DocumentId, e: DocumentId)
    requires DbInv(db) && d in db.documents && e in db.documents && SameNumber(db.documents[d], db.documents[e])
    ensures d == e
  {
  }

  // A number in a ZIP downloaded at one moment and the same number in a ZIP downloaded at any later
  // moment stand for the same document, even when a failed job handed it back in between.
  lemma SameNumberSameDocument(
      events: seq<Event>, later: seq<Event>, id1: JobId, name1: string, id2: JobId, name2: string, year: nat, sequence: nat)
    requires var s1, s2 := Run(INITIAL, events), Run(INITIAL, events + later);
             && Downloadable(s1, id1) && Downloadable(s2, id2) && id1 in s1.plans && id2 in s2.plans
             && name1 in ZipEntries(s1, id1) && name2 in ZipEntries(s2, id2) && year > 0 && sequence > 0
             && Carries(s1, id1, ZipEntries(s1, id1)[name1], year, sequence)
             && Carries(s2, id2, ZipEntries(s2, id2)[name2], year, sequence)
             && s1.db.jobs[id1].key.municipality == s2.db.jobs[id2].key.municipality
             && s1.db.jobs[id1].key.documentType == s2.db.jobs[id2].key.documentType
    ensures ZipEntries(Run(INITIAL, events), id1)[name1].document
         == ZipEntries(Run(INITIAL, events + later), id2)[name2].document
  {
    hide Run, Inv, Permanent;
    var s1, s2 := Run(INITIAL, events), Run(INITIAL, events + later);
    assert Inv(s1) && Inv(s2) by {
      assert Inv(INITIAL) by { InitialInv(); }
      RunKeepsInv(INITIAL, events);
      RunKeepsInv(INITIAL, events + later);
    }
    RunConcat(INITIAL, events, later);
    DownloadedFileIsPermanent(s1, id1, name1, year, sequence);
    DownloadedFileIsPermanent(s2, id2, name2, year, sequence);
    var d1, d2 := ZipEntries(s1, id1)[name1].document, ZipEntries(s2, id2)[name2].document;
    RunKeepsPermanent(s1, later, d1);
    PermanentIsDocument(s2.db, d1);
    PermanentIsDocument(s2.db, d2);
    DbInvOf(s2);
    NumberNamesOneDocument(s2.db, d1, d2);
  }

  lemma PermanentIsDocument(db: Database, d: DocumentId)
    requires Permanent(db, d)
    ensures d in db.documents
  {
  }
}
