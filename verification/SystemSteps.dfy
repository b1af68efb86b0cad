/** Every event keeps the invariant of the whole system. */
module SystemSteps {
  import opened Numbering
  import opened Batching
  import opened Protocol
  import opened DatabaseInvariant
  import opened SystemInvariant

  // ---------- files of a new job ----------

  lemma NewFilesKnown(db: Database, next: Database, id: JobId, key: CounterKey, n: nat, prefix: string)
    requires id in next.jobs && next.jobs[id].key == key
    requires next.documents == db.documents + IssuedDocuments(key, Counter(db, key), db.nextDocument, n, Some(id))
    ensures var files := NewFiles(key, Counter(db, key), db.nextDocument, n, prefix);
            forall i :: 0 <= i < |files| ==> FileKnown(next.jobs, next.documents, id, files[i], prefix)
  {
  }

  lemma OldFilesKnown(db: Database, jobs: Jobs, documents: Documents, id: JobId, key: CounterKey, rerendered: seq<DocumentId>, prefix: string)
    requires DbInv(db) && Plannable(db, key, [], rerendered)
    requires id in jobs && jobs[id].key == key && id !in db.jobs && jobs == db.jobs[id := jobs[id]]
    requires !HasActiveJob(db, key.municipality)
    requires forall d :: d in db.documents ==> d in documents && documents[d] == db.documents[d]
    ensures var files := OldFiles(db, rerendered, prefix);
            forall i :: 0 <= i < |files| ==> FileKnown(jobs, documents, id, files[i], prefix)
  {
    var files := OldFiles(db, rerendered, prefix);
    forall i | 0 <= i < |files|
      ensures FileKnown(jobs, documents, id, files[i], prefix)
    {
      var d := rerendered[i];
      assert d in rerendered && files[i] == FileOf(db, d, prefix);
      if db.documents[d].job.Some? {
        assert InRange(db.jobs[db.documents[d].job.value], db.documents[d]);
      }
    }
  }

  // Names differ: new sequences are past the counter, old documents have distinct numbers.
  lemma JobNamesDistinct(db: Database, key: CounterKey, rerendered: seq<DocumentId>, n: nat, prefix: string)
    requires DbInv(db) && Plannable(db, key, [], rerendered)
    ensures DistinctNames(NewFiles(key, Counter(db, key), db.nextDocument, n, prefix) + OldFiles(db, rerendered, prefix))
  {
    var counter := Counter(db, key);
    var fresh', old' := NewFiles(key, counter, db.nextDocument, n, prefix), OldFiles(db, rerendered, prefix);
    var files := fresh' + old';
    forall i, k | 0 <= i < k < |files|
      ensures files[i].fileName != files[k].fileName
    {
      if k < n {
        FileNamesDiffer(prefix, key.year, counter + 1 + i, key.year, counter + 1 + k);
      } else {
        var e := rerendered[k - n];
        assert e in rerendered && files[k] == FileOf(db, e, prefix);
        if i < n {
          FileNamesDiffer(prefix, key.year, counter + 1 + i, db.documents[e].key.year, db.documents[e].sequence);
          assert db.documents[e].key.year == key.year ==> db.documents[e].key == key;
        } else {
          var d := rerendered[i - n];
          assert d in rerendered && files[i] == FileOf(db, d, prefix);
          FileNamesDiffer(prefix, db.documents[d].key.year, db.documents[d].sequence, db.documents[e].key.year, db.documents[e].sequence);
        }
      }
    }
  }

  // ---------- frame of the plans ----------

  predicate JobMovesOn(before: Job, after: Job) {
    && after.key == before.key && after.total == before.total
    && (Active(after.status) ==> Active(before.status))
    && (after.status != FAILED ==> before.status != FAILED)
  }

  lemma FilesStayKnown(jobs: Jobs, documents: Documents, jobs': Jobs, documents': Documents, id: JobId, plan: Plan)
    requires id in jobs && FilesKnown(jobs, documents, id, plan)
    requires jobs'.Keys == jobs.Keys && forall j :: j in jobs ==> JobMovesOn(jobs[j], jobs'[j])
    requires forall f :: f in plan.files && f.document in documents ==>
               f.document in documents' && documents'[f.document] == documents[f.document]
    ensures FilesKnown(jobs', documents', id, plan)
  {
    forall i | 0 <= i < |plan.files|
      ensures FileKnown(jobs', documents', id, plan.files[i], plan.prefix)
    {
      var f := plan.files[i];
      assert f in plan.files && FileKnown(jobs, documents, id, f, plan.prefix);
      var owner := documents[f.document].job;
      assert owner.Some? && owner.value in jobs ==> JobMovesOn(jobs[owner.value], jobs'[owner.value]);
    }
  }

  lemma PlansInvFrame(jobs: Jobs, documents: Documents, jobs': Jobs, documents': Documents, plans: Plans)
    requires PlansInv(jobs, documents, plans)
    requires jobs'.Keys == jobs.Keys && forall j :: j in jobs ==> JobMovesOn(jobs[j], jobs'[j])
    requires forall j, f :: j in plans && jobs'[j].status != FAILED && f in plans[j].files && f.document in documents ==>
               f.document in documents' && documents'[f.document] == documents[f.document]
    ensures PlansInv(jobs', documents', plans)
  {
    forall j | j in plans
      ensures PlanShape(jobs'[j], plans[j])
      ensures jobs'[j].status != FAILED ==> FilesKnown(jobs', documents', j, plans[j])
    {
      assert PlanShape(jobs[j], plans[j]) && JobMovesOn(jobs[j], jobs'[j]);
      if jobs'[j].status != FAILED {
        FilesStayKnown(jobs, documents, jobs', documents', j, plans[j]);
      }
    }
  }

  lemma PlansInvUpdate(jobs: Jobs, documents: Documents, plans: Plans, id: JobId, plan: Plan)
    requires PlansInv(jobs, documents, plans) && id in plans && PlanGrows(plans[id], plan)
    requires forall b :: b in plan.uploaded ==> plan.rowsCreated && b < |PlanBatches(plan)|
    ensures PlansInv(jobs, documents, plans[id := plan])
  {
    forall j | j in plans && jobs[j].status != FAILED
      ensures FilesKnown(jobs, documents, j, plans[id := plan][j])
    {
      assert FilesKnown(jobs, documents, j, plans[j]);
    }
  }

  // ---------- creating a job ----------

  lemma ReservedJob(db: Database, id: JobId, key: CounterKey, groups: seq<seq<SettlementId>>, rerendered: nat)
    requires id !in db.jobs && Reserve(db, id, key, groups, rerendered).Accepted?
    ensures var next := Reserve(db, id, key, groups, rerendered).value;
            && !HasActiveJob(db, key.municipality)
            && id in next.jobs && next.jobs == db.jobs[id := next.jobs[id]]
            && next.jobs[id].key == key && next.jobs[id].status == PREPARING
            && next.jobs[id].total == |groups| + rerendered > 0 && next.jobs[id].completed == 0
            && next.batches == db.batches
            && next.documents == db.documents + IssuedDocuments(key, Counter(db, key), db.nextDocument, |groups|, Some(id))
  {
  }

  lemma CreateJobKeepsPlans(s: State, e: Event)
    requires Inv(s) && e.CreateJob? && e.job !in s.db.jobs && e.batchSize > 0 && Plannable(s.db, e.key, e.groups, e.rerendered)
    requires Reserve(s.db, e.job, e.key, e.groups, |e.rerendered|).Accepted?
    ensures var next := DoCreateJob(s, e); PlansInv(next.db.jobs, next.db.documents, next.plans)
  {
    hide WorkerStep;
    var next := DoCreateJob(s, e);
    ReservedJob(s.db, e.job, e.key, e.groups, |e.rerendered|);
    NewFilesKnown(s.db, next.db, e.job, e.key, |e.groups|, e.prefix);
    assert forall d :: d in s.db.documents ==> d in next.db.documents && next.db.documents[d] == s.db.documents[d];
    OldFilesKnown(s.db, next.db.jobs, next.db.documents, e.job, e.key, e.rerendered, e.prefix);
    JobNamesDistinct(s.db, e.key, e.rerendered, |e.groups|, e.prefix);
    CreateJobPlans(s, next, e.job);
  }

  lemma CreateJobPlans(s: State, next: State, id: JobId)
    requires PlansInv(s.db.jobs, s.db.documents, s.plans)
    requires id in next.db.jobs && id in next.plans && id !in s.db.jobs && next.plans == s.plans[id := next.plans[id]]
    requires next.db.jobs == s.db.jobs[id := next.db.jobs[id]]
    requires forall j :: j in s.db.jobs && Active(s.db.jobs[j].status) ==> s.db.jobs[j].key.municipality != next.db.jobs[id].key.municipality
    requires forall d :: d in s.db.documents ==> d in next.db.documents && next.db.documents[d] == s.db.documents[d]
    requires forall d :: d in s.db.documents && s.db.documents[d].job.Some? ==> s.db.documents[d].job.value in s.db.jobs
    requires PlanShape(next.db.jobs[id], next.plans[id]) && FilesKnown(next.db.jobs, next.db.documents, id, next.plans[id])
    ensures PlansInv(next.db.jobs, next.db.documents, next.plans)
  {
    forall j | j in next.plans && next.db.jobs[j].status != FAILED
      ensures FilesKnown(next.db.jobs, next.db.documents, j, next.plans[j])
    {
      if j != id {
        forall i | 0 <= i < |s.plans[j].files|
          ensures FileKnown(next.db.jobs, next.db.documents, j, s.plans[j].files[i], s.plans[j].prefix)
        {
          assert FilesKnown(s.db.jobs, s.db.documents, j, s.plans[j]);
          assert FileKnown(s.db.jobs, s.db.documents, j, s.plans[j].files[i], s.plans[j].prefix);
        }
      }
    }
  }

  // ---------- database events on plans and progress ----------

  lemma RevertKeepsPlans(db: Database, plans: Plans, id: JobId, fromStatuses: set<Status>)
    requires DbInv(db) && PlansInv(db.jobs, db.documents, plans) && fromStatuses <= ACTIVE_STATUSES
    ensures var next := Revert(db, id, fromStatuses); PlansInv(next.jobs, next.documents, plans)
  {
    if id in db.jobs && db.jobs[id].status in fromStatuses {
      var next := Revert(db, id, fromStatuses);
      forall j, f | j in plans && next.jobs[j].status != FAILED && f in plans[j].files && f.document in db.documents
        ensures f.document in next.documents && next.documents[f.document] == db.documents[f.document]
      {
        assert FilesKnown(db.jobs, db.documents, j, plans[j]);
        assert FileKnown(db.jobs, db.documents, j, f, plans[j].prefix);
      }
      PlansInvFrame(db.jobs, db.documents, next.jobs, next.documents, plans);
    }
  }

  lemma RevertKeepsProgress(db: Database, plans: Plans, id: JobId, fromStatuses: set<Status>)
    requires ProgressInv(db.jobs, db.batches, plans)
    ensures var next := Revert(db, id, fromStatuses); ProgressInv(next.jobs, next.batches, plans)
  {
    if id in db.jobs && db.jobs[id].status in fromStatuses {
      var next := Revert(db, id, fromStatuses);
      forall j | j in next.jobs && j in plans
        ensures Progress(next.jobs[j], plans[j], j in next.batches, RowsIn(next.batches, j))
      {
        assert Progress(db.jobs[j], plans[j], j in db.batches, RowsIn(db.batches, j));
      }
    }
  }

  predicate Forward(from: Status, to: Status) {
    (from == PREPARING && to == RUNNING) || (from == ASSEMBLING && to == DONE) || (from == DONE && to == EXPIRED)
  }

  lemma AdvanceKeepsPlans(db: Database, plans: Plans, id: JobId, from: Status, to: Status)
    requires PlansInv(db.jobs, db.documents, plans) && Forward(from, to)
    ensures var next := Advance(db, id, from, to); PlansInv(next.jobs, next.documents, plans)
  {
    var next := Advance(db, id, from, to);
    PlansInvFrame(db.jobs, db.documents, next.jobs, next.documents, plans);
  }

  lemma AdvanceKeepsProgress(db: Database, plans: Plans, id: JobId, from: Status, to: Status)
    requires ProgressInv(db.jobs, db.batches, plans) && Forward(from, to)
    requires from == PREPARING && id in plans ==> plans[id].rowsCreated
    ensures var next := Advance(db, id, from, to); ProgressInv(next.jobs, next.batches, plans)
  {
    var next := Advance(db, id, from, to);
    forall j | j in next.jobs && j in plans
      ensures Progress(next.jobs[j], plans[j], j in next.batches, RowsIn(next.batches, j))
    {
      assert Progress(db.jobs[j], plans[j], j in db.batches, RowsIn(db.batches, j));
    }
  }

  // A batch result changes at most the row and the counts of its own job.
  lemma BatchDoneShape(db: Database, r: Result)
    requires r.BatchDone?
    ensures var next := ApplyBatchDone(db, r.job, r.batchIndex, r.documentCount, r.attempt).0;
            && next.documents == db.documents && next.jobs.Keys == db.jobs.Keys && next.batches.Keys == db.batches.Keys
            && (forall j :: j in db.jobs && j != r.job ==> next.jobs[j] == db.jobs[j])
            && (forall j :: j in db.batches && j != r.job ==> next.batches[j] == db.batches[j])
            && (r.job in db.jobs ==> next.jobs[r.job] == db.jobs[r.job].(status := next.jobs[r.job].status, completed := next.jobs[r.job].completed))
            && (r.job in db.jobs && !BatchPhase(db.jobs[r.job].status) ==> next.jobs[r.job] == db.jobs[r.job])
  {
  }

  lemma BatchDoneKeepsPlansAndProgress(db: Database, plans: Plans, r: Result)
    requires PlansInv(db.jobs, db.documents, plans) && ProgressInv(db.jobs, db.batches, plans)
    requires r.BatchDone? && ResultOk(plans, r)
    ensures var next := ApplyBatchDone(db, r.job, r.batchIndex, r.documentCount, r.attempt).0;
            PlansInv(next.jobs, next.documents, plans) && ProgressInv(next.jobs, next.batches, plans)
  {
    hide DoneSum, PlanBatches, FileKnown, MarkBatch;
    BatchDoneShape(db, r);
    var next := ApplyBatchDone(db, r.job, r.batchIndex, r.documentCount, r.attempt).0;
    PlansInvFrame(db.jobs, db.documents, next.jobs, next.documents, plans);
    forall j | j in next.jobs && j in plans
      ensures Progress(next.jobs[j], plans[j], j in next.batches, RowsIn(next.batches, j))
    {
      assert Progress(db.jobs[j], plans[j], j in db.batches, RowsIn(db.batches, j));
      assert PlanShape(db.jobs[j], plans[j]);
      if j == r.job && j in db.batches && Active(db.jobs[j].status) {
        MarkKeepsProgress(db.jobs[j], plans[j], db.batches[j], r.batchIndex, r.documentCount, r.attempt);
      }
    }
  }

  lemma CreateRowsKeepsPlans(s: State, id: JobId)
    requires PlansInv(s.db.jobs, s.db.documents, s.plans)
    ensures var next := DoCreateRows(s, id); PlansInv(next.db.jobs, next.db.documents, next.plans)
  {
    if id in s.plans && !s.plans[id].rowsCreated {
      assert PlanShape(s.db.jobs[id], s.plans[id]);
      PlansInvUpdate(s.db.jobs, s.db.documents, s.plans, id, s.plans[id].(rowsCreated := true));
    }
  }

  lemma FreshRowsStartProgress(job: Job, plan: Plan)
    requires PlanShape(job, plan) && Progress(job, plan, false, []) && !plan.rowsCreated
    ensures Progress(job, plan.(rowsCreated := true), true, FreshRows(Lengths(PlanBatches(plan))))
  {
    var counts := Lengths(PlanBatches(plan));
    DoneSumOfFresh(counts);
    BatchesReachEnd(plan.files, plan.batchSize);
    assert PlanBatches(plan.(rowsCreated := true)) == PlanBatches(plan);
    assert !FreshRows(counts)[0].done;
  }

  lemma CreateRowsKeepsProgress(s: State, id: JobId)
    requires PlansInv(s.db.jobs, s.db.documents, s.plans) && ProgressInv(s.db.jobs, s.db.batches, s.plans)
    ensures var next := DoCreateRows(s, id); ProgressInv(next.db.jobs, next.db.batches, next.plans)
  {
    var next := DoCreateRows(s, id);
    if id in s.plans && !s.plans[id].rowsCreated {
      assert PlanShape(s.db.jobs[id], s.plans[id]);
      forall j | j in next.db.jobs && j in next.plans
        ensures Progress(next.db.jobs[j], next.plans[j], j in next.db.batches, RowsIn(next.db.batches, j))
      {
        assert Progress(s.db.jobs[j], s.plans[j], j in s.db.batches, RowsIn(s.db.batches, j));
        if j == id && Active(s.db.jobs[j].status) {
          FreshRowsStartProgress(s.db.jobs[j], s.plans[j]);
        }
      }
    }
  }

  ghost predicate PlansAndProgress(s: State) {
    PlansInv(s.db.jobs, s.db.documents, s.plans) && ProgressInv(s.db.jobs, s.db.batches, s.plans)
  }

  lemma CreateJobKeepsPlansAndProgress(s: State, e: Event)
    requires Inv(s) && e.CreateJob?
    ensures PlansAndProgress(DoCreateJob(s, e))
  {
    var next := DoCreateJob(s, e);
    if next != s {
      CreateJobKeepsPlans(s, e);
      ReservedJob(s.db, e.job, e.key, e.groups, |e.rerendered|);
      forall j | j in next.db.jobs && j in next.plans
        ensures Progress(next.db.jobs[j], next.plans[j], j in next.db.batches, RowsIn(next.db.batches, j))
      {
        if j != e.job {
          assert Progress(s.db.jobs[j], s.plans[j], j in s.db.batches, RowsIn(s.db.batches, j));
        }
      }
    }
  }

  // ---------- the worker ----------

  ghost predicate Net(s: State) {
    NetInv(s.plans, s.work, s.results, s.blobs, s.tasks)
  }

  lemma SetTask(s: State, id: TaskId, task: Task)
    requires Net(s) && TaskOk(s.plans, task)
    ensures Net(s.(tasks := s.tasks[id := task]))
  {
  }

  lemma PublishResult(s: State, id: TaskId, task: Task, result: Result)
    requires Net(s) && TaskOk(s.plans, task) && ResultOk(s.plans, result)
    ensures Net(s.(tasks := s.tasks[id := task], results := s.results + multiset{result}))
  {
  }

  lemma SetBlob(s: State, id: TaskId, task: Task, path: Path, blob: Blob)
    requires Net(s) && TaskOk(s.plans, task) && BlobOk(s.plans, path, blob)
    ensures Net(s.(tasks := s.tasks[id := task], blobs := s.blobs[path := blob]))
  {
  }

  lemma DropTask(s: State, id: TaskId, messages: multiset<WorkMessage>)
    requires Net(s)
    ensures Net(s.(tasks := s.tasks - {id}, work := s.work - messages))
  {
  }

  lemma {:induction false} NamesCount(files: seq<PlannedFile>)
    requires DistinctNames(files)
    ensures |Names(files)| == |files|
  {
    if files != [] {
      var last := |files| - 1;
      NamesCount(files[..last]);
      assert Names(files) == Names(files[..last]) + {files[last].fileName};
      assert files[last].fileName !in Names(files[..last]);
    }
  }

  lemma {:induction false} SubsetOfSameSize<T>(a: set<T>, b: set<T>)
    requires a <= b && |a| == |b|
    ensures a == b
  {
    if x :| x in b && x !in a {
      assert a <= b - {x};
      SubsetSize(a, b - {x});
    }
  }

  lemma {:induction false} SubsetSize<T>(a: set<T>, b: set<T>)
    requires a <= b
    ensures |a| <= |b|
  {
    if a != {} {
      var x :| x in a;
      SubsetSize(a - {x}, b - {x});
    }
  }

  // A listing of the expected size is the whole plan, so what was read is the full ZIP.
  lemma CompleteListingIsFullZip(plan: Plan, names: set<string>, entries: map<string, PlannedFile>)
    requires DistinctNames(plan.files) && names <= Names(plan.files) && |names| == |plan.files|
    requires entries.Keys == names && forall n :: n in entries ==> entries[n] in plan.files && entries[n].fileName == n
    ensures FullZip(plan, entries)
  {
    NamesCount(plan.files);
    SubsetOfSameSize(names, Names(plan.files));
  }

  lemma {:induction false} ListedNamesArePlanned(plans: Plans, blobs: Blobs, id: JobId)
    requires id in plans && forall p :: p in blobs ==> BlobOk(plans, p, blobs[p])
    ensures PdfNames(blobs, id) <= Names(plans[id].files)
  {
    forall n | n in PdfNames(blobs, id)
      ensures n in Names(plans[id].files)
    {
      var p :| p in blobs && p.PdfPath? && p.job == id && p.fileName == n;
      assert BlobOk(plans, p, blobs[p]);
    }
  }

  lemma WriteZipKeepsNet(s: State, task: TaskId)
    requires Net(s) && forall j :: j in s.plans ==> DistinctNames(s.plans[j].files)
    ensures Net(DoWriteZip(s, task))
  {
    if task in s.tasks && s.tasks[task].Zipping? && s.tasks[task].entries.Keys == s.tasks[task].names {
      var t := s.tasks[task];
      assert TaskOk(s.plans, t);
      CompleteListingIsFullZip(s.plans[t.message.job], t.names, t.entries);
      SetBlob(s, task, Reporting(t.message, ZipDone(t.message.job)), ZipPath(t.message.job), Zip(t.entries));
    }
  }

  lemma StartZipKeepsNet(s: State, e: Event)
    requires Net(s) && e.StartZip?
    ensures Net(DoStartZip(s, e))
  {
    if e.task !in s.tasks && e.message in s.work && e.message.AssembleZip? {
      assert MessageOk(s.plans, e.message);
      ListedNamesArePlanned(s.plans, s.blobs, e.message.job);
      SetTask(s, e.task, DoStartZip(s, e).tasks[e.task]);
    }
  }

  lemma ReadPdfKeepsNet(s: State, task: TaskId, fileName: string)
    requires Net(s)
    ensures Net(DoReadPdf(s, task, fileName))
  {
    var next := DoReadPdf(s, task, fileName);
    if next != s {
      assert TaskOk(s.plans, s.tasks[task]);
      assert BlobOk(s.plans, PdfPath(s.tasks[task].message.job, fileName), s.blobs[PdfPath(s.tasks[task].message.job, fileName)]);
      SetTask(s, task, next.tasks[task]);
    }
  }

  lemma {:induction false} BatchFilesArePlanned(plan: Plan, b: nat)
    requires b < |PlanBatches(plan)|
    ensures forall i :: 0 <= i < |PlanBatches(plan)[b]| ==> PlanBatches(plan)[b][i] in plan.files
  {
    BatchAt(plan.files, plan.batchSize, b);
  }

  lemma WritePdfKeepsNet(s: State, task: TaskId, index: nat)
    requires Net(s)
    ensures Net(DoWritePdf(s, task, index))
  {
    if task in s.tasks && s.tasks[task].Rendering? && index < |s.tasks[task].files| {
      var t := s.tasks[task];
      assert TaskOk(s.plans, t);
      BatchFilesArePlanned(s.plans[t.message.job], t.message.batchIndex);
      SetBlob(s, task, t.(written := t.written + {index}), PdfPath(t.message.job, t.files[index].fileName), Pdf(t.files[index]));
    }
  }

  lemma StartRenderKeepsNet(s: State, e: Event)
    requires Net(s) && e.StartRender?
    ensures Net(DoStartRender(s, e))
  {
    if e.task !in s.tasks && e.message in s.work && e.message.RenderBatch? {
      assert MessageOk(s.plans, e.message);
      var input := InputPath(e.message.job, e.message.batchIndex);
      assert input in s.blobs ==> BlobOk(s.plans, input, s.blobs[input]);
      SetTask(s, e.task, DoStartRender(s, e).tasks[e.task]);
    }
  }

  lemma FinishRenderKeepsNet(s: State, task: TaskId)
    requires Net(s)
    ensures Net(DoFinishRender(s, task))
  {
    var next := DoFinishRender(s, task);
    if next != s {
      assert TaskOk(s.plans, s.tasks[task]);
      SetTask(s, task, next.tasks[task]);
    }
  }

  lemma GiveUpKeepsNet(s: State, task: TaskId, message: WorkMessage)
    requires Net(s)
    ensures Net(DoGiveUp(s, task, message))
  {
    var next := DoGiveUp(s, task, message);
    if next != s {
      assert task in s.tasks ==> TaskOk(s.plans, s.tasks[task]);
      assert task !in s.tasks ==> MessageOk(s.plans, message);
      SetTask(s, task, next.tasks[task]);
    }
  }

  lemma PublishKeepsNet(s: State, task: TaskId)
    requires Net(s)
    ensures Net(DoPublish(s, task)) && Net(DoDeleteMessage(s, task))
  {
    if task in s.tasks && s.tasks[task].Reporting? {
      var t := s.tasks[task];
      assert TaskOk(s.plans, t);
      PublishResult(s, task, Deleting(t.message), t.result);
    }
    if task in s.tasks && s.tasks[task].Deleting? {
      DropTask(s, task, multiset{s.tasks[task].message});
    }
  }

  lemma WorkerEventsKeepNet(s: State, e: Event)
    requires Net(s) && WorkerEvent(e)
    requires forall j :: j in s.plans ==> DistinctNames(s.plans[j].files)
    ensures Net(Exec(s, e))
  {
    hide BackendStep;
    hide DbInv, PlansInv, ProgressInv, NetInv, ZipKept;
    match e
    case StartRender(_, _, _) => StartRenderKeepsNet(s, e);
    case WritePdf(t, i) => WritePdfKeepsNet(s, t, i);
    case FinishRender(t) => FinishRenderKeepsNet(s, t);
    case StartZip(_, _) => StartZipKeepsNet(s, e);
    case ReadPdf(t, n) => ReadPdfKeepsNet(s, t, n);
    case WriteZip(t) => WriteZipKeepsNet(s, t);
    case GiveUp(t, m) => GiveUpKeepsNet(s, t, m);
    case Publish(t) => PublishKeepsNet(s, t);
    case DeleteMessage(t) => PublishKeepsNet(s, t);
    case Crash(t) =>
      DropTask(s, t, multiset{});
      assert s.work - multiset{} == s.work;
  }

  ghost predicate Kept(s: State) {
    ZipKept(s.db.jobs, s.results, s.blobs, s.tasks)
  }

  // A new report of a ZIP appears only together with the ZIP.
  lemma ZipKeptFrame(s: State, next: State)
    requires Kept(s)
    requires forall j :: j in next.db.jobs && !Gone(next.db.jobs[j].status) ==>
               (j in s.db.jobs && !Gone(s.db.jobs[j].status)) || !ZipReported(next.results, next.tasks, j)
    requires forall j :: ZipReported(next.results, next.tasks, j) ==> ZipReported(s.results, s.tasks, j) || ZipPath(j) in next.blobs
    requires forall j :: j in next.db.jobs && next.db.jobs[j].status == DONE ==>
               j in s.db.jobs && !Gone(s.db.jobs[j].status) && (s.db.jobs[j].status == DONE || ZipReported(s.results, s.tasks, j))
    requires forall j :: j in next.db.jobs && !Gone(next.db.jobs[j].status) && ZipPath(j) in s.blobs ==> ZipPath(j) in next.blobs
    ensures Kept(next)
  {
  }

  lemma WriteZipKeepsZip(s: State, task: TaskId)
    requires Kept(s)
    ensures Kept(DoWriteZip(s, task))
  {
    var next := DoWriteZip(s, task);
    forall j | ZipReported(next.results, next.tasks, j)
      ensures ZipReported(s.results, s.tasks, j) || ZipPath(j) in next.blobs
    {
      if !ZipReported(s.results, s.tasks, j) {
        var t :| t in next.tasks && next.tasks[t].Reporting? && next.tasks[t].result == ZipDone(j);
        assert t == task;
      }
    }
    ZipKeptFrame(s, next);
  }

  lemma PublishKeepsZip(s: State, task: TaskId)
    requires Kept(s)
    ensures Kept(DoPublish(s, task))
  {
    var next := DoPublish(s, task);
    forall j | ZipReported(next.results, next.tasks, j)
      ensures ZipReported(s.results, s.tasks, j)
    {
      if ZipDone(j) !in next.results {
        var t :| t in next.tasks && next.tasks[t].Reporting? && next.tasks[t].result == ZipDone(j);
        assert t in s.tasks && s.tasks[t] == next.tasks[t];
      }
    }
    ZipKeptFrame(s, next);
  }

  predicate SaysZipDone(task: Task) {
    task.Reporting? && task.result.ZipDone?
  }

  ghost predicate ReportsNoZip(s: State, next: State) {
    && next.results == s.results && next.db == s.db && s.blobs.Keys <= next.blobs.Keys
    && forall t :: t in next.tasks && SaysZipDone(next.tasks[t]) ==> t in s.tasks && s.tasks[t] == next.tasks[t]
  }

  lemma RenderEventsReportNoZip(s: State, e: Event)
    requires e.StartRender? || e.WritePdf? || e.FinishRender?
    ensures ReportsNoZip(s, Exec(s, e))
  {
    hide BackendStep;
  }

  lemma ZipEventsReportNoZip(s: State, e: Event)
    requires e.StartZip? || e.ReadPdf?
    ensures ReportsNoZip(s, Exec(s, e))
  {
    hide BackendStep;
  }

  lemma EndEventsReportNoZip(s: State, e: Event)
    requires e.GiveUp? || e.DeleteMessage? || e.Crash?
    ensures ReportsNoZip(s, Exec(s, e))
  {
    hide BackendStep;
  }

  // The other worker events report no ZIP as written.
  lemma TaskEventsKeepZip(s: State, e: Event)
    requires Kept(s) && WorkerEvent(e) && !e.WriteZip? && !e.Publish?
    ensures Kept(Exec(s, e))
  {
    hide BackendStep;
    hide DbInv, PlansInv, ProgressInv, NetInv, ZipKept;
    var next := Exec(s, e);
    assert ReportsNoZip(s, next) by {
      if e.StartRender? || e.WritePdf? || e.FinishRender? {
        RenderEventsReportNoZip(s, e);
      } else if e.StartZip? || e.ReadPdf? {
        ZipEventsReportNoZip(s, e);
      } else {
        EndEventsReportNoZip(s, e);
      }
    }
    SameReportsKeepZip(s, next);
  }

  // Without new reports, keeping ZIPs of jobs that are not gone is enough.
  lemma SameReportsKeepZip(s: State, next: State)
    requires Kept(s) && next.results <= s.results
    requires forall t :: t in next.tasks && SaysZipDone(next.tasks[t]) ==> t in s.tasks && s.tasks[t] == next.tasks[t]
    requires forall j :: j in next.db.jobs && !Gone(next.db.jobs[j].status) ==>
               && j in s.db.jobs && !Gone(s.db.jobs[j].status)
               && (ZipPath(j) in s.blobs ==> ZipPath(j) in next.blobs)
               && (next.db.jobs[j].status == DONE ==> s.db.jobs[j].status == DONE || ZipReported(s.results, s.tasks, j))
    ensures Kept(next)
  {
    forall j | ZipReported(next.results, next.tasks, j)
      ensures ZipReported(s.results, s.tasks, j)
    {
      if ZipDone(j) !in next.results {
        var t :| t in next.tasks && next.tasks[t].Reporting? && next.tasks[t].result == ZipDone(j);
        assert SaysZipDone(next.tasks[t]);
      }
    }
    ZipKeptFrame(s, next);
  }

  // ---------- every event ----------

  ghost predicate GoneStays(before: Jobs, after: Jobs) {
    forall j :: j in after && !Gone(after[j].status) ==> j in before && !Gone(before[j].status) && (after[j].status == DONE ==> before[j].status == DONE)
  }

  // Coordinator events that touch no message and no blob.
  lemma DatabaseEventKeepsZip(s: State, db: Database, plans: Plans, work: multiset<WorkMessage>)
    requires Kept(s) && GoneStays(s.db.jobs, db.jobs)
    ensures Kept(s.(db := db, plans := plans, work := work))
  {
    SameReportsKeepZip(s, s.(db := db, plans := plans, work := work));
  }

  lemma NoPlanForFreshJob(s: State, id: JobId)
    requires PlansInv(s.db.jobs, s.db.documents, s.plans) && id !in s.db.jobs
    ensures id !in s.plans
  {
  }

  lemma ReceivedResultOk(s: State, r: Result)
    requires Net(s) && r in s.results
    ensures ResultOk(s.plans, r)
  {
  }

  lemma CreateJobKeepsRest(s: State, e: Event)
    requires Inv(s) && e.CreateJob?
    ensures Net(DoCreateJob(s, e)) && Kept(DoCreateJob(s, e))
  {
    hide PlansInv, ProgressInv, DbInv, Plannable, NewFiles, OldFiles, Reserve, ZipKept;
    var next := DoCreateJob(s, e);
    if next != s {
      ReservedJob(s.db, e.job, e.key, e.groups, |e.rerendered|);
      NoPlanForFreshJob(s, e.job);
      PlansGrowKeepsNet(s.plans, next.plans, s.work, s.results, s.blobs, s.tasks);
      NothingReported(s, e.job);
      ZipKeptFrame(s, next);
    }
  }

  // No ZIP is reported of a job that has no plan.
  lemma NothingReported(s: State, id: JobId)
    requires Net(s) && id !in s.plans
    ensures !ZipReported(s.results, s.tasks, id)
  {
    forall t | t in s.tasks
      ensures s.tasks[t].Reporting? ==> s.tasks[t].result.job in s.plans
    {
      assert TaskOk(s.plans, s.tasks[t]);
    }
    forall r | r in s.results
      ensures r.job in s.plans
    {
      assert ResultOk(s.plans, r);
    }
  }

  lemma CreateJobKeepsInv(s: State, e: Event)
    requires Inv(s) && e.CreateJob?
    ensures Inv(Exec(s, e))
  {
    hide DbInv, PlansInv, ProgressInv, NetInv, ZipKept;
    CreateJobKeepsDbInv(s, e);
    CreateJobKeepsPlansAndProgress(s, e);
    CreateJobKeepsRest(s, e);
  }

  predicate DispatchEvent(e: Event) {
    e.CreateRows? || e.UploadInput? || e.SendBatch?
  }

  lemma DispatchKeepsPlans(s: State, e: Event)
    requires Inv(s) && DispatchEvent(e)
    ensures PlansAndProgress(Exec(s, e)) && PlansGrow(s.plans, Exec(s, e).plans)
  {
    hide Exec, DbInv, PlansInv, ProgressInv, NetInv, ZipKept;
    Dispatched(s, e);
    match e
    case CreateRows(id) =>
      CreateRowsKeepsPlans(s, id);
      CreateRowsKeepsProgress(s, id);
    case UploadInput(id, b) => UploadInputKeepsPlans(s, id, b);
    case SendBatch(id, b) => SendBatchKeepsPlans(s, id, b);
  }

  lemma UploadInputKeepsPlans(s: State, id: JobId, b: nat)
    requires PlansAndProgress(s)
    ensures PlansAndProgress(DoUploadInput(s, id, b))
  {
    var next := DoUploadInput(s, id, b);
    if next != s {
      assert PlanShape(s.db.jobs[id], s.plans[id]);
      PlansInvUpdate(s.db.jobs, s.db.documents, s.plans, id, next.plans[id]);
      PlanUpdateKeepsProgress(s.db.jobs, s.db.batches, s.plans, id, next.plans[id]);
    }
  }

  lemma SendBatchKeepsPlans(s: State, id: JobId, b: nat)
    requires PlansAndProgress(s)
    ensures PlansAndProgress(DoSendBatch(s, id, b))
  {
    var next := DoSendBatch(s, id, b);
    if next != s {
      assert PlanShape(s.db.jobs[id], s.plans[id]);
      PlansInvUpdate(s.db.jobs, s.db.documents, s.plans, id, next.plans[id]);
      PlanUpdateKeepsProgress(s.db.jobs, s.db.batches, s.plans, id, next.plans[id]);
    }
  }

  lemma PlanUpdateKeepsProgress(jobs: Jobs, batches: map<JobId, seq<BatchRow>>, plans: Plans, id: JobId, plan: Plan)
    requires ProgressInv(jobs, batches, plans) && id in plans && PlanGrows(plans[id], plan) && plan.rowsCreated == plans[id].rowsCreated
    ensures ProgressInv(jobs, batches, plans[id := plan])
  {
    forall j | j in jobs && j in plans
      ensures Progress(jobs[j], plans[id := plan][j], j in batches, RowsIn(batches, j))
    {
      assert Progress(jobs[j], plans[j], j in batches, RowsIn(batches, j));
    }
  }

  lemma DispatchKeepsNet(s: State, e: Event)
    requires Inv(s) && DispatchEvent(e) && PlansGrow(s.plans, Exec(s, e).plans)
    ensures Net(Exec(s, e))
  {
    hide Exec, DbInv, ProgressInv, ZipKept, PlanShape, PlanBatches, Batches, Revert, IssueSingle;
    Dispatched(s, e);
    var next := Exec(s, e);
    PlansGrowKeepsNet(s.plans, next.plans, s.work, s.results, s.blobs, s.tasks);
    if e.SendBatch? && next != s {
      SentIsOk(s, e.job, e.batchIndex);
    }
    if e.UploadInput? && next != s {
      UploadIsOk(s, e.job, e.batchIndex);
    }
  }

  lemma UploadIsOk(s: State, id: JobId, batchIndex: nat)
    requires PlansInv(s.db.jobs, s.db.documents, s.plans) && DoUploadInput(s, id, batchIndex) != s
    ensures var next, path := DoUploadInput(s, id, batchIndex), InputPath(id, batchIndex);
            path in next.blobs && BlobOk(next.plans, path, next.blobs[path])
  {
  }

  lemma SentIsOk(s: State, id: JobId, batchIndex: nat)
    requires PlansInv(s.db.jobs, s.db.documents, s.plans) && DoSendBatch(s, id, batchIndex) != s
    ensures MessageOk(DoSendBatch(s, id, batchIndex).plans, RenderBatch(id, batchIndex))
  {
    assert PlanShape(s.db.jobs[id], s.plans[id]);
  }

  lemma DispatchKeepsInv(s: State, e: Event)
    requires Inv(s) && DispatchEvent(e)
    ensures Inv(Exec(s, e))
  {
    hide DbInv, PlansInv, ProgressInv, NetInv, ZipKept;
    OtherEventsKeepDbInv(s, e);
    DispatchKeepsPlans(s, e);
    DispatchKeepsNet(s, e);
    SameReportsKeepZip(s, Exec(s, e));
  }

  predicate FailureEvent(e: Event) {
    e.FailDispatch? || e.RecoverInterrupted? || e.FailStalled?
  }

  lemma RevertKeepsInv(s: State, id: JobId, fromStatuses: set<Status>)
    requires Inv(s) && fromStatuses <= ACTIVE_STATUSES
    ensures Inv(s.(db := Revert(s.db, id, fromStatuses)))
  {
    hide DbInv, PlansInv, ProgressInv, NetInv, ZipKept;
    var db := Revert(s.db, id, fromStatuses);
    RevertKeepsDbInv(s.db, id, fromStatuses);
    RevertKeepsPlans(s.db, s.plans, id, fromStatuses);
    RevertKeepsProgress(s.db, s.plans, id, fromStatuses);
    DatabaseEventKeepsZip(s, db, s.plans, s.work);
  }

  lemma AdvanceKeepsInv(s: State, id: JobId, from: Status, to: Status)
    requires Inv(s) && Forward(from, to)
    requires from == PREPARING && id in s.plans ==> s.plans[id].rowsCreated
    requires to == DONE ==> ZipReported(s.results, s.tasks, id)
    ensures Inv(s.(db := Advance(s.db, id, from, to)))
  {
    hide DbInv, PlansInv, ProgressInv, NetInv, ZipKept;
    AdvanceKeepsDbInv(s.db, id, from, to);
    AdvanceKeepsPlans(s.db, s.plans, id, from, to);
    AdvanceKeepsProgress(s.db, s.plans, id, from, to);
    SameReportsKeepZip(s, s.(db := Advance(s.db, id, from, to)));
  }

  lemma BatchDoneKeepsInv(s: State, r: Result)
    requires Inv(s) && r.BatchDone? && r in s.results
    ensures Inv(DoApplyResult(s, r)) && Inv(DoLoseCommit(s, r))
  {
    hide WorkerStep;
    hide DbInv, PlansInv, ProgressInv, NetInv, ZipKept;
    var (db, assemble) := ApplyBatchDone(s.db, r.job, r.batchIndex, r.documentCount, r.attempt);
    ReceivedResultOk(s, r);
    StatusChangeKeepsDbInv(s.db, db);
    BatchDoneKeepsPlansAndProgress(s.db, s.plans, r);
    AssembleMessageOk(s, r);
    DatabaseEventKeepsZip(s, db, s.plans, DoApplyResult(s, r).work);
    DatabaseEventKeepsZip(s, s.db, s.plans, DoLoseCommit(s, r).work);
  }

  lemma AssembleMessageOk(s: State, r: Result)
    requires PlansInv(s.db.jobs, s.db.documents, s.plans) && Net(s) && r.BatchDone? && r in s.results
    ensures Net(s.(work := DoApplyResult(s, r).work)) && Net(s.(work := DoLoseCommit(s, r).work))
    ensures DoApplyResult(s, r) == s.(db := DoApplyResult(s, r).db, work := DoApplyResult(s, r).work)
    ensures DoLoseCommit(s, r) == s.(work := DoLoseCommit(s, r).work)
  {
    var (db, assemble) := ApplyBatchDone(s.db, r.job, r.batchIndex, r.documentCount, r.attempt);
    if assemble {
      assert PlanShape(s.db.jobs[r.job], s.plans[r.job]);
      assert MessageOk(s.plans, AssembleZip(r.job, db.jobs[r.job].total));
    }
  }

  lemma ApplyResultKeepsInv(s: State, r: Result)
    requires Inv(s)
    ensures Inv(DoApplyResult(s, r))
  {
    hide DbInv, PlansInv, ProgressInv, NetInv, ZipKept;
    if r in s.results {
      match r
      case BatchDone(_, _, _, _) => BatchDoneKeepsInv(s, r);
      case BatchFailed(id, _) => RevertKeepsInv(s, id, {PREPARING, RUNNING});
      case ZipDone(id) => AdvanceKeepsInv(s, id, ASSEMBLING, DONE);
      case ZipFailed(id) => RevertKeepsInv(s, id, {ASSEMBLING});
    }
  }

  lemma DocumentsGrowKeepsPlans(db: Database, next: Database, plans: Plans)
    requires PlansInv(db.jobs, db.documents, plans) && next.jobs == db.jobs
    requires forall d :: d in db.documents ==> d in next.documents && next.documents[d] == db.documents[d]
    ensures PlansInv(next.jobs, next.documents, plans)
  {
    PlansInvFrame(db.jobs, db.documents, next.jobs, next.documents, plans);
  }

  lemma PanelOnlyAddsDocuments(s: State, e: Event)
    requires NumbersInRange(s.db.counters, s.db.documents, s.db.nextDocument)
    requires e.GenerateSingle? || e.AddSettlement? || e.ReplaceSettlement?
    ensures var next := Exec(s, e);
            && next == s.(db := next.db) && next.db.jobs == s.db.jobs && next.db.batches == s.db.batches
            && forall d :: d in s.db.documents ==> d in next.db.documents && next.db.documents[d] == s.db.documents[d]
  {
    hide Exec, DoAddSettlement, DoReplaceSettlement, DoGenerateSingle, NumbersInRange;
    Dispatched(s, e);
    if e.GenerateSingle? {
      SingleOnlyAddsDocuments(s, e.key, e.groups);
    } else {
      SettlementsLeaveDocuments(s, e);
    }
  }

  lemma SingleOnlyAddsDocuments(s: State, key: CounterKey, groups: seq<seq<SettlementId>>)
    requires NumbersInRange(s.db.counters, s.db.documents, s.db.nextDocument)
    ensures var next := DoGenerateSingle(s, key, groups);
            && next == s.(db := next.db) && next.db.jobs == s.db.jobs && next.db.batches == s.db.batches
            && forall d :: d in s.db.documents ==> d in next.db.documents && next.db.documents[d] == s.db.documents[d]
  {
    hide Plannable, LinkTargets, Linkable, HasActiveJob;
  }

  lemma SettlementsLeaveDocuments(s: State, e: Event)
    requires e.AddSettlement? || e.ReplaceSettlement?
    ensures var next := if e.AddSettlement? then DoAddSettlement(s, e.settlement, e.municipality) else DoReplaceSettlement(s, e.settlement);
            next == s.(db := next.db) && next.db.jobs == s.db.jobs && next.db.batches == s.db.batches && next.db.documents == s.db.documents
  {
  }

  lemma NumbersOf(db: Database)
    requires DbInv(db)
    ensures NumbersInRange(db.counters, db.documents, db.nextDocument)
  {
  }

  lemma PanelKeepsInv(s: State, e: Event)
    requires Inv(s) && (e.GenerateSingle? || e.AddSettlement? || e.ReplaceSettlement?)
    ensures Inv(Exec(s, e))
  {
    hide DbInv, PlansInv, ProgressInv, NetInv, ZipKept;
    var next := Exec(s, e);
    PanelEventsKeepDbInv(s, e);
    NumbersOf(s.db);
    PanelOnlyAddsDocuments(s, e);
    DocumentsGrowKeepsPlans(s.db, next.db, s.plans);
    DatabaseEventKeepsZip(s, next.db, s.plans, s.work);
  }

  lemma CleanupKeepsInv(s: State, e: Event)
    requires Inv(s) && (e.DropResult? || e.DeleteRows? || e.DeleteBlob?)
    ensures Inv(Exec(s, e))
  {
    hide Exec, DbInv, PlansInv, ProgressInv, NetInv, ZipKept;
    Dispatched(s, e);
    var next := Exec(s, e);
    OtherEventsKeepDbInv(s, e);
    CleanupKeepsProgress(s, e);
    CleanupKeepsNet(s, e);
    SameReportsKeepZip(s, next);
  }

  lemma CleanupKeepsNet(s: State, e: Event)
    requires Net(s) && (e.DropResult? || e.DeleteRows? || e.DeleteBlob?)
    ensures Net(Exec(s, e))
  {
    hide Exec;
    Dispatched(s, e);
  }

  lemma CleanupKeepsProgress(s: State, e: Event)
    requires PlansAndProgress(s) && (e.DropResult? || e.DeleteRows? || e.DeleteBlob?)
    ensures PlansAndProgress(Exec(s, e))
  {
    hide Exec, Revert, Advance, AllSent, Deletable, IssueSingle, Plannable, DoneSum, Lengths, PlanBatches;
    Dispatched(s, e);
    var next := Exec(s, e);
    forall j | j in next.db.jobs && j in next.plans
      ensures Progress(next.db.jobs[j], next.plans[j], j in next.db.batches, RowsIn(next.db.batches, j))
    {
      assert Progress(s.db.jobs[j], s.plans[j], j in s.db.batches, RowsIn(s.db.batches, j));
    }
  }

  lemma PlannedNamesDiffer(s: State)
    requires Inv(s)
    ensures forall j :: j in s.plans ==> DistinctNames(s.plans[j].files)
  {
    forall j | j in s.plans
      ensures DistinctNames(s.plans[j].files)
    {
      assert PlanShape(s.db.jobs[j], s.plans[j]);
    }
  }

  lemma InvOutsideNet(s: State, next: State)
    requires Inv(s) && next.db == s.db && next.plans == s.plans && Net(next) && Kept(next)
    ensures Inv(next)
  {
  }

  lemma NetAndZip(s: State)
    requires Inv(s)
    ensures Net(s) && Kept(s)
  {
  }

  lemma WorkerKeepsInv(s: State, e: Event)
    requires Inv(s) && WorkerEvent(e)
    ensures Inv(Exec(s, e))
  {
    hide BackendStep;
    hide Inv;
    hide Net, Kept;
    PlannedNamesDiffer(s);
    NetAndZip(s);
    WorkerEventsKeepNet(s, e);
    if e.WriteZip? {
      WriteZipKeepsZip(s, e.task);
    } else if e.Publish? {
      PublishKeepsZip(s, e.task);
    } else {
      TaskEventsKeepZip(s, e);
    }
    WorkerLeavesDatabase(s, e);
    InvOutsideNet(s, Exec(s, e));
  }

  lemma WorkerLeavesDatabase(s: State, e: Event)
    requires WorkerEvent(e)
    ensures Exec(s, e).db == s.db && Exec(s, e).plans == s.plans
  {
    hide BackendStep, WorkerStep;
  }

  lemma ExecKeepsInv(s: State, e: Event)
    requires Inv(s)
    ensures Inv(Exec(s, e))
  {
    hide DbInv, PlansInv, ProgressInv, NetInv, ZipKept;
    if WorkerEvent(e) {
      WorkerKeepsInv(s, e);
    } else if DispatchEvent(e) {
      DispatchKeepsInv(s, e);
    } else if e.CreateJob? {
      CreateJobKeepsInv(s, e);
    } else if e.GenerateSingle? || e.AddSettlement? || e.ReplaceSettlement? {
      PanelKeepsInv(s, e);
    } else if e.DropResult? || e.DeleteRows? || e.DeleteBlob? {
      CleanupKeepsInv(s, e);
    } else {
      CoordinatorKeepsInv(s, e);
    }
  }

  lemma CoordinatorKeepsInv(s: State, e: Event)
    requires Inv(s)
    requires e.FinishDispatch? || FailureEvent(e) || e.ApplyResult? || e.ApplyResultButLoseCommit? || e.Expire?
    ensures Inv(Exec(s, e))
  {
    hide Exec, DbInv, PlansInv, ProgressInv, NetInv, ZipKept;
    Dispatched(s, e);
    match e
    case FinishDispatch(id) => if id in s.plans && AllSent(s.plans[id]) { AdvanceKeepsInv(s, id, PREPARING, RUNNING); }
    case FailDispatch(id) => RevertKeepsInv(s, id, ACTIVE_STATUSES);
    case RecoverInterrupted(id) => RevertKeepsInv(s, id, ACTIVE_STATUSES);
    case FailStalled(id) => RevertKeepsInv(s, id, {RUNNING, ASSEMBLING});
    case ApplyResult(r) => ApplyResultKeepsInv(s, r);
    case ApplyResultButLoseCommit(r) => if r in s.results && r.BatchDone? { BatchDoneKeepsInv(s, r); }
    case Expire(id) => AdvanceKeepsInv(s, id, DONE, EXPIRED);
  }
}
