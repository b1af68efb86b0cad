/** A bulk job can always be brought to its end: from its creation in any reachable state there is a run
    that dispatches it, renders each batch and leaves its ZIP to be downloaded. */
module JobRuns {
  import opened Numbering
  import opened Batching
  import opened Protocol
  import opened DatabaseInvariant
  import opened SystemInvariant
  import opened SystemSteps
  import opened Runs
  import opened Downloads
  import opened JobLaws

  lemma RunOne(s: State, e: Event)
    ensures Run(s, [e]) == Exec(s, e)
  {
    hide Exec;
    assert [e][..0] == [];
  }

  lemma RunNext(s: State, events: seq<Event>, e: Event)
    ensures Run(s, events + [e]) == Exec(Run(s, events), e)
  {
    hide Exec;
    assert (events + [e])[..|events|] == events;
  }

  lemma WorkerSteps(s: State, e: Event)
    ensures e.StartRender? ==> Exec(s, e) == DoStartRender(s, e)
    ensures e.WritePdf? ==> Exec(s, e) == DoWritePdf(s, e.task, e.index)
    ensures e.FinishRender? ==> Exec(s, e) == DoFinishRender(s, e.task)
    ensures e.StartZip? ==> Exec(s, e) == DoStartZip(s, e)
    ensures e.ReadPdf? ==> Exec(s, e) == DoReadPdf(s, e.task, e.fileName)
    ensures e.WriteZip? ==> Exec(s, e) == DoWriteZip(s, e.task)
    ensures e.Publish? ==> Exec(s, e) == DoPublish(s, e.task)
    ensures e.DeleteMessage? ==> Exec(s, e) == DoDeleteMessage(s, e.task)
  {
    hide DoStartRender, DoWritePdf, DoFinishRender, DoStartZip, DoReadPdf, DoWriteZip, DoGiveUp, DoPublish, DoDeleteMessage, BackendStep;
  }

  // ---------- one batch ----------

  predicate InputThere(s: State, id: JobId, b: nat, files: seq<PlannedFile>) {
    InputPath(id, b) in s.blobs && s.blobs[InputPath(id, b)] == BatchInput(files)
  }

  predicate HasPdfs(blobs: map<Path, Blob>, id: JobId, files: seq<PlannedFile>) {
    forall i :: 0 <= i < |files| ==> PdfPath(id, files[i].fileName) in blobs
  }

  // Only documents were added or written again.
  predicate OnlyPdfsChange(before: map<Path, Blob>, after: map<Path, Blob>) {
    before.Keys <= after.Keys && forall p :: p in before && !p.PdfPath? ==> after[p] == before[p]
  }

  function Below(n: nat): (indexes: set<nat>)
    ensures forall i: nat :: i in indexes <==> i < n
  {
    if n == 0 then {} else Below(n - 1) + {n - 1}
  }

  // An attempt that has read its input writes its documents one by one.
  lemma {:induction false} WriteAll(s: State, t: TaskId, message: WorkMessage, files: seq<PlannedFile>, n: nat) returns (events: seq<Event>)
    requires t in s.tasks && s.tasks[t] == Rendering(message, files, {}, 1) && n <= |files|
    ensures var after := Run(s, events);
            && after == s.(blobs := after.blobs, tasks := s.tasks[t := Rendering(message, files, Below(n), 1)])
            && OnlyPdfsChange(s.blobs, after.blobs) && HasPdfs(after.blobs, message.job, files[..n])
  {
    hide Exec, DoWritePdf;
    if n == 0 {
      events := [];
      assert s.tasks[t := s.tasks[t]] == s.tasks;
    } else {
      var earlier := WriteAll(s, t, message, files, n - 1);
      events := earlier + [WritePdf(t, n - 1)];
      RunNext(s, earlier, WritePdf(t, n - 1));
      WorkerSteps(Run(s, earlier), WritePdf(t, n - 1));
      WriteOne(Run(s, earlier), t, message, files, n - 1);
      assert files[..n] == files[..n - 1] + [files[n - 1]];
    }
  }

  lemma WriteOne(s: State, t: TaskId, message: WorkMessage, files: seq<PlannedFile>, k: nat)
    requires t in s.tasks && s.tasks[t].Rendering? && s.tasks[t].message == message && s.tasks[t].files == files && k < |files|
    ensures DoWritePdf(s, t, k)
         == s.(blobs := s.blobs[PdfPath(message.job, files[k].fileName) := Pdf(files[k])],
               tasks := s.tasks[t := s.tasks[t].(written := s.tasks[t].written + {k})])
  {
  }

  // A batch whose message and input are there is rendered, reported and counted.
  lemma RenderBatchRun(s: State, id: JobId, b: nat, files: seq<PlannedFile>, t: TaskId) returns (events: seq<Event>)
    requires RenderBatch(id, b) in s.work && InputThere(s, id, b, files) && t !in s.tasks && Waits(s.db, id, b)
    ensures var after := Run(s, events);
            && after.plans == s.plans && after.tasks == s.tasks
            && after.work == s.work - multiset{RenderBatch(id, b)} + ZipAsked(s.db, id, b)
            && OnlyPdfsChange(s.blobs, after.blobs) && HasPdfs(after.blobs, id, files)
            && Counted(s.db, after.db, id, b)
  {
    hide Exec, Waits;
    var message := RenderBatch(id, b);
    var s1 := s.(tasks := s.tasks[t := Rendering(message, files, {}, 1)]);
    Starts(s, id, b, files, t);
    RunOne(s, StartRender(t, message, 1));
    var writes := WriteAll(s1, t, message, files, |files|);
    assert files[..|files|] == files;
    var s2 := Run(s1, writes);
    RunConcat(s, [StartRender(t, message, 1)], writes);
    var result := BatchDone(id, b, |files|, 1);
    var reporting := [FinishRender(t)] + [Publish(t), DeleteMessage(t)];
    Reports(s2, s.tasks, t, message, files);
    var s3 := Run(s2, reporting);
    RunConcat(s, [StartRender(t, message, 1)] + writes, reporting);
    BatchResultEffect(s3, id, b, |files|, 1);
    CountsIt(s3.db, Exec(s3, ApplyResult(result)).db, id, b, |files|);
    RunNext(s, [StartRender(t, message, 1)] + writes + reporting, ApplyResult(result));
    events := [StartRender(t, message, 1)] + writes + reporting + [ApplyResult(result)];
  }

  // What a counted batch leaves of the job and its rows.
  predicate Counted(before: Database, after: Database, id: JobId, b: nat) {
    && id in before.jobs && id in before.batches && b < |before.batches[id]|
    && id in after.jobs && id in after.batches && |after.batches[id]| == |before.batches[id]|
    && after.jobs[id].total == before.jobs[id].total
    && after.jobs[id].status == (if WaitsOnlyFor(before, id, b) then ASSEMBLING else before.jobs[id].status)
    && forall k :: 0 <= k < |after.batches[id]| ==> after.batches[id][k].done == (k == b || before.batches[id][k].done)
  }

  lemma Starts(s: State, id: JobId, b: nat, files: seq<PlannedFile>, t: TaskId)
    requires RenderBatch(id, b) in s.work && InputThere(s, id, b, files) && t !in s.tasks
    ensures Exec(s, StartRender(t, RenderBatch(id, b), 1)) == s.(tasks := s.tasks[t := Rendering(RenderBatch(id, b), files, {}, 1)])
  {
    hide Exec;
    WorkerSteps(s, StartRender(t, RenderBatch(id, b), 1));
  }

  lemma CountsIt(before: Database, after: Database, id: JobId, b: nat, n: nat)
    requires Waits(before, id, b)
    requires var job, rows, last := before.jobs[id], before.batches[id], WaitsOnlyFor(before, id, b);
             && after.jobs
                == before.jobs[id := Job(job.key, if last then ASSEMBLING else job.status, job.total, job.completed + n, job.range)]
             && after.batches == before.batches[id := rows[b := BatchRow(rows[b].documentCount, true, 1)]]
    ensures Counted(before, after, id, b)
  {
    hide WaitsOnlyFor;
  }

  lemma Reports(s: State, others: map<TaskId, Task>, t: TaskId, message: WorkMessage, files: seq<PlannedFile>)
    requires message.RenderBatch? && t !in others
    requires s.tasks == others[t := Rendering(message, files, Below(|files|), 1)]
    ensures Run(s, [FinishRender(t)] + [Publish(t), DeleteMessage(t)])
         == s.(work := s.work - multiset{message},
               results := s.results + multiset{BatchDone(message.job, message.batchIndex, |files|, 1)}, tasks := others)
  {
    hide Exec, DoFinishRender, Run, Below;
    WorkerSteps(s, FinishRender(t));
    FinishesRender(s, t);
    RunOne(s, FinishRender(t));
    var s1 := Exec(s, FinishRender(t));
    var result := BatchDone(message.job, message.batchIndex, |files|, 1);
    assert s1.tasks == others[t := Reporting(message, result)];
    PublishesAndDeletes(s1, others, t, message, result);
    RunConcat(s, [FinishRender(t)], [Publish(t), DeleteMessage(t)]);
  }

  lemma FinishesRender(s: State, t: TaskId)
    requires t in s.tasks && s.tasks[t].Rendering? && s.tasks[t].message.RenderBatch? && s.tasks[t].written == Below(|s.tasks[t].files|)
    ensures var task := s.tasks[t];
            DoFinishRender(s, t)
            == s.(tasks := s.tasks[t := Reporting(task.message, BatchDone(task.message.job, task.message.batchIndex, |task.files|, task.attempt))])
  {
  }

  // The result goes out, and then the message.
  lemma PublishesAndDeletes(s: State, others: map<TaskId, Task>, t: TaskId, message: WorkMessage, result: Result)
    requires t !in others && s.tasks == others[t := Reporting(message, result)]
    ensures Run(s, [Publish(t), DeleteMessage(t)])
         == s.(work := s.work - multiset{message}, results := s.results + multiset{result}, tasks := others)
  {
    hide Exec, DoPublish, DoDeleteMessage, Run;
    var s1 := s.(results := s.results + multiset{result}, tasks := others[t := Deleting(message)]);
    WorkerSteps(s, Publish(t));
    Publishes(s, others, t, message, result);
    WorkerSteps(s1, DeleteMessage(t));
    Deletes(s1, others, t, message);
    RunOne(s, Publish(t));
    RunNext(s, [Publish(t)], DeleteMessage(t));
    assert [Publish(t), DeleteMessage(t)] == [Publish(t)] + [DeleteMessage(t)];
  }

  lemma Publishes(s: State, others: map<TaskId, Task>, t: TaskId, message: WorkMessage, result: Result)
    requires t !in others && s.tasks == others[t := Reporting(message, result)]
    ensures DoPublish(s, t) == s.(results := s.results + multiset{result}, tasks := others[t := Deleting(message)])
  {
    assert s.tasks[t := Deleting(message)] == others[t := Deleting(message)];
  }

  lemma Deletes(s: State, others: map<TaskId, Task>, t: TaskId, message: WorkMessage)
    requires t !in others && s.tasks == others[t := Deleting(message)]
    ensures DoDeleteMessage(s, t) == s.(work := s.work - multiset{message}, tasks := others)
  {
    assert s.tasks - {t} == others;
  }

  // ---------- all its batches ----------

  // The first k batches are done, with their documents written; the others wait, with message and input.
  ghost predicate DoneUpTo(s: State, id: JobId, k: nat) {
    && id in s.plans && id in s.db.jobs && id in s.db.batches
    && var batches, rows := PlanBatches(s.plans[id]), s.db.batches[id];
       && |rows| == |batches| && k <= |batches|
       && (forall b :: 0 <= b < |batches| ==> rows[b].done == (b < k))
       && (forall b :: 0 <= b < k ==> HasPdfs(s.blobs, id, batches[b]))
       && (forall b :: k <= b < |batches| ==> RenderBatch(id, b) in s.work && InputThere(s, id, b, batches[b]))
  }

  lemma OneMoreDone(s: State, after: State, id: JobId, k: nat)
    requires DoneUpTo(s, id, k) && k < |PlanBatches(s.plans[id])|
    requires after.plans == s.plans && Counted(s.db, after.db, id, k) && OnlyPdfsChange(s.blobs, after.blobs)
    requires HasPdfs(after.blobs, id, PlanBatches(s.plans[id])[k])
    requires forall m :: m in s.work && m != RenderBatch(id, k) ==> m in after.work
    ensures DoneUpTo(after, id, k + 1)
    ensures WaitsOnlyFor(s.db, id, k) <==> Waits(s.db, id, k) && k + 1 == |PlanBatches(s.plans[id])|
  {
    hide PlanBatches;
    var batches, rows := PlanBatches(s.plans[id]), s.db.batches[id];
    if k + 1 < |batches| {
      assert !rows[k + 1].done;
    }
  }

  lemma RenderRest(s: State, id: JobId, k: nat, t: TaskId) returns (events: seq<Event>)
    requires DoneUpTo(s, id, k) && k < |PlanBatches(s.plans[id])| && t !in s.tasks
    requires s.db.jobs[id].status == PREPARING || s.db.jobs[id].status == RUNNING
    ensures var after := Run(s, events);
            && id in s.plans && id in s.db.jobs && id in after.db.jobs
            && DoneUpTo(after, id, |PlanBatches(s.plans[id])|) && after.plans == s.plans && t !in after.tasks
            && after.db.jobs[id].status == ASSEMBLING && after.db.jobs[id].total == s.db.jobs[id].total
            && AssembleZip(id, s.db.jobs[id].total) in after.work
    decreases |PlanBatches(s.plans[id])| - k
  {
    hide Run, DoneUpTo, PlanBatches, Counted, OnlyPdfsChange, HasPdfs;
    NextWaits(s, id, k);
    events := RenderBatchRun(s, id, k, PlanBatches(s.plans[id])[k], t);
    var mid := Run(s, events);
    OneMoreDone(s, mid, id, k);
    CountedJob(s.db, mid.db, id, k);
    if k + 1 < |PlanBatches(s.plans[id])| {
      var rest := RenderRest(mid, id, k + 1, t);
      RunConcat(s, events, rest);
      events := events + rest;
    }
  }

  lemma NextWaits(s: State, id: JobId, k: nat)
    requires DoneUpTo(s, id, k) && k < |PlanBatches(s.plans[id])|
    requires s.db.jobs[id].status == PREPARING || s.db.jobs[id].status == RUNNING
    ensures id in s.plans && Waits(s.db, id, k) && RenderBatch(id, k) in s.work && InputThere(s, id, k, PlanBatches(s.plans[id])[k])
  {
    hide PlanBatches;
  }

  lemma CountedJob(before: Database, after: Database, id: JobId, k: nat)
    requires Counted(before, after, id, k)
    ensures id in before.jobs && id in after.jobs && after.jobs[id].total == before.jobs[id].total
    ensures after.jobs[id].status == if WaitsOnlyFor(before, id, k) then ASSEMBLING else before.jobs[id].status
  {
    hide WaitsOnlyFor;
  }

  // ---------- dispatching it ----------

  ghost predicate DispatchedUpTo(s: State, id: JobId, files: seq<PlannedFile>, size: nat, k: nat) {
    && id in s.plans && s.plans[id].rowsCreated && s.plans[id].files == files && s.plans[id].batchSize == size
    && forall b: nat :: b < k ==>
         && b < |PlanBatches(s.plans[id])| && b in s.plans[id].sent
         && RenderBatch(id, b) in s.work && InputThere(s, id, b, PlanBatches(s.plans[id])[b])
  }

  // The inputs are uploaded and their messages sent, one batch after the other.
  lemma {:induction false} SendAll(s: State, id: JobId, k: nat) returns (events: seq<Event>)
    requires id in s.plans && s.plans[id].rowsCreated && k <= |PlanBatches(s.plans[id])|
    ensures var after, plan := Run(s, events), s.plans[id];
            && DispatchedUpTo(after, id, plan.files, plan.batchSize, k) && after.db == s.db && after.tasks == s.tasks
  {
    hide Exec, PlanBatches;
    var plan := s.plans[id];
    if k == 0 {
      events := [];
    } else {
      var earlier := SendAll(s, id, k - 1);
      var mid := Run(s, earlier);
      SamePlanBatches(plan, mid.plans[id]);
      SendOne(mid, id, plan.files, plan.batchSize, k - 1);
      RunConcat(s, earlier, [UploadInput(id, k - 1), SendBatch(id, k - 1)]);
      events := earlier + [UploadInput(id, k - 1), SendBatch(id, k - 1)];
    }
  }

  lemma SamePlanBatches(a: Plan, b: Plan)
    requires a.files == b.files && a.batchSize == b.batchSize
    ensures PlanBatches(a) == PlanBatches(b)
  {
  }

  lemma SendOne(s: State, id: JobId, files: seq<PlannedFile>, size: nat, k: nat)
    requires DispatchedUpTo(s, id, files, size, k) && k < |PlanBatches(s.plans[id])|
    ensures var after := Run(s, [UploadInput(id, k), SendBatch(id, k)]);
            DispatchedUpTo(after, id, files, size, k + 1) && after.db == s.db && after.tasks == s.tasks
  {
    hide Exec, PlanBatches, Run, DoUploadInput, DoSendBatch, DispatchedUpTo;
    var s1 := Exec(s, UploadInput(id, k));
    DispatchSteps(s, UploadInput(id, k));
    Uploads(s, id, files, size, k);
    DispatchSteps(s1, SendBatch(id, k));
    Sends(s1, id, files, size, k);
    RunOne(s, UploadInput(id, k));
    RunNext(s, [UploadInput(id, k)], SendBatch(id, k));
    assert [UploadInput(id, k), SendBatch(id, k)] == [UploadInput(id, k)] + [SendBatch(id, k)];
  }

  lemma Uploads(s: State, id: JobId, files: seq<PlannedFile>, size: nat, k: nat)
    requires DispatchedUpTo(s, id, files, size, k) && k < |PlanBatches(s.plans[id])|
    ensures var after := DoUploadInput(s, id, k);
            && DispatchedUpTo(after, id, files, size, k) && after.db == s.db && after.tasks == s.tasks
            && k < |PlanBatches(after.plans[id])| && k in after.plans[id].uploaded && InputThere(after, id, k, PlanBatches(after.plans[id])[k])
  {
    hide PlanBatches;
    SamePlanBatches(s.plans[id], DoUploadInput(s, id, k).plans[id]);
  }

  lemma Sends(s: State, id: JobId, files: seq<PlannedFile>, size: nat, k: nat)
    requires DispatchedUpTo(s, id, files, size, k) && k < |PlanBatches(s.plans[id])|
    requires k in s.plans[id].uploaded && InputThere(s, id, k, PlanBatches(s.plans[id])[k])
    ensures var after := DoSendBatch(s, id, k);
            DispatchedUpTo(after, id, files, size, k + 1) && after.db == s.db && after.tasks == s.tasks
  {
    hide PlanBatches;
    SamePlanBatches(s.plans[id], DoSendBatch(s, id, k).plans[id]);
  }

  // A created job is running after its dispatch, with every batch waiting.
  lemma DispatchRun(s: State, id: JobId) returns (events: seq<Event>)
    requires id in s.db.jobs && s.db.jobs[id].status == PREPARING && id in s.plans && !s.plans[id].rowsCreated
    ensures var after := Run(s, events);
            && id in after.db.jobs && id in after.plans
            && DoneUpTo(after, id, 0) && after.tasks == s.tasks && after.db.jobs[id] == s.db.jobs[id].(status := RUNNING)
            && after.plans[id].files == s.plans[id].files && after.plans[id].batchSize == s.plans[id].batchSize
  {
    hide Exec, PlanBatches, Run;
    var plan := s.plans[id];
    var s1 := Exec(s, CreateRows(id));
    DispatchSteps(s, CreateRows(id));
    SamePlanBatches(plan, s1.plans[id]);
    RunOne(s, CreateRows(id));
    var sending := SendAll(s1, id, |PlanBatches(plan)|);
    var s2 := Run(s1, sending);
    SamePlanBatches(plan, s2.plans[id]);
    RunConcat(s, [CreateRows(id)], sending);
    DispatchSteps(s2, FinishDispatch(id));
    RunNext(s, [CreateRows(id)] + sending, FinishDispatch(id));
    events := [CreateRows(id)] + sending + [FinishDispatch(id)];
  }

  // ---------- its ZIP ----------

  ghost predicate ReadUpTo(s: State, t: TaskId, message: WorkMessage, files: seq<PlannedFile>, k: nat) {
    && k <= |files| && t in s.tasks && s.tasks[t].Zipping? && s.tasks[t].message == message && s.tasks[t].names == Names(files)
    && s.tasks[t].entries.Keys == Names(files[..k])
  }

  lemma {:induction false} ReadAll(s: State, t: TaskId, message: WorkMessage, files: seq<PlannedFile>, k: nat) returns (events: seq<Event>)
    requires t in s.tasks && s.tasks[t] == Zipping(message, Names(files), map[]) && k <= |files|
    requires forall f :: f in files ==> PdfPath(message.job, f.fileName) in s.blobs && s.blobs[PdfPath(message.job, f.fileName)].Pdf?
    ensures var after := Run(s, events);
            ReadUpTo(after, t, message, files, k) && after == s.(tasks := after.tasks)
  {
    hide Exec, DoReadPdf;
    if k == 0 {
      events := [];
    } else {
      var earlier := ReadAll(s, t, message, files, k - 1);
      var e := ReadPdf(t, files[k - 1].fileName);
      WorkerSteps(Run(s, earlier), e);
      ReadOne(Run(s, earlier), t, message, files, k - 1);
      RunNext(s, earlier, e);
      events := earlier + [e];
    }
  }

  lemma ReadOne(s: State, t: TaskId, message: WorkMessage, files: seq<PlannedFile>, k: nat)
    requires ReadUpTo(s, t, message, files, k) && k < |files|
    requires var path := PdfPath(message.job, files[k].fileName); path in s.blobs && s.blobs[path].Pdf?
    ensures var after := DoReadPdf(s, t, files[k].fileName);
            ReadUpTo(after, t, message, files, k + 1) && after == s.(tasks := after.tasks)
  {
    assert files[k] in files;
    assert files[..k + 1] == files[..k] + [files[k]];
  }

  // With every document there, the ZIP is written and reported, and the job is done.
  lemma ZipRun(s: State, id: JobId, t: TaskId) returns (events: seq<Event>)
    requires id in s.db.jobs && s.db.jobs[id].status == ASSEMBLING && id in s.plans && t !in s.tasks
    requires var files := s.plans[id].files;
             && AssembleZip(id, |files|) in s.work && DistinctNames(files) && PdfNames(s.blobs, id) == Names(files)
             && forall f :: f in files ==> PdfPath(id, f.fileName) in s.blobs && s.blobs[PdfPath(id, f.fileName)].Pdf?
    ensures Downloadable(Run(s, events), id)
  {
    hide Exec, Run, DoStartZip, DoWriteZip;
    var files := s.plans[id].files;
    var message := AssembleZip(id, |files|);
    NamesCount(files);
    var s1 := s.(tasks := s.tasks[t := Zipping(message, Names(files), map[])]);
    WorkerSteps(s, StartZip(t, message));
    StartsZip(s, t, message, Names(files));
    RunOne(s, StartZip(t, message));
    var reading := ReadAll(s1, t, message, files, |files|);
    assert files[..|files|] == files;
    var s2 := Run(s1, reading);
    RunConcat(s, [StartZip(t, message)], reading);
    WorkerSteps(s2, WriteZip(t));
    var s3 := Exec(s2, WriteZip(t));
    WritesZip(s2, t, id);
    RunNext(s, [StartZip(t, message)] + reading, WriteZip(t));
    WorkerSteps(s3, Publish(t));
    var s4 := Exec(s3, Publish(t));
    RunNext(s, [StartZip(t, message)] + reading + [WriteZip(t)], Publish(t));
    ZipResultEffect(s4, id);
    RunNext(s, [StartZip(t, message)] + reading + [WriteZip(t)] + [Publish(t)], ApplyResult(ZipDone(id)));
    events := [StartZip(t, message)] + reading + [WriteZip(t)] + [Publish(t)] + [ApplyResult(ZipDone(id))];
  }

  lemma StartsZip(s: State, t: TaskId, message: WorkMessage, names: set<string>)
    requires t !in s.tasks && message in s.work && message.AssembleZip?
    requires PdfNames(s.blobs, message.job) == names && |names| == message.expectedFiles
    ensures DoStartZip(s, StartZip(t, message)) == s.(tasks := s.tasks[t := Zipping(message, names, map[])])
  {
    hide PdfNames;
  }

  lemma WritesZip(s: State, t: TaskId, id: JobId)
    requires t in s.tasks && s.tasks[t].Zipping? && s.tasks[t].message.job == id && s.tasks[t].entries.Keys == s.tasks[t].names
    ensures var after := DoWriteZip(s, t);
            && after.db == s.db && ZipPath(id) in after.blobs && t in after.tasks && after.tasks[t] == Reporting(s.tasks[t].message, ZipDone(id))
  {
  }

  // ---------- from its creation ----------

  // Whatever the run before, a job that is created can be dispatched, rendered and assembled, and then its
  // ZIP can be downloaded, complete.
  lemma CreatedJobFinishes(events: seq<Event>, e: Event, id: JobId)
    returns (dispatch: seq<Event>, render: seq<Event>, zip: seq<Event>)
    requires id !in Run(INITIAL, events).db.jobs && id in Run(INITIAL, events + [e]).db.jobs
    ensures var created, dispatched := events + [e], events + [e] + dispatch;
            var rendered, zipped := dispatched + render, dispatched + render + zip;
            && HasStatus(Run(INITIAL, created), id, PREPARING) && HasStatus(Run(INITIAL, dispatched), id, RUNNING)
            && HasStatus(Run(INITIAL, rendered), id, ASSEMBLING) && HasStatus(Run(INITIAL, zipped), id, DONE)
            && Downloadable(Run(INITIAL, zipped), id)
  {
    hide Run, Exec, DoneUpTo, PlanBatches, Inv, FullZip;
    var before := Run(INITIAL, events);
    RunNext(INITIAL, events, e);
    var created := Exec(before, e);
    NewJobsPrepare(before, e, id);
    InvAfter(events + [e]);
    PlanOfJob(created, id);
    NoRowsYet(before, e, id);
    var t := FreshTask(created.tasks);
    dispatch := DispatchRun(created, id);
    RunConcat(INITIAL, events + [e], dispatch);
    var s1 := Run(created, dispatch);
    InvAfter(events + [e] + dispatch);
    PlanOfJob(s1, id);
    render := RenderRest(s1, id, 0, t);
    RunConcat(INITIAL, events + [e] + dispatch, render);
    var s2 := Run(s1, render);
    InvAfter(events + [e] + dispatch + render);
    AllPdfsThere(s2, id);
    zip := ZipRun(s2, id, t);
    RunConcat(INITIAL, events + [e] + dispatch + render, zip);
  }

  predicate HasStatus(s: State, id: JobId, status: Status) {
    id in s.db.jobs && s.db.jobs[id].status == status
  }

  lemma InvAfter(events: seq<Event>)
    ensures Inv(Run(INITIAL, events))
  {
    hide Inv, Run;
    InitialInv();
    RunKeepsInv(INITIAL, events);
  }

  lemma PlanOfJob(s: State, id: JobId)
    requires Inv(s) && id in s.db.jobs
    ensures id in s.plans && s.db.jobs[id].total == |s.plans[id].files| && PlanBatches(s.plans[id]) != []
  {
    hide DbInv, NetInv, ZipKept, ProgressInv, FilesKnown, Batches;
    assert PlanShape(s.db.jobs[id], s.plans[id]);
    BatchesReachEnd(s.plans[id].files, s.plans[id].batchSize);
  }

  lemma NoRowsYet(s: State, e: Event, id: JobId)
    requires id !in s.db.jobs && id in Exec(s, e).db.jobs && id in Exec(s, e).plans
    ensures !Exec(s, e).plans[id].rowsCreated
  {
    hide Exec, PlanBatches, DoApplyResult, Revert, Reserve, NewFiles, OldFiles, Plannable;
    Dispatched(s, e);
    if e.CreateJob? {
      if e.job !in s.db.jobs && Reserve(s.db, e.job, e.key, e.groups, |e.rerendered|).Accepted? {
        ReservedJob(s.db, e.job, e.key, e.groups, |e.rerendered|);
      }
    } else if MovesJobs(e) {
      MoversKeepJobs(s, e);
      assert false;
    } else {
      QuietEvents(s, e);
      assert false;
    }
  }

  lemma {:induction false} FreshTask(tasks: map<TaskId, Task>) returns (t: TaskId)
    ensures t !in tasks
  {
    t := FreshNumber(tasks.Keys);
  }

  lemma {:induction false} FreshNumber(used: set<nat>) returns (n: nat)
    ensures forall u: nat :: u in used ==> u < n
  {
    if used == {} {
      n := 0;
    } else {
      var u :| u in used;
      var m := FreshNumber(used - {u});
      n := if u < m then m else u + 1;
      forall v: nat | v in used
        ensures v < n
      {
        assert v == u || v in used - {u};
      }
    }
  }

  // All batches done: every planned document is there, and no other.
  lemma AllPdfsThere(s: State, id: JobId)
    requires Inv(s) && id in s.plans && DoneUpTo(s, id, |PlanBatches(s.plans[id])|)
    ensures var files := s.plans[id].files;
            && DistinctNames(files) && PdfNames(s.blobs, id) == Names(files)
            && forall f :: f in files ==> PdfPath(id, f.fileName) in s.blobs && s.blobs[PdfPath(id, f.fileName)].Pdf?
  {
    hide DbInv, ProgressInv, ZipKept, PlanBatches;
    var files := s.plans[id].files;
    assert PlanShape(s.db.jobs[id], s.plans[id]);
    ListedNamesArePlanned(s.plans, s.blobs, id);
    forall f | f in files
      ensures PdfPath(id, f.fileName) in s.blobs && s.blobs[PdfPath(id, f.fileName)].Pdf?
    {
      var b, i := InSomeBatch(s.plans[id], f);
      assert HasPdfs(s.blobs, id, PlanBatches(s.plans[id])[b]);
      assert BlobOk(s.plans, PdfPath(id, f.fileName), s.blobs[PdfPath(id, f.fileName)]);
    }
    forall n | n in Names(files)
      ensures n in PdfNames(s.blobs, id)
    {
      var f :| f in files && f.fileName == n;
      assert PdfPath(id, f.fileName) in s.blobs;
    }
  }

  lemma InSomeBatch(plan: Plan, f: PlannedFile) returns (b: nat, i: nat)
    requires plan.batchSize > 0 && f in plan.files
    ensures b < |PlanBatches(plan)| && i < |PlanBatches(plan)[b]| && PlanBatches(plan)[b][i] == f
  {
    FlattenUndoesBatches(plan.files, plan.batchSize);
    b, i := InFlattened(PlanBatches(plan), f);
  }

  lemma {:induction false} InFlattened<T>(batches: seq<seq<T>>, x: T) returns (b: nat, i: nat)
    requires x in Flatten(batches)
    ensures b < |batches| && i < |batches[b]| && batches[b][i] == x
  {
    if x in batches[0] {
      b := 0;
      i :| i < |batches[0]| && batches[0][i] == x;
    } else {
      var rest, j := InFlattened(batches[1..], x);
      b, i := rest + 1, j;
    }
  }
}
