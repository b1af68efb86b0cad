/** What every event keeps about plans, progress, messages, attempts and blobs. */
module SystemInvariant {
  import opened Numbering
  import opened Batching
  import opened Protocol
  import opened DatabaseInvariant

  type Plans = map<JobId, Plan>
  type Blobs = map<Path, Blob>
  type Tasks = map<TaskId, Task>

  // ---------- plans ----------

  predicate DistinctNames(files: seq<PlannedFile>) {
    forall i, k :: 0 <= i < k < |files| ==> files[i].fileName != files[k].fileName
  }

  // A document no active job may still hand back.
  predicate Settled(jobs: Jobs, document: Document) {
    document.job.Some? && document.job.value in jobs ==> !Active(jobs[document.job.value].status)
  }

  predicate FileKnown(jobs: Jobs, documents: Documents, id: JobId, file: PlannedFile, prefix: string)
    requires id in jobs
  {
    && file.document in documents
    && documents[file.document].key.municipality == jobs[id].key.municipality
    && documents[file.document].key.documentType == jobs[id].key.documentType
    && file.fileName == FileName(prefix, NumberText(documents[file.document].key.year, documents[file.document].sequence))
    && (documents[file.document].job == Some(id) || Settled(jobs, documents[file.document]))
  }

  ghost predicate FilesKnown(jobs: Jobs, documents: Documents, id: JobId, plan: Plan)
    requires id in jobs
  {
    forall i :: 0 <= i < |plan.files| ==> FileKnown(jobs, documents, id, plan.files[i], plan.prefix)
  }

  ghost predicate PlanShape(job: Job, plan: Plan) {
    && |plan.files| == job.total > 0
    && plan.batchSize > 0
    && DistinctNames(plan.files)
    && (forall b :: b in plan.uploaded ==> plan.rowsCreated && b < |PlanBatches(plan)|)
  }

  ghost predicate PlansInv(jobs: Jobs, documents: Documents, plans: Plans) {
    && plans.Keys == jobs.Keys
    && (forall j :: j in plans ==> PlanShape(jobs[j], plans[j]))
    && (forall j :: j in plans && jobs[j].status != FAILED ==> FilesKnown(jobs, documents, j, plans[j]))
  }

  // ---------- progress ----------

  function DoneSum(rows: seq<BatchRow>): nat {
    if rows == [] then 0 else DoneSum(rows[..|rows| - 1]) + (if rows[|rows| - 1].done then rows[|rows| - 1].documentCount else 0)
  }

  ghost predicate RowsMatch(plan: Plan, rows: seq<BatchRow>) {
    && |rows| == |PlanBatches(plan)|
    && forall b :: 0 <= b < |rows| ==> rows[b].documentCount == |PlanBatches(plan)[b]|
  }

  // The progress of an active job is what its rows say, and it assembles exactly when all are done.
  ghost predicate Progress(job: Job, plan: Plan, hasRows: bool, rows: seq<BatchRow>) {
    && (Active(job.status) && !hasRows ==> job.status == PREPARING && job.completed == 0 && !plan.rowsCreated)
    && (Active(job.status) && hasRows ==>
          plan.rowsCreated && RowsMatch(plan, rows) && job.completed == DoneSum(rows)
          && (job.status == ASSEMBLING <==> AllDone(rows)))
    && (job.status == ASSEMBLING || job.status == DONE || job.status == EXPIRED ==> job.completed == job.total)
  }

  function RowsIn(batches: map<JobId, seq<BatchRow>>, id: JobId): seq<BatchRow> {
    if id in batches then batches[id] else []
  }

  ghost predicate ProgressInv(jobs: Jobs, batches: map<JobId, seq<BatchRow>>, plans: Plans) {
    && batches.Keys <= jobs.Keys
    && forall j :: j in jobs && j in plans ==> Progress(jobs[j], plans[j], j in batches, RowsIn(batches, j))
  }

  // ---------- messages, attempts and blobs ----------

  predicate HasBatch(plans: Plans, id: JobId, batchIndex: nat) {
    id in plans && plans[id].rowsCreated && batchIndex < |PlanBatches(plans[id])|
  }

  predicate MessageOk(plans: Plans, message: WorkMessage) {
    match message
    case RenderBatch(id, b) => HasBatch(plans, id, b)
    case AssembleZip(id, expected) => id in plans && expected == |plans[id].files|
  }

  predicate ResultOk(plans: Plans, result: Result) {
    && result.job in plans
    && (result.BatchDone? ==>
          HasBatch(plans, result.job, result.batchIndex)
          && result.documentCount == |PlanBatches(plans[result.job])[result.batchIndex]|)
  }

  ghost predicate FullZip(plan: Plan, entries: map<string, PlannedFile>) {
    && entries.Keys == Names(plan.files)
    && forall n :: n in entries ==> entries[n] in plan.files && entries[n].fileName == n
  }

  ghost predicate BlobOk(plans: Plans, path: Path, blob: Blob) {
    match path
    case InputPath(id, b) => HasBatch(plans, id, b) && blob == BatchInput(PlanBatches(plans[id])[b])
    case PdfPath(id, n) => id in plans && blob.Pdf? && blob.file in plans[id].files && blob.file.fileName == n
    case ZipPath(id) => id in plans && blob.Zip? && FullZip(plans[id], blob.entries)
  }

  predicate TaskOk(plans: Plans, task: Task) {
    MessageOk(plans, task.message) &&
    match task
    case Rendering(m, files, _, _) => m.RenderBatch? && files == PlanBatches(plans[m.job])[m.batchIndex]
    case Zipping(m, names, entries) =>
      && m.AssembleZip?
      && names <= Names(plans[m.job].files)
      && |names| == m.expectedFiles
      && entries.Keys <= names
      && (forall n :: n in entries ==> entries[n] in plans[m.job].files && entries[n].fileName == n)
    case Reporting(m, result) => ResultOk(plans, result)
    case Deleting(_) => true
  }

  ghost predicate NetInv(plans: Plans, work: multiset<WorkMessage>, results: multiset<Result>, blobs: Blobs, tasks: Tasks) {
    && (forall m :: m in work ==> MessageOk(plans, m))
    && (forall r :: r in results ==> ResultOk(plans, r))
    && (forall p :: p in blobs ==> BlobOk(plans, p, blobs[p]))
    && (forall t :: t in tasks ==> TaskOk(plans, tasks[t]))
  }

  ghost predicate ZipReported(results: multiset<Result>, tasks: Tasks, id: JobId) {
    ZipDone(id) in results || exists t :: t in tasks && tasks[t].Reporting? && tasks[t].result == ZipDone(id)
  }

  predicate Gone(status: Status) {
    status == FAILED || status == EXPIRED
  }

  // A ZIP reported as written stays until its job fails or expires.
  ghost predicate ZipKept(jobs: Jobs, results: multiset<Result>, blobs: Blobs, tasks: Tasks) {
    && (forall j :: j in jobs && !Gone(jobs[j].status) && ZipReported(results, tasks, j) ==> ZipPath(j) in blobs)
    && (forall j :: j in jobs && jobs[j].status == DONE ==> ZipPath(j) in blobs)
  }

  ghost predicate Inv(s: State) {
    && DbInv(s.db)
    && PlansInv(s.db.jobs, s.db.documents, s.plans)
    && ProgressInv(s.db.jobs, s.db.batches, s.plans)
    && NetInv(s.plans, s.work, s.results, s.blobs, s.tasks)
    && ZipKept(s.db.jobs, s.results, s.blobs, s.tasks)
  }

  // ---------- plans only grow ----------

  predicate PlanGrows(before: Plan, after: Plan) {
    && after.files == before.files && after.batchSize == before.batchSize && after.prefix == before.prefix
    && (before.rowsCreated ==> after.rowsCreated)
  }

  predicate PlansGrow(before: Plans, after: Plans) {
    forall j :: j in before ==> j in after && PlanGrows(before[j], after[j])
  }

  lemma PlansGrowKeepsNet(before: Plans, after: Plans, work: multiset<WorkMessage>, results: multiset<Result>, blobs: Blobs, tasks: Tasks)
    requires NetInv(before, work, results, blobs, tasks) && PlansGrow(before, after)
    ensures NetInv(after, work, results, blobs, tasks)
  {
    forall p | p in blobs
      ensures BlobOk(after, p, blobs[p])
    {
      assert BlobOk(before, p, blobs[p]);
    }
    forall t | t in tasks
      ensures TaskOk(after, tasks[t])
    {
      assert TaskOk(before, tasks[t]);
    }
  }

  // ---------- progress of one job ----------

  lemma {:induction false} DoneSumAfterMark(rows: seq<BatchRow>, b: nat, attempt: nat)
    requires b < |rows| && !rows[b].done
    ensures DoneSum(rows[b := rows[b].(done := true, attempts := attempt)]) == DoneSum(rows) + rows[b].documentCount
  {
    var marked, last := rows[b := rows[b].(done := true, attempts := attempt)], |rows| - 1;
    if b < last {
      DoneSumAfterMark(rows[..last], b, attempt);
      assert marked[..last] == rows[..last][b := rows[b].(done := true, attempts := attempt)];
    } else {
      assert marked[..last] == rows[..last];
    }
  }

  lemma {:induction false} SumSnoc(counts: seq<nat>)
    requires counts != []
    ensures Sum(counts) == Sum(counts[..|counts| - 1]) + counts[|counts| - 1]
  {
    if |counts| == 1 {
      assert counts[1..] == [] && counts[..0] == [];
    } else {
      SumSnoc(counts[1..]);
      assert counts[1..][..|counts| - 2] == counts[..|counts| - 1][1..];
    }
  }

  lemma {:induction false} DoneSumOfAllDone(rows: seq<BatchRow>, counts: seq<nat>)
    requires |rows| == |counts| && AllDone(rows)
    requires forall b :: 0 <= b < |rows| ==> rows[b].documentCount == counts[b]
    ensures DoneSum(rows) == Sum(counts)
  {
    if rows != [] {
      SumSnoc(counts);
      DoneSumOfAllDone(rows[..|rows| - 1], counts[..|rows| - 1]);
    }
  }

  lemma {:induction false} DoneSumOfFresh(counts: seq<nat>)
    ensures DoneSum(FreshRows(counts)) == 0
  {
    if counts != [] {
      DoneSumOfFresh(counts[..|counts| - 1]);
      assert FreshRows(counts)[..|counts| - 1] == FreshRows(counts[..|counts| - 1]);
    }
  }

  // When every batch of a plan is done, the documents add up to the plan.
  lemma AllDoneMeansComplete(plan: Plan, rows: seq<BatchRow>)
    requires plan.batchSize > 0 && RowsMatch(plan, rows) && AllDone(rows)
    ensures DoneSum(rows) == |plan.files|
  {
    var batches := PlanBatches(plan);
    BatchTotals(plan.files, plan.batchSize);
    DoneSumOfAllDone(rows, Lengths(batches));
  }

  lemma MarkKeepsProgress(job: Job, plan: Plan, rows: seq<BatchRow>, b: nat, documentCount: nat, attempt: nat)
    requires PlanShape(job, plan) && Progress(job, plan, true, rows)
    requires b < |PlanBatches(plan)| && documentCount == |PlanBatches(plan)[b]|
    ensures var marked := MarkBatch(job, rows, b, documentCount, attempt);
            PlanShape(marked.job, plan) && Progress(marked.job, plan, true, marked.rows)
  {
    var marked := MarkBatch(job, rows, b, documentCount, attempt);
    if BatchPhase(job.status) && b < |rows| && !rows[b].done {
      DoneSumAfterMark(rows, b, attempt);
      if AllDone(marked.rows) {
        AllDoneMeansComplete(plan, marked.rows);
      }
    }
  }
}
