/** The bulk PDF job as a transition system: the backend's database, the two queues, the blobs, and
    the worker's attempts. Every database transaction and every Storage call is one event; an event
    that the source refuses leaves the state as it was, so a run is any sequence of events. */
module Protocol {
  import opened Numbering
  import opened Batching

  type JobId = nat
  type DocumentId = nat
  type SettlementId = nat
  type TaskId = nat

  datatype DocumentType = LIQUIDACION | MANDAMIENTO

  datatype Status = PREPARING | RUNNING | ASSEMBLING | DONE | FAILED | EXPIRED

  // One consecutive per municipality, year and kind of document.
  datatype CounterKey = CounterKey(municipality: nat, year: nat, documentType: DocumentType)

  // A resolution or a payment order.
  datatype Document = Document(key: CounterKey, sequence: nat, job: Option<JobId>)

  datatype Settlement = Settlement(municipality: nat, replaced: bool, resolution: Option<DocumentId>, order: Option<DocumentId>)

  datatype Range = Range(first: nat, last: nat)

  datatype Job = Job(key: CounterKey, status: Status, total: nat, completed: nat, range: Option<Range>)

  datatype BatchRow = BatchRow(documentCount: nat, done: bool, attempts: nat)

  datatype Database = Database(
    counters: map<CounterKey, nat>,
    jobs: map<JobId, Job>,
    batches: map<JobId, seq<BatchRow>>,
    documents: map<DocumentId, Document>,
    settlements: map<SettlementId, Settlement>,
    nextDocument: nat)

  datatype Refusal = NOTHING_TO_GENERATE | BULK_GENERATION_IN_PROGRESS | CONCURRENT_GENERATION

  datatype Outcome<+T> = Accepted(value: T) | Refused(reason: Refusal)

  // ---------- transactions of the backend ----------

  predicate Active(status: Status) {
    status == PREPARING || status == RUNNING || status == ASSEMBLING
  }

  predicate BatchPhase(status: Status) {
    status == PREPARING || status == RUNNING
  }

  const ACTIVE_STATUSES: set<Status> := {PREPARING, RUNNING, ASSEMBLING}

  function CounterOf(counters: map<CounterKey, nat>, key: CounterKey): nat {
    if key in counters then counters[key] else 0
  }

  function Counter(db: Database, key: CounterKey): nat {
    CounterOf(db.counters, key)
  }

  predicate HasActiveJob(db: Database, municipality: nat) {
    exists j :: j in db.jobs && db.jobs[j].key.municipality == municipality && Active(db.jobs[j].status)
  }

  function Link(settlement: Settlement, documentType: DocumentType): Option<DocumentId> {
    if documentType == LIQUIDACION then settlement.resolution else settlement.order
  }

  function WithLink(settlement: Settlement, documentType: DocumentType, link: Option<DocumentId>): Settlement {
    if documentType == LIQUIDACION then settlement.(resolution := link) else settlement.(order := link)
  }

  // The document each listed settlement goes to: group i gets document `first + i`.
  function LinkTargets(groups: seq<seq<SettlementId>>, first: DocumentId): map<SettlementId, DocumentId> {
    if groups == [] then map[]
    else
      var last := |groups| - 1;
      var group := groups[last];
      LinkTargets(groups[..last], first) + map s | s in group :: first + last
  }

  // The documents of a run of `n` consecutive numbers after the counter.
  function IssuedDocuments(key: CounterKey, counter: nat, first: DocumentId, n: nat, job: Option<JobId>): (issued: map<DocumentId, Document>)
    ensures forall d :: d in issued <==> first <= d < first + n
    ensures forall d :: d in issued ==> issued[d] == Document(key, counter + 1 + (d - first), job)
  {
    if n == 0 then map[]
    else IssuedDocuments(key, counter, first, n - 1, job)[first + n - 1 := Document(key, counter + n, job)]
  }

  predicate Distinct<T(==)>(items: seq<T>) {
    forall i, k :: 0 <= i < k < |items| ==> items[i] != items[k]
  }

  // The guard of the linking statement, on every listed settlement: the number of rows it updates is
  // the number of ids only when the ids are distinct and each row passes.
  predicate Linkable(db: Database, documentType: DocumentType, groups: seq<seq<SettlementId>>, currentOnly: bool) {
    && Distinct(Flatten(groups))
    && (forall s :: s in Flatten(groups) ==>
          && s in db.settlements
          && Link(db.settlements[s], documentType) == None
          && (currentOnly ==> !db.settlements[s].replaced))
  }

  // Numbers the groups after the counter, creates their documents and links the settlements.
  function Issue(db: Database, key: CounterKey, groups: seq<seq<SettlementId>>, job: Option<JobId>): Database {
    var counter, first := Counter(db, key), db.nextDocument;
    var targets := LinkTargets(groups, first);
    db.(
      counters := db.counters[key := counter + |groups|],
      documents := db.documents + IssuedDocuments(key, counter, first, |groups|, job),
      settlements := map s | s in db.settlements ::
        if s in targets then WithLink(db.settlements[s], key.documentType, Some(targets[s])) else db.settlements[s],
      nextDocument := first + |groups|)
  }

  // Individual generation of the panel. The liquidation guard does not look at replacedAt.
  function IssueSingle(db: Database, key: CounterKey, groups: seq<seq<SettlementId>>): Outcome<Database> {
    if groups == [] then Refused(NOTHING_TO_GENERATE)
    else if HasActiveJob(db, key.municipality) then Refused(BULK_GENERATION_IN_PROGRESS)
    else if !Linkable(db, key.documentType, groups, key.documentType == MANDAMIENTO) then Refused(CONCURRENT_GENERATION)
    else Accepted(Issue(db, key, groups, None))
  }

  // Reservation of a bulk job: the job, its whole range of numbers, its documents and its links.
  function Reserve(db: Database, id: JobId, key: CounterKey, groups: seq<seq<SettlementId>>, rerendered: nat): Outcome<Database> {
    if |groups| + rerendered == 0 then Refused(NOTHING_TO_GENERATE)
    else if HasActiveJob(db, key.municipality) then Refused(BULK_GENERATION_IN_PROGRESS)
    else
      var counter := Counter(db, key);
      var range := if groups == [] then None else Some(Range(counter + 1, counter + |groups|));
      // Locking the counter inserts its row when it is missing.
      var withJob := db.(
        counters := db.counters[key := counter],
        jobs := db.jobs[id := Job(key, PREPARING, |groups| + rerendered, 0, range)]);
      if groups == [] then Accepted(withJob)
      else if !Linkable(db, key.documentType, groups, true) then Refused(CONCURRENT_GENERATION)
      else Accepted(Issue(withJob, key, groups, Some(id)))
  }

  // Value the counter goes back to, or None when someone took numbers after the job.
  function CounterAfterRevert(counter: nat, range: Range): Option<int> {
    if counter == range.last then Some(range.first - 1) else None
  }

  predicate IssuedBy(documents: map<DocumentId, Document>, link: Option<DocumentId>, id: JobId) {
    link.Some? && link.value in documents && documents[link.value].job == Some(id)
  }

  function Unlink(settlement: Settlement, documents: map<DocumentId, Document>, id: JobId): Settlement {
    Settlement(
      settlement.municipality,
      settlement.replaced,
      if IssuedBy(documents, settlement.resolution, id) then None else settlement.resolution,
      if IssuedBy(documents, settlement.order, id) then None else settlement.order)
  }

  function UnlinkAll(settlements: map<SettlementId, Settlement>, documents: map<DocumentId, Document>, id: JobId): map<SettlementId, Settlement> {
    map s | s in settlements :: Unlink(settlements[s], documents, id)
  }

  function DocumentsWithout(documents: map<DocumentId, Document>, id: JobId): map<DocumentId, Document> {
    map d | d in documents && documents[d].job != Some(id) :: documents[d]
  }

  function CountersAfterRevert(db: Database, job: Job): map<CounterKey, nat> {
    if job.range.None? then db.counters
    else
      var target := CounterAfterRevert(Counter(db, job.key), job.range.value);
      // The lock inserts the counter row when it is missing.
      db.counters[job.key := if target.Some? && target.value >= 0 then target.value else Counter(db, job.key)]
  }

  // All or nothing: the range goes back, the job's documents and links go, the job fails.
  function Revert(db: Database, id: JobId, fromStatuses: set<Status>): Database {
    if id !in db.jobs || db.jobs[id].status !in fromStatuses then db
    else
      db.(
        counters := CountersAfterRevert(db, db.jobs[id]),
        settlements := UnlinkAll(db.settlements, db.documents, id),
        documents := DocumentsWithout(db.documents, id),
        batches := db.batches - {id},
        jobs := db.jobs[id := db.jobs[id].(status := FAILED)])
  }

  datatype Marked = Marked(job: Job, rows: seq<BatchRow>, assemble: bool)

  predicate AllDone(rows: seq<BatchRow>) {
    forall b :: 0 <= b < |rows| ==> rows[b].done
  }

  // One batch result on the locked job: marks the row once, adds its documents, and starts the ZIP
  // with the last one.
  function MarkBatch(job: Job, rows: seq<BatchRow>, batchIndex: int, documentCount: nat, attempt: nat): Marked {
    if !BatchPhase(job.status) || !(0 <= batchIndex < |rows|) || rows[batchIndex].done then Marked(job, rows, false)
    else
      var marked := rows[batchIndex := rows[batchIndex].(done := true, attempts := attempt)];
      var counted := job.(completed := job.completed + documentCount);
      if AllDone(marked) then Marked(counted.(status := ASSEMBLING), marked, true)
      else Marked(counted, marked, false)
  }

  function ApplyBatchDone(db: Database, id: JobId, batchIndex: int, documentCount: nat, attempt: nat): (Database, bool) {
    if id !in db.jobs || id !in db.batches then (db, false)
    else
      var marked := MarkBatch(db.jobs[id], db.batches[id], batchIndex, documentCount, attempt);
      (db.(jobs := db.jobs[id := marked.job], batches := db.batches[id := marked.rows]), marked.assemble)
  }

  // Moves a job from one status to the next, if it is there.
  function Advance(db: Database, id: JobId, from: Status, to: Status): Database {
    if id in db.jobs && db.jobs[id].status == from then db.(jobs := db.jobs[id := db.jobs[id].(status := to)])
    else db
  }

  // ---------- the whole system ----------

  // One file of a job: the document it stands for and its name in the ZIP.
  datatype PlannedFile = PlannedFile(document: DocumentId, fileName: string)

  // What the request that created a job keeps in memory while it enqueues it.
  datatype Plan = Plan(files: seq<PlannedFile>, batchSize: nat, prefix: string, rowsCreated: bool, uploaded: set<nat>, sent: set<nat>)

  datatype WorkMessage =
    | RenderBatch(job: JobId, batchIndex: nat)
    | AssembleZip(job: JobId, expectedFiles: nat)

  datatype Result =
    | BatchDone(job: JobId, batchIndex: nat, documentCount: nat, attempt: nat)
    | BatchFailed(job: JobId, batchIndex: nat)
    | ZipDone(job: JobId)
    | ZipFailed(job: JobId)

  datatype Path =
    | InputPath(job: JobId, batchIndex: nat)
    | PdfPath(job: JobId, fileName: string)
    | ZipPath(job: JobId)

  datatype Blob =
    | BatchInput(files: seq<PlannedFile>)
    | Pdf(file: PlannedFile)
    | Zip(entries: map<string, PlannedFile>)

  // One attempt of the worker at a message, from the moment it has read its input or listing.
  datatype Task =
    | Rendering(message: WorkMessage, files: seq<PlannedFile>, written: set<nat>, attempt: nat)
    | Zipping(message: WorkMessage, names: set<string>, entries: map<string, PlannedFile>)
    | Reporting(message: WorkMessage, result: Result)
    | Deleting(message: WorkMessage)

  datatype State = State(
    db: Database,
    plans: map<JobId, Plan>,
    work: multiset<WorkMessage>,
    results: multiset<Result>,
    blobs: map<Path, Blob>,
    tasks: map<TaskId, Task>)

  datatype Event =
    // the backend and the panel
    | CreateJob(job: JobId, key: CounterKey, groups: seq<seq<SettlementId>>, rerendered: seq<DocumentId>, batchSize: nat, prefix: string)
    | CreateRows(job: JobId)
    | UploadInput(job: JobId, batchIndex: nat)
    | SendBatch(job: JobId, batchIndex: nat)
    | FinishDispatch(job: JobId)
    | FailDispatch(job: JobId)
    | GenerateSingle(key: CounterKey, groups: seq<seq<SettlementId>>)
    | ApplyResult(result: Result)
    | ApplyResultButLoseCommit(result: Result)
    | DropResult(result: Result)
    | DeleteRows(job: JobId)
    | RecoverInterrupted(job: JobId)
    | FailStalled(job: JobId)
    | Expire(job: JobId)
    | DeleteBlob(path: Path)
    | AddSettlement(settlement: SettlementId, municipality: nat)
    | ReplaceSettlement(settlement: SettlementId)
    // the worker
    | StartRender(task: TaskId, message: WorkMessage, attempt: nat)
    | WritePdf(task: TaskId, index: nat)
    | FinishRender(task: TaskId)
    | StartZip(task: TaskId, message: WorkMessage)
    | ReadPdf(task: TaskId, fileName: string)
    | WriteZip(task: TaskId)
    | GiveUp(task: TaskId, message: WorkMessage)
    | Publish(task: TaskId)
    | DeleteMessage(task: TaskId)
    | Crash(task: TaskId)

  function PlanBatches(plan: Plan): seq<seq<PlannedFile>> {
    if plan.batchSize == 0 then [] else Batches(plan.files, plan.batchSize)
  }

  function Names(files: seq<PlannedFile>): set<string> {
    set f | f in files :: f.fileName
  }

  function FileOf(db: Database, document: DocumentId, prefix: string): PlannedFile
    requires document in db.documents
  {
    var number := NumberText(db.documents[document].key.year, db.documents[document].sequence);
    PlannedFile(document, FileName(prefix, number))
  }

  // What planning guarantees: listed settlements of the municipality, and distinct resolutions of it
  // to render again (payment orders never are).
  predicate Plannable(db: Database, key: CounterKey, groups: seq<seq<SettlementId>>, rerendered: seq<DocumentId>) {
    && key.year > 0
    && (forall s :: s in Flatten(groups) ==> s in db.settlements && db.settlements[s].municipality == key.municipality)
    && Distinct(rerendered)
    && (key.documentType == MANDAMIENTO ==> rerendered == [])
    && (forall d :: d in rerendered ==>
          && d in db.documents
          && db.documents[d].key.municipality == key.municipality
          && db.documents[d].key.documentType == LIQUIDACION)
  }

  function NewFiles(key: CounterKey, counter: nat, first: DocumentId, n: nat, prefix: string): seq<PlannedFile> {
    seq(n, i requires 0 <= i < n => PlannedFile(first + i, FileName(prefix, NumberText(key.year, counter + 1 + i))))
  }

  function OldFiles(db: Database, rerendered: seq<DocumentId>, prefix: string): seq<PlannedFile>
    requires forall d :: d in rerendered ==> d in db.documents
  {
    seq(|rerendered|, i requires 0 <= i < |rerendered| => FileOf(db, rerendered[i], prefix))
  }

  function DoCreateJob(s: State, e: Event): State
    requires e.CreateJob?
  {
    if e.job in s.db.jobs || e.batchSize == 0 || !Plannable(s.db, e.key, e.groups, e.rerendered) then s
    else
      var outcome := Reserve(s.db, e.job, e.key, e.groups, |e.rerendered|);
      if outcome.Refused? then s
      else
        var files := NewFiles(e.key, Counter(s.db, e.key), s.db.nextDocument, |e.groups|, e.prefix)
                     + OldFiles(s.db, e.rerendered, e.prefix);
        s.(db := outcome.value, plans := s.plans[e.job := Plan(files, e.batchSize, e.prefix, false, {}, {})])
  }

  function FreshRows(counts: seq<nat>): seq<BatchRow> {
    seq(|counts|, b requires 0 <= b < |counts| => BatchRow(counts[b], false, 0))
  }

  function DoCreateRows(s: State, id: JobId): State {
    if id !in s.plans || s.plans[id].rowsCreated then s
    else
      var plan := s.plans[id];
      s.(db := s.db.(batches := s.db.batches[id := FreshRows(Lengths(PlanBatches(plan)))]),
         plans := s.plans[id := plan.(rowsCreated := true)])
  }

  function DoUploadInput(s: State, id: JobId, batchIndex: nat): State {
    if id !in s.plans || !s.plans[id].rowsCreated || batchIndex >= |PlanBatches(s.plans[id])| then s
    else
      var plan := s.plans[id];
      s.(blobs := s.blobs[InputPath(id, batchIndex) := BatchInput(PlanBatches(plan)[batchIndex])],
         plans := s.plans[id := plan.(uploaded := plan.uploaded + {batchIndex})])
  }

  function DoSendBatch(s: State, id: JobId, batchIndex: nat): State {
    if id !in s.plans || batchIndex !in s.plans[id].uploaded then s
    else
      s.(work := s.work + multiset{RenderBatch(id, batchIndex)},
         plans := s.plans[id := s.plans[id].(sent := s.plans[id].sent + {batchIndex})])
  }

  predicate AllSent(plan: Plan) {
    plan.rowsCreated && forall b :: 0 <= b < |PlanBatches(plan)| ==> b in plan.sent
  }

  function DoApplyResult(s: State, result: Result): State {
    if result !in s.results then s
    else
      match result
      case BatchDone(id, batchIndex, documentCount, attempt) =>
        var (db, assemble) := ApplyBatchDone(s.db, id, batchIndex, documentCount, attempt);
        s.(db := db,
           work := if assemble then s.work + multiset{AssembleZip(id, db.jobs[id].total)} else s.work)
      case BatchFailed(id, _) => s.(db := Revert(s.db, id, {PREPARING, RUNNING}))
      case ZipDone(id) => s.(db := Advance(s.db, id, ASSEMBLING, DONE))
      case ZipFailed(id) => s.(db := Revert(s.db, id, {ASSEMBLING}))
  }

  // The ZIP message is sent inside the transaction; a commit that fails afterwards loses everything
  // but that message.
  function DoLoseCommit(s: State, result: Result): State {
    if result !in s.results || !result.BatchDone? then s
    else
      var (db, assemble) := ApplyBatchDone(s.db, result.job, result.batchIndex, result.documentCount, result.attempt);
      if assemble then s.(work := s.work + multiset{AssembleZip(result.job, db.jobs[result.job].total)}) else s
  }

  // Cleanup removes everything of a failed or expired job, and all but the ZIP of a finished one.
  predicate Deletable(db: Database, path: Path) {
    path.job in db.jobs &&
    (db.jobs[path.job].status == FAILED || db.jobs[path.job].status == EXPIRED
     || (db.jobs[path.job].status == DONE && !path.ZipPath?))
  }

  function DoStartRender(s: State, e: Event): (after: State)
    requires e.StartRender?
    ensures after.db == s.db && after.plans == s.plans
  {
    if e.task in s.tasks || e.message !in s.work || !e.message.RenderBatch? then s
    else
      var input := InputPath(e.message.job, e.message.batchIndex);
      if input in s.blobs && s.blobs[input].BatchInput? then
        s.(tasks := s.tasks[e.task := Rendering(e.message, s.blobs[input].files, {}, e.attempt)])
      else
        s.(tasks := s.tasks[e.task := Reporting(e.message, BatchFailed(e.message.job, e.message.batchIndex))])
  }

  function DoWritePdf(s: State, task: TaskId, index: nat): (after: State)
    ensures after.db == s.db && after.plans == s.plans
  {
    if task !in s.tasks || !s.tasks[task].Rendering? || index >= |s.tasks[task].files| then s
    else
      var t := s.tasks[task];
      s.(blobs := s.blobs[PdfPath(t.message.job, t.files[index].fileName) := Pdf(t.files[index])],
         tasks := s.tasks[task := t.(written := t.written + {index})])
  }

  function DoFinishRender(s: State, task: TaskId): (after: State)
    ensures after.db == s.db && after.plans == s.plans
  {
    if task !in s.tasks || !s.tasks[task].Rendering? || !s.tasks[task].message.RenderBatch?
       || exists i :: 0 <= i < |s.tasks[task].files| && i !in s.tasks[task].written then s
    else
      var t := s.tasks[task];
      s.(tasks := s.tasks[task := Reporting(t.message, BatchDone(t.message.job, t.message.batchIndex, |t.files|, t.attempt))])
  }

  function PdfNames(blobs: map<Path, Blob>, id: JobId): set<string> {
    set p | p in blobs && p.PdfPath? && p.job == id :: p.fileName
  }

  function DoStartZip(s: State, e: Event): (after: State)
    requires e.StartZip?
    ensures after.db == s.db && after.plans == s.plans
  {
    if e.task in s.tasks || e.message !in s.work || !e.message.AssembleZip? then s
    else
      var names := PdfNames(s.blobs, e.message.job);
      if |names| != e.message.expectedFiles then
        s.(tasks := s.tasks[e.task := Reporting(e.message, ZipFailed(e.message.job))])
      else
        s.(tasks := s.tasks[e.task := Zipping(e.message, names, map[])])
  }

  function DoReadPdf(s: State, task: TaskId, fileName: string): (after: State)
    ensures after.db == s.db && after.plans == s.plans
  {
    if task !in s.tasks || !s.tasks[task].Zipping? || fileName !in s.tasks[task].names then s
    else
      var t := s.tasks[task];
      var path := PdfPath(t.message.job, fileName);
      if path in s.blobs && s.blobs[path].Pdf? then
        s.(tasks := s.tasks[task := t.(entries := t.entries[fileName := s.blobs[path].file])])
      else s
  }

  function DoWriteZip(s: State, task: TaskId): (after: State)
    ensures after.db == s.db && after.plans == s.plans
  {
    if task !in s.tasks || !s.tasks[task].Zipping? || s.tasks[task].entries.Keys != s.tasks[task].names then s
    else
      var t := s.tasks[task];
      s.(blobs := s.blobs[ZipPath(t.message.job) := Zip(t.entries)],
         tasks := s.tasks[task := Reporting(t.message, ZipDone(t.message.job))])
  }

  function FailureOf(message: WorkMessage): Result {
    match message
    case RenderBatch(id, batchIndex) => BatchFailed(id, batchIndex)
    case AssembleZip(id, _) => ZipFailed(id)
  }

  // An attempt may fail at any point: on arrival when the attempts are exhausted, or while it works.
  function DoGiveUp(s: State, task: TaskId, message: WorkMessage): (after: State)
    ensures after.db == s.db && after.plans == s.plans
  {
    if task in s.tasks then
      var t := s.tasks[task];
      if t.Rendering? || t.Zipping? then s.(tasks := s.tasks[task := Reporting(t.message, FailureOf(t.message))]) else s
    else if message in s.work then s.(tasks := s.tasks[task := Reporting(message, FailureOf(message))])
    else s
  }

  function DoPublish(s: State, task: TaskId): (after: State)
    ensures after.db == s.db && after.plans == s.plans
  {
    if task !in s.tasks || !s.tasks[task].Reporting? then s
    else
      s.(results := s.results + multiset{s.tasks[task].result},
         tasks := s.tasks[task := Deleting(s.tasks[task].message)])
  }

  function DoDeleteMessage(s: State, task: TaskId): (after: State)
    ensures after.db == s.db && after.plans == s.plans
  {
    if task !in s.tasks || !s.tasks[task].Deleting? then s
    else s.(work := s.work - multiset{s.tasks[task].message}, tasks := s.tasks - {task})
  }

  function DoFinishDispatch(s: State, id: JobId): State {
    if id in s.plans && AllSent(s.plans[id]) then s.(db := Advance(s.db, id, PREPARING, RUNNING)) else s
  }

  function DoRevert(s: State, id: JobId, fromStatuses: set<Status>): State {
    s.(db := Revert(s.db, id, fromStatuses))
  }

  function DoGenerateSingle(s: State, key: CounterKey, groups: seq<seq<SettlementId>>): State {
    if !Plannable(s.db, key, groups, []) then s
    else
      var outcome := IssueSingle(s.db, key, groups);
      if outcome.Accepted? then s.(db := outcome.value) else s
  }

  function DoDeleteRows(s: State, id: JobId): State {
    if id in s.db.jobs && !Active(s.db.jobs[id].status) then s.(db := s.db.(batches := s.db.batches - {id})) else s
  }

  function DoExpire(s: State, id: JobId): State {
    s.(db := Advance(s.db, id, DONE, EXPIRED))
  }

  function DoDeleteBlob(s: State, path: Path): State {
    if Deletable(s.db, path) then s.(blobs := s.blobs - {path}) else s
  }

  function DoAddSettlement(s: State, id: SettlementId, municipality: nat): State {
    if id in s.db.settlements then s
    else s.(db := s.db.(settlements := s.db.settlements[id := Settlement(municipality, false, None, None)]))
  }

  function DoReplaceSettlement(s: State, id: SettlementId): State {
    if id !in s.db.settlements then s
    else s.(db := s.db.(settlements := s.db.settlements[id := s.db.settlements[id].(replaced := true)]))
  }

  predicate WorkerEvent(e: Event) {
    e.StartRender? || e.WritePdf? || e.FinishRender? || e.StartZip? || e.ReadPdf? || e.WriteZip? || e.GiveUp? || e.Publish?
    || e.DeleteMessage? || e.Crash?
  }

  // The worker only works on the queues and the blobs.
  function WorkerStep(s: State, e: Event): (after: State)
    requires WorkerEvent(e)
    ensures after.db == s.db && after.plans == s.plans
  {
    match e
    case StartRender(_, _, _) => DoStartRender(s, e)
    case WritePdf(t, i) => DoWritePdf(s, t, i)
    case FinishRender(t) => DoFinishRender(s, t)
    case StartZip(_, _) => DoStartZip(s, e)
    case ReadPdf(t, n) => DoReadPdf(s, t, n)
    case WriteZip(t) => DoWriteZip(s, t)
    case GiveUp(t, m) => DoGiveUp(s, t, m)
    case Publish(t) => DoPublish(s, t)
    case DeleteMessage(t) => DoDeleteMessage(s, t)
    case Crash(t) => s.(tasks := s.tasks - {t})
  }

  function BackendStep(s: State, e: Event): State
    requires !WorkerEvent(e)
  {
    match e
    case CreateJob(_, _, _, _, _, _) => DoCreateJob(s, e)
    case CreateRows(id) => DoCreateRows(s, id)
    case UploadInput(id, b) => DoUploadInput(s, id, b)
    case SendBatch(id, b) => DoSendBatch(s, id, b)
    case FinishDispatch(id) => DoFinishDispatch(s, id)
    case FailDispatch(id) => DoRevert(s, id, ACTIVE_STATUSES)
    case GenerateSingle(key, groups) => DoGenerateSingle(s, key, groups)
    case ApplyResult(r) => DoApplyResult(s, r)
    case ApplyResultButLoseCommit(r) => DoLoseCommit(s, r)
    case DropResult(r) => s.(results := s.results - multiset{r})
    case DeleteRows(id) => DoDeleteRows(s, id)
    case RecoverInterrupted(id) => DoRevert(s, id, ACTIVE_STATUSES)
    case FailStalled(id) => DoRevert(s, id, {RUNNING, ASSEMBLING})
    case Expire(id) => DoExpire(s, id)
    case DeleteBlob(p) => DoDeleteBlob(s, p)
    case AddSettlement(id, municipality) => DoAddSettlement(s, id, municipality)
    case ReplaceSettlement(id) => DoReplaceSettlement(s, id)
  }

  function Exec(s: State, e: Event): State {
    if WorkerEvent(e) then WorkerStep(s, e) else BackendStep(s, e)
  }

  // Which step each event takes.
  lemma DispatchSteps(s: State, e: Event)
    ensures e.CreateJob? ==> Exec(s, e) == DoCreateJob(s, e)
    ensures e.CreateRows? ==> Exec(s, e) == DoCreateRows(s, e.job)
    ensures e.UploadInput? ==> Exec(s, e) == DoUploadInput(s, e.job, e.batchIndex)
    ensures e.SendBatch? ==> Exec(s, e) == DoSendBatch(s, e.job, e.batchIndex)
    ensures e.FinishDispatch? ==> Exec(s, e) == DoFinishDispatch(s, e.job)
  {
    hide DoCreateJob, DoCreateRows, DoUploadInput, DoSendBatch, DoFinishDispatch, DoRevert, DoGenerateSingle, DoApplyResult,
         DoLoseCommit, DoDeleteRows, DoExpire, DoDeleteBlob, DoAddSettlement, DoReplaceSettlement, WorkerStep;
  }

  lemma FailureSteps(s: State, e: Event)
    ensures e.FailDispatch? ==> Exec(s, e) == DoRevert(s, e.job, ACTIVE_STATUSES)
    ensures e.RecoverInterrupted? ==> Exec(s, e) == DoRevert(s, e.job, ACTIVE_STATUSES)
    ensures e.FailStalled? ==> Exec(s, e) == DoRevert(s, e.job, {RUNNING, ASSEMBLING})
    ensures e.ApplyResult? ==> Exec(s, e) == DoApplyResult(s, e.result)
    ensures e.ApplyResultButLoseCommit? ==> Exec(s, e) == DoLoseCommit(s, e.result)
  {
    hide DoCreateJob, DoCreateRows, DoUploadInput, DoSendBatch, DoFinishDispatch, DoRevert, DoGenerateSingle, DoApplyResult,
         DoLoseCommit, DoDeleteRows, DoExpire, DoDeleteBlob, DoAddSettlement, DoReplaceSettlement, WorkerStep;
  }

  lemma CleanupSteps(s: State, e: Event)
    ensures e.DropResult? ==> Exec(s, e) == s.(results := s.results - multiset{e.result})
    ensures e.DeleteRows? ==> Exec(s, e) == DoDeleteRows(s, e.job)
    ensures e.Expire? ==> Exec(s, e) == DoExpire(s, e.job)
    ensures e.DeleteBlob? ==> Exec(s, e) == DoDeleteBlob(s, e.path)
  {
    hide DoCreateJob, DoCreateRows, DoUploadInput, DoSendBatch, DoFinishDispatch, DoRevert, DoGenerateSingle, DoApplyResult,
         DoLoseCommit, DoDeleteRows, DoExpire, DoDeleteBlob, DoAddSettlement, DoReplaceSettlement, WorkerStep;
  }

  lemma PanelSteps(s: State, e: Event)
    ensures e.GenerateSingle? ==> Exec(s, e) == DoGenerateSingle(s, e.key, e.groups)
    ensures e.AddSettlement? ==> Exec(s, e) == DoAddSettlement(s, e.settlement, e.municipality)
    ensures e.ReplaceSettlement? ==> Exec(s, e) == DoReplaceSettlement(s, e.settlement)
    ensures WorkerEvent(e) ==> Exec(s, e) == WorkerStep(s, e)
  {
    hide DoCreateJob, DoCreateRows, DoUploadInput, DoSendBatch, DoFinishDispatch, DoRevert, DoGenerateSingle, DoApplyResult,
         DoLoseCommit, DoDeleteRows, DoExpire, DoDeleteBlob, DoAddSettlement, DoReplaceSettlement, WorkerStep;
  }

  lemma Dispatched(s: State, e: Event)
    ensures e.CreateJob? ==> Exec(s, e) == DoCreateJob(s, e)
    ensures e.CreateRows? ==> Exec(s, e) == DoCreateRows(s, e.job)
    ensures e.UploadInput? ==> Exec(s, e) == DoUploadInput(s, e.job, e.batchIndex)
    ensures e.SendBatch? ==> Exec(s, e) == DoSendBatch(s, e.job, e.batchIndex)
    ensures e.FinishDispatch? ==> Exec(s, e) == DoFinishDispatch(s, e.job)
    ensures e.FailDispatch? ==> Exec(s, e) == DoRevert(s, e.job, ACTIVE_STATUSES)
    ensures e.GenerateSingle? ==> Exec(s, e) == DoGenerateSingle(s, e.key, e.groups)
    ensures e.ApplyResult? ==> Exec(s, e) == DoApplyResult(s, e.result)
    ensures e.ApplyResultButLoseCommit? ==> Exec(s, e) == DoLoseCommit(s, e.result)
    ensures e.DropResult? ==> Exec(s, e) == s.(results := s.results - multiset{e.result})
    ensures e.DeleteRows? ==> Exec(s, e) == DoDeleteRows(s, e.job)
    ensures e.RecoverInterrupted? ==> Exec(s, e) == DoRevert(s, e.job, ACTIVE_STATUSES)
    ensures e.FailStalled? ==> Exec(s, e) == DoRevert(s, e.job, {RUNNING, ASSEMBLING})
    ensures e.Expire? ==> Exec(s, e) == DoExpire(s, e.job)
    ensures e.DeleteBlob? ==> Exec(s, e) == DoDeleteBlob(s, e.path)
    ensures e.AddSettlement? ==> Exec(s, e) == DoAddSettlement(s, e.settlement, e.municipality)
    ensures e.ReplaceSettlement? ==> Exec(s, e) == DoReplaceSettlement(s, e.settlement)
    ensures WorkerEvent(e) ==> Exec(s, e) == WorkerStep(s, e)
  {
    hide Exec;
    DispatchSteps(s, e);
    FailureSteps(s, e);
    CleanupSteps(s, e);
    PanelSteps(s, e);
  }

  function Run(s: State, events: seq<Event>): State {
    if events == [] then s else Exec(Run(s, events[..|events| - 1]), events[|events| - 1])
  }

  const INITIAL: State :=
    State(Database(map[], map[], map[], map[], map[], 0), map[], multiset{}, multiset{}, map[], map[])
}
