/** What every transaction keeps about numbers, jobs, documents and links. */
module DatabaseInvariant {
  import opened Numbering
  import opened Batching
  import opened Protocol

  // ---------- the invariant ----------

  type Counters = map<CounterKey, nat>
  type Jobs = map<JobId, Job>
  type Documents = map<DocumentId, Document>
  type Settlements = map<SettlementId, Settlement>

  ghost predicate Issued(documents: Documents, key: CounterKey, n: nat) {
    exists d :: d in documents && documents[d].key == key && documents[d].sequence == n
  }

  ghost predicate NumbersInRange(counters: Counters, documents: Documents, nextDocument: nat) {
    forall d :: d in documents ==>
      && d < nextDocument
      && documents[d].key.year > 0
      && 1 <= documents[d].sequence <= CounterOf(counters, documents[d].key)
  }

  predicate SameNumber(d: Document, e: Document) {
    d.key == e.key && d.sequence == e.sequence
  }

  ghost predicate NumbersUnique(documents: Documents) {
    forall d, e :: d in documents && e in documents && SameNumber(documents[d], documents[e]) ==> d == e
  }

  ghost predicate NumbersComplete(counters: Counters, documents: Documents) {
    forall key, n: nat :: 1 <= n <= CounterOf(counters, key) ==> Issued(documents, key, n)
  }

  // The sequences of every key are exactly 1..counter, each once.
  ghost predicate GapFree(counters: Counters, documents: Documents, nextDocument: nat) {
    NumbersInRange(counters, documents, nextDocument) && NumbersUnique(documents) && NumbersComplete(counters, documents)
  }

  ghost predicate OneActiveJob(jobs: Jobs) {
    forall i, j :: i in jobs && j in jobs && Active(jobs[i].status) && Active(jobs[j].status) && i != j ==>
      jobs[i].key.municipality != jobs[j].key.municipality
  }

  predicate InRange(job: Job, document: Document) {
    job.range.Some? && document.key == job.key && job.range.value.first <= document.sequence <= job.range.value.last
  }

  // Nobody numbers past an active job.
  predicate RangeHeld(counters: Counters, job: Job) {
    job.status != FAILED && job.range.Some? ==>
      && 1 <= job.range.value.first <= job.range.value.last <= CounterOf(counters, job.key)
      && (Active(job.status) ==> job.range.value.last == CounterOf(counters, job.key))
  }

  ghost predicate RangesHeld(counters: Counters, jobs: Jobs) {
    forall j :: j in jobs ==> RangeHeld(counters, jobs[j])
  }

  // Until it fails a job owns exactly the documents of its range.
  ghost predicate DocumentsOwned(jobs: Jobs, documents: Documents) {
    && (forall d :: d in documents && documents[d].job.Some? ==>
          documents[d].job.value in jobs && jobs[documents[d].job.value].status != FAILED
          && InRange(jobs[documents[d].job.value], documents[d]))
    && (forall d, j :: d in documents && j in jobs && jobs[j].status != FAILED && InRange(jobs[j], documents[d]) ==>
          documents[d].job == Some(j))
  }

  predicate LinkResolves(documents: Documents, link: Option<DocumentId>, documentType: DocumentType, municipality: nat) {
    link.Some? ==>
      && link.value in documents
      && documents[link.value].key.documentType == documentType
      && documents[link.value].key.municipality == municipality
  }

  predicate SettlementResolves(documents: Documents, s: Settlement) {
    LinkResolves(documents, s.resolution, LIQUIDACION, s.municipality) && LinkResolves(documents, s.order, MANDAMIENTO, s.municipality)
  }

  ghost predicate LinksResolve(documents: Documents, settlements: Settlements) {
    forall s :: s in settlements ==> SettlementResolves(documents, settlements[s])
  }

  ghost predicate DbInv(db: Database) {
    && GapFree(db.counters, db.documents, db.nextDocument)
    && OneActiveJob(db.jobs)
    && RangesHeld(db.counters, db.jobs)
    && DocumentsOwned(db.jobs, db.documents)
    && LinksResolve(db.documents, db.settlements)
  }

  // ---------- issuing ----------

  lemma IssueKeepsGapFree(counters: Counters, documents: Documents, first: nat, key: CounterKey, n: nat, job: Option<JobId>)
    requires GapFree(counters, documents, first) && key.year > 0
    ensures GapFree(
              counters[key := CounterOf(counters, key) + n],
              documents + IssuedDocuments(key, CounterOf(counters, key), first, n, job),
              first + n)
  {
    var counter := CounterOf(counters, key);
    var counters', issued := counters[key := counter + n], IssuedDocuments(key, counter, first, n, job);
    var documents' := documents + issued;
    forall k, m: nat | 1 <= m <= CounterOf(counters', k)
      ensures Issued(documents', k, m)
    {
      if k == key && m > counter {
        var d := first + (m - counter - 1);
        assert d in documents' && documents'[d] == Document(key, m, job);
      } else {
        assert Issued(documents, k, m);
        var d :| d in documents && documents[d].key == k && documents[d].sequence == m;
        assert d in documents' && documents'[d] == documents[d];
      }
    }
    IssueKeepsUnique(counters, documents, first, key, n, job);
  }

  lemma IssueKeepsUnique(counters: Counters, documents: Documents, first: nat, key: CounterKey, n: nat, job: Option<JobId>)
    requires NumbersInRange(counters, documents, first) && NumbersUnique(documents)
    ensures NumbersUnique(documents + IssuedDocuments(key, CounterOf(counters, key), first, n, job))
  {
    var counter := CounterOf(counters, key);
    var issued := IssuedDocuments(key, counter, first, n, job);
    var documents' := documents + issued;
    forall d, e | d in documents' && e in documents' && SameNumber(documents'[d], documents'[e])
      ensures d == e
    {
      if d in documents && e in documents {
        assert documents'[d] == documents[d] && documents'[e] == documents[e];
      }
    }
  }

  lemma {:induction false} LinkTargetsMeaning(groups: seq<seq<SettlementId>>, first: DocumentId)
    ensures forall s :: s in LinkTargets(groups, first) <==> s in Flatten(groups)
    ensures forall s :: s in LinkTargets(groups, first) ==> first <= LinkTargets(groups, first)[s] < first + |groups|
    ensures forall s :: s in LinkTargets(groups, first) ==> s in groups[LinkTargets(groups, first)[s] - first]
  {
    if groups != [] {
      var last := |groups| - 1;
      LinkTargetsMeaning(groups[..last], first);
      FlattenSnoc(groups[..last], groups[last]);
      assert groups == groups[..last] + [groups[last]];
    }
  }

  lemma {:induction false} FlattenSnoc<T>(groups: seq<seq<T>>, group: seq<T>)
    ensures Flatten(groups + [group]) == Flatten(groups) + group
  {
    if groups == [] {
      assert ([group])[1..] == [];
      assert Flatten([group]) == group + Flatten([]);
    } else {
      assert (groups + [group])[1..] == groups[1..] + [group];
      FlattenSnoc(groups[1..], group);
    }
  }

  lemma IssueKeepsLinks(db: Database, key: CounterKey, groups: seq<seq<SettlementId>>, job: Option<JobId>)
    requires LinksResolve(db.documents, db.settlements) && NumbersInRange(db.counters, db.documents, db.nextDocument)
    requires Plannable(db, key, groups, [])
    ensures var next := Issue(db, key, groups, job); LinksResolve(next.documents, next.settlements)
  {
    var next := Issue(db, key, groups, job);
    LinkTargetsMeaning(groups, db.nextDocument);
    forall s | s in next.settlements
      ensures SettlementResolves(next.documents, next.settlements[s])
    {
      assert SettlementResolves(db.documents, db.settlements[s]);
    }
  }

  lemma SingleKeepsDbInv(db: Database, key: CounterKey, groups: seq<seq<SettlementId>>)
    requires DbInv(db) && Plannable(db, key, groups, []) && IssueSingle(db, key, groups).Accepted?
    ensures DbInv(IssueSingle(db, key, groups).value)
  {
    hide GapFree, LinksResolve, RangesHeld, DocumentsOwned, OneActiveJob, Linkable, Issue;
    SingleTables(db, key, groups);
    SinglePartsOf(db, key);
    IssueKeepsGapFree(db.counters, db.documents, db.nextDocument, key, |groups|, None);
    IssueKeepsLinks(db, key, groups, None);
    SingleKeepsOwnership(db.counters, db.documents, db.nextDocument, db.jobs, key, |groups|);
  }

  lemma SinglePartsOf(db: Database, key: CounterKey)
    requires DbInv(db)
    ensures NumbersInRange(db.counters, db.documents, db.nextDocument)
  {
  }

  lemma SingleTables(db: Database, key: CounterKey, groups: seq<seq<SettlementId>>)
    requires IssueSingle(db, key, groups).Accepted?
    ensures IssueSingle(db, key, groups).value == Issue(db, key, groups, None) && !HasActiveJob(db, key.municipality)
    ensures var next := Issue(db, key, groups, None);
            && next.counters == db.counters[key := CounterOf(db.counters, key) + |groups|]
            && next.documents == db.documents + IssuedDocuments(key, CounterOf(db.counters, key), db.nextDocument, |groups|, None)
            && next.nextDocument == db.nextDocument + |groups| && next.jobs == db.jobs
  {
    hide LinkTargets, Linkable;
  }

  // New documents belong to no job, or to a new job that holds exactly their range.
  lemma SingleKeepsOwnership(counters: Counters, documents: Documents, first: nat, jobs: Jobs, key: CounterKey, n: nat)
    requires NumbersInRange(counters, documents, first) && DocumentsOwned(jobs, documents) && RangesHeld(counters, jobs)
    requires forall j :: j in jobs && Active(jobs[j].status) ==> jobs[j].key.municipality != key.municipality
    ensures RangesHeld(counters[key := CounterOf(counters, key) + n], jobs)
    ensures DocumentsOwned(jobs, documents + IssuedDocuments(key, CounterOf(counters, key), first, n, None))
  {
  }

  // `next` is `db` with a new job and the n documents of its range, the first after the counter.
  ghost predicate ReservesRange(db: Database, next: Database, id: JobId, job: Job, n: nat) {
    && NumbersInRange(db.counters, db.documents, db.nextDocument)
    && DocumentsOwned(db.jobs, db.documents) && RangesHeld(db.counters, db.jobs) && OneActiveJob(db.jobs)
    && !HasActiveJob(db, job.key.municipality) && id !in db.jobs && n > 0 && job.status == PREPARING
    && job.range == Some(Range(Counter(db, job.key) + 1, Counter(db, job.key) + n))
    && next.counters == db.counters[job.key := Counter(db, job.key) + n] && next.jobs == db.jobs[id := job]
    && next.documents == db.documents + IssuedDocuments(job.key, Counter(db, job.key), db.nextDocument, n, Some(id))
  }

  lemma NewJobHoldsItsRange(db: Database, next: Database, id: JobId, job: Job, n: nat)
    requires ReservesRange(db, next, id, job, n)
    ensures RangesHeld(next.counters, next.jobs)
  {
    hide DocumentsOwned, IssuedDocuments, NumbersInRange;
  }

  lemma NewJobOwnsItsDocuments(db: Database, next: Database, id: JobId, job: Job, n: nat)
    requires ReservesRange(db, next, id, job, n)
    ensures DocumentsOwned(next.jobs, next.documents)
  {
    hide OneActiveJob;
  }

  lemma NewJobIsTheOnlyActive(db: Database, next: Database, id: JobId, job: Job, n: nat)
    requires ReservesRange(db, next, id, job, n)
    ensures OneActiveJob(next.jobs)
  {
    hide DocumentsOwned, RangesHeld, IssuedDocuments, NumbersInRange;
  }

  lemma NewJobKeepsOwnership(db: Database, next: Database, id: JobId, job: Job, n: nat)
    requires ReservesRange(db, next, id, job, n)
    ensures RangesHeld(next.counters, next.jobs) && DocumentsOwned(next.jobs, next.documents) && OneActiveJob(next.jobs)
  {
    hide RangesHeld, DocumentsOwned, OneActiveJob, NumbersInRange, HasActiveJob, IssuedDocuments;
    NewJobHoldsItsRange(db, next, id, job, n);
    NewJobOwnsItsDocuments(db, next, id, job, n);
    NewJobIsTheOnlyActive(db, next, id, job, n);
  }

  // What an accepted reservation of new documents leaves, table by table.
  lemma ReserveShape(db: Database, id: JobId, key: CounterKey, groups: seq<seq<SettlementId>>, rerendered: nat)
    requires groups != [] && Reserve(db, id, key, groups, rerendered).Accepted?
    ensures var next := Reserve(db, id, key, groups, rerendered).value;
            var counter, n := Counter(db, key), |groups|;
            && next.counters == db.counters[key := counter + n]
            && next.documents == db.documents + IssuedDocuments(key, counter, db.nextDocument, n, Some(id))
            && next.nextDocument == db.nextDocument + n
            && next.jobs == db.jobs[id := Job(key, PREPARING, n + rerendered, 0, Some(Range(counter + 1, counter + n)))]
            && next.batches == db.batches
            && next == Issue(db.(jobs := next.jobs), key, groups, Some(id))
  {
  }

  lemma ReserveKeepsGapFree(db: Database, next: Database, key: CounterKey, n: nat, job: Option<JobId>)
    requires GapFree(db.counters, db.documents, db.nextDocument) && key.year > 0
    requires next.counters == db.counters[key := Counter(db, key) + n] && next.nextDocument == db.nextDocument + n
    requires next.documents == db.documents + IssuedDocuments(key, Counter(db, key), db.nextDocument, n, job)
    ensures GapFree(next.counters, next.documents, next.nextDocument)
  {
    IssueKeepsGapFree(db.counters, db.documents, db.nextDocument, key, n, job);
  }

  lemma ReserveKeepsDbInv(db: Database, id: JobId, key: CounterKey, groups: seq<seq<SettlementId>>, rerendered: nat)
    requires DbInv(db) && Plannable(db, key, groups, []) && id !in db.jobs
    requires Reserve(db, id, key, groups, rerendered).Accepted?
    ensures DbInv(Reserve(db, id, key, groups, rerendered).value)
  {
    if groups == [] {
      ReserveNothingNew(db, id, key, rerendered);
    } else {
      ReserveSomeKeepsDbInv(db, id, key, groups, rerendered);
    }
  }

  lemma ReserveNothingNew(db: Database, id: JobId, key: CounterKey, rerendered: nat)
    requires DbInv(db) && id !in db.jobs && Reserve(db, id, key, [], rerendered).Accepted?
    ensures DbInv(Reserve(db, id, key, [], rerendered).value)
  {
    hide LinksResolve, Issue;
  }

  lemma ReserveSomeKeepsDbInv(db: Database, id: JobId, key: CounterKey, groups: seq<seq<SettlementId>>, rerendered: nat)
    requires DbInv(db) && Plannable(db, key, groups, []) && id !in db.jobs && groups != []
    requires Reserve(db, id, key, groups, rerendered).Accepted?
    ensures DbInv(Reserve(db, id, key, groups, rerendered).value)
  {
    hide Issue, Linkable, LinksResolve, GapFree, RangesHeld, DocumentsOwned, OneActiveJob;
    var next := Reserve(db, id, key, groups, rerendered).value;
    NotActiveYet(db, id, key, groups, rerendered);
    if groups != [] {
      ReserveShape(db, id, key, groups, rerendered);
      ReserveKeepsGapFree(db, next, key, |groups|, Some(id));
      InRangeOfDb(db);
      NewJobKeepsOwnership(db, next, id, next.jobs[id], |groups|);
      ReserveKeepsLinks(db, next.jobs, id, key, groups);
    }
  }

  lemma NotActiveYet(db: Database, id: JobId, key: CounterKey, groups: seq<seq<SettlementId>>, rerendered: nat)
    requires Reserve(db, id, key, groups, rerendered).Accepted? && Plannable(db, key, groups, [])
    ensures !HasActiveJob(db, key.municipality) && key.year > 0
  {
  }

  lemma InRangeOfDb(db: Database)
    requires DbInv(db)
    ensures NumbersInRange(db.counters, db.documents, db.nextDocument)
  {
  }

  lemma ReserveKeepsLinks(db: Database, jobs: Jobs, id: JobId, key: CounterKey, groups: seq<seq<SettlementId>>)
    requires DbInv(db) && Plannable(db, key, groups, [])
    ensures var next := Issue(db.(jobs := jobs), key, groups, Some(id)); LinksResolve(next.documents, next.settlements)
  {
    IssueKeepsLinks(db.(jobs := jobs), key, groups, Some(id));
  }

  // ---------- reverting ----------

  // Nobody took numbers after an active job, so its revert always hands the whole range back.
  lemma CounterNeverMovesPastActiveJob(db: Database, id: JobId)
    requires DbInv(db) && id in db.jobs && Active(db.jobs[id].status) && db.jobs[id].range.Some?
    ensures CounterAfterRevert(Counter(db, db.jobs[id].key), db.jobs[id].range.value) == Some(db.jobs[id].range.value.first - 1)
  {
    assert RangeHeld(db.counters, db.jobs[id]);
  }

  function CountersWithout(counters: Counters, job: Job): Counters {
    if job.range.None? || job.range.value.first == 0 then counters else counters[job.key := job.range.value.first - 1]
  }

  lemma RevertShape(db: Database, id: JobId, fromStatuses: set<Status>)
    requires DbInv(db) && fromStatuses <= ACTIVE_STATUSES && id in db.jobs && db.jobs[id].status in fromStatuses
    ensures Revert(db, id, fromStatuses) ==
            db.(
              counters := CountersWithout(db.counters, db.jobs[id]),
              settlements := UnlinkAll(db.settlements, db.documents, id),
              documents := DocumentsWithout(db.documents, id),
              batches := db.batches - {id},
              jobs := db.jobs[id := db.jobs[id].(status := FAILED)])
  {
    if db.jobs[id].range.Some? {
      CounterNeverMovesPastActiveJob(db, id);
    }
  }

  lemma RevertKeepsDbInv(db: Database, id: JobId, fromStatuses: set<Status>)
    requires DbInv(db) && fromStatuses <= ACTIVE_STATUSES
    ensures DbInv(Revert(db, id, fromStatuses))
  {
    if id in db.jobs && db.jobs[id].status in fromStatuses {
      RevertShape(db, id, fromStatuses);
      RevertKeepsNumbers(db.counters, db.documents, db.nextDocument, db.jobs, id);
      RevertKeepsComplete(db.counters, db.documents, db.jobs, id);
      RevertKeepsRanges(db.counters, db.documents, db.jobs, id);
      RevertKeepsLinks(db.documents, db.settlements, id);
    }
  }

  lemma RevertKeepsNumbers(counters: Counters, documents: Documents, nextDocument: nat, jobs: Jobs, id: JobId)
    requires NumbersInRange(counters, documents, nextDocument) && NumbersUnique(documents)
    requires RangesHeld(counters, jobs) && DocumentsOwned(jobs, documents) && id in jobs && Active(jobs[id].status)
    ensures NumbersInRange(CountersWithout(counters, jobs[id]), DocumentsWithout(documents, id), nextDocument)
    ensures NumbersUnique(DocumentsWithout(documents, id))
  {
    assert RangeHeld(counters, jobs[id]);
    forall d | d in DocumentsWithout(documents, id)
      ensures documents[d].sequence <= CounterOf(CountersWithout(counters, jobs[id]), documents[d].key)
    {
      assert !InRange(jobs[id], documents[d]);
    }
  }

  lemma RevertKeepsComplete(counters: Counters, documents: Documents, jobs: Jobs, id: JobId)
    requires NumbersComplete(counters, documents)
    requires RangesHeld(counters, jobs) && DocumentsOwned(jobs, documents) && id in jobs && Active(jobs[id].status)
    ensures NumbersComplete(CountersWithout(counters, jobs[id]), DocumentsWithout(documents, id))
  {
    var counters', documents' := CountersWithout(counters, jobs[id]), DocumentsWithout(documents, id);
    assert RangeHeld(counters, jobs[id]);
    forall k, m: nat | 1 <= m <= CounterOf(counters', k)
      ensures Issued(documents', k, m)
    {
      assert Issued(documents, k, m);
      var d :| d in documents && documents[d].key == k && documents[d].sequence == m;
      assert !InRange(jobs[id], documents[d]);
      assert d in documents' && documents'[d] == documents[d];
    }
  }

  lemma RevertKeepsRanges(counters: Counters, documents: Documents, jobs: Jobs, id: JobId)
    requires NumbersComplete(counters, documents)
    requires RangesHeld(counters, jobs) && DocumentsOwned(jobs, documents) && OneActiveJob(jobs)
    requires id in jobs && Active(jobs[id].status)
    ensures var jobs' := jobs[id := jobs[id].(status := FAILED)];
            && RangesHeld(CountersWithout(counters, jobs[id]), jobs')
            && DocumentsOwned(jobs', DocumentsWithout(documents, id))
            && OneActiveJob(jobs')
  {
    hide RangesHeld, DocumentsOwned;
    RevertHoldsRanges(counters, documents, jobs, id);
    RevertOwnsDocuments(documents, jobs, id);
  }

  lemma RevertOwnsDocuments(documents: Documents, jobs: Jobs, id: JobId)
    requires DocumentsOwned(jobs, documents) && id in jobs
    ensures DocumentsOwned(jobs[id := jobs[id].(status := FAILED)], DocumentsWithout(documents, id))
  {
  }

  lemma RevertHoldsRanges(counters: Counters, documents: Documents, jobs: Jobs, id: JobId)
    requires NumbersComplete(counters, documents)
    requires RangesHeld(counters, jobs) && DocumentsOwned(jobs, documents) && OneActiveJob(jobs)
    requires id in jobs && Active(jobs[id].status)
    ensures RangesHeld(CountersWithout(counters, jobs[id]), jobs[id := jobs[id].(status := FAILED)])
  {
    var jobs', counters' := jobs[id := jobs[id].(status := FAILED)], CountersWithout(counters, jobs[id]);
    assert RangeHeld(counters, jobs[id]);
    forall j | j in jobs'
      ensures RangeHeld(counters', jobs'[j])
    {
      assert RangeHeld(counters, jobs[j]);
      if j != id && jobs[j].status != FAILED && jobs[j].range.Some? && jobs[j].key == jobs[id].key && jobs[id].range.Some? {
        // The last document of j belongs to j, so it lies before the reverted range.
        var last := jobs[j].range.value.last;
        assert Issued(documents, jobs[j].key, last);
        var d :| d in documents && documents[d].key == jobs[j].key && documents[d].sequence == last;
        assert InRange(jobs[j], documents[d]);
        assert !InRange(jobs[id], documents[d]);
      }
    }
  }

  lemma RevertKeepsLinks(documents: Documents, settlements: Settlements, id: JobId)
    requires LinksResolve(documents, settlements)
    ensures LinksResolve(DocumentsWithout(documents, id), map s | s in settlements :: Unlink(settlements[s], documents, id))
  {
    var settlements' := map s | s in settlements :: Unlink(settlements[s], documents, id);
    forall s | s in settlements'
      ensures SettlementResolves(DocumentsWithout(documents, id), settlements'[s])
    {
      assert SettlementResolves(documents, settlements[s]);
    }
  }

  // ---------- the other transactions ----------

  // Moving jobs forward keeps everything: no job becomes active or failed.
  lemma StatusChangeKeepsDbInv(db: Database, next: Database)
    requires DbInv(db)
    requires next.counters == db.counters && next.documents == db.documents
    requires next.settlements == db.settlements && next.nextDocument == db.nextDocument
    requires next.jobs.Keys == db.jobs.Keys
    requires forall j :: j in db.jobs ==> SameReservation(db.jobs[j], next.jobs[j])
    ensures DbInv(next)
  {
    forall j | j in next.jobs
      ensures RangeHeld(next.counters, next.jobs[j])
    {
      assert RangeHeld(db.counters, db.jobs[j]);
    }
  }

  predicate SameReservation(before: Job, after: Job) {
    && after.key == before.key && after.range == before.range
    && (Active(after.status) ==> Active(before.status))
    && (after.status == FAILED <==> before.status == FAILED)
  }

  lemma SettlementChangeKeepsDbInv(db: Database, settlements: Settlements)
    requires DbInv(db)
    requires forall s :: s in settlements ==>
               || settlements[s].resolution == settlements[s].order == None
               || (s in db.settlements && settlements[s] == db.settlements[s].(replaced := settlements[s].replaced))
    ensures DbInv(db.(settlements := settlements))
  {
    forall s | s in settlements
      ensures SettlementResolves(db.documents, settlements[s])
    {
      assert s in db.settlements ==> SettlementResolves(db.documents, db.settlements[s]);
    }
  }

  lemma AdvanceKeepsDbInv(db: Database, id: JobId, from: Status, to: Status)
    requires DbInv(db) && from != FAILED && to != FAILED && (Active(to) ==> Active(from))
    ensures DbInv(Advance(db, id, from, to))
  {
    StatusChangeKeepsDbInv(db, Advance(db, id, from, to));
  }

  lemma CreateJobKeepsDbInv(s: State, e: Event)
    requires DbInv(s.db) && e.CreateJob?
    ensures DbInv(DoCreateJob(s, e).db)
  {
    if e.job !in s.db.jobs && e.batchSize != 0 && Plannable(s.db, e.key, e.groups, e.rerendered) {
      if Reserve(s.db, e.job, e.key, e.groups, |e.rerendered|).Accepted? {
        ReserveKeepsDbInv(s.db, e.job, e.key, e.groups, |e.rerendered|);
      }
    }
  }

  lemma ApplyResultKeepsDbInv(s: State, r: Result)
    requires DbInv(s.db)
    ensures DbInv(DoApplyResult(s, r).db)
  {
    match r
    case BatchDone(id, b, n, attempt) => StatusChangeKeepsDbInv(s.db, ApplyBatchDone(s.db, id, b, n, attempt).0);
    case BatchFailed(id, _) => RevertKeepsDbInv(s.db, id, {PREPARING, RUNNING});
    case ZipDone(id) => AdvanceKeepsDbInv(s.db, id, ASSEMBLING, DONE);
    case ZipFailed(id) => RevertKeepsDbInv(s.db, id, {ASSEMBLING});
  }

  lemma ExecKeepsDbInv(s: State, e: Event)
    requires DbInv(s.db)
    ensures DbInv(Exec(s, e).db)
  {
    if e.CreateJob? {
      CreateJobKeepsDbInv(s, e);
    } else if e.ApplyResult? {
      ApplyResultKeepsDbInv(s, e.result);
    } else if e.GenerateSingle? || e.AddSettlement? || e.ReplaceSettlement? {
      PanelEventsKeepDbInv(s, e);
    } else if e.FinishDispatch? || e.FailDispatch? || e.RecoverInterrupted? || e.FailStalled? || e.Expire? {
      CoordinatorEventsKeepDbInv(s, e);
    } else {
      OtherEventsKeepDbInv(s, e);
    }
  }

  lemma PanelEventsKeepDbInv(s: State, e: Event)
    requires DbInv(s.db) && (e.GenerateSingle? || e.AddSettlement? || e.ReplaceSettlement?)
    ensures DbInv(Exec(s, e).db)
  {
    hide Exec;
    Dispatched(s, e);
    if e.GenerateSingle? {
      if Plannable(s.db, e.key, e.groups, []) && IssueSingle(s.db, e.key, e.groups).Accepted? {
        SingleKeepsDbInv(s.db, e.key, e.groups);
      }
    } else {
      SettlementChangeKeepsDbInv(s.db, Exec(s, e).db.settlements);
    }
  }

  lemma CoordinatorEventsKeepDbInv(s: State, e: Event)
    requires DbInv(s.db)
    requires e.FinishDispatch? || e.FailDispatch? || e.RecoverInterrupted? || e.FailStalled? || e.Expire?
    ensures DbInv(Exec(s, e).db)
  {
    hide Exec;
    Dispatched(s, e);
    match e
    case FinishDispatch(id) => AdvanceKeepsDbInv(s.db, id, PREPARING, RUNNING);
    case FailDispatch(id) => RevertKeepsDbInv(s.db, id, ACTIVE_STATUSES);
    case RecoverInterrupted(id) => RevertKeepsDbInv(s.db, id, ACTIVE_STATUSES);
    case FailStalled(id) => RevertKeepsDbInv(s.db, id, {RUNNING, ASSEMBLING});
    case Expire(id) => AdvanceKeepsDbInv(s.db, id, DONE, EXPIRED);
  }

  lemma OtherEventsKeepDbInv(s: State, e: Event)
    requires DbInv(s.db)
    requires !e.CreateJob? && !e.GenerateSingle? && !e.FinishDispatch? && !e.FailDispatch? && !e.RecoverInterrupted?
    requires !e.FailStalled? && !e.Expire? && !e.ApplyResult? && !e.AddSettlement? && !e.ReplaceSettlement?
    ensures Exec(s, e).db == s.db.(batches := Exec(s, e).db.batches)
    ensures DbInv(Exec(s, e).db)
  {
    hide Exec;
    Dispatched(s, e);
  }
}
