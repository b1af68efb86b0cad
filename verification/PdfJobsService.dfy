/** The coordinator's transactions as they run: tables updated row by row, committed only at the end.
    Each method is proved to do what its transaction of the protocol says. */
module PdfJobsService {
  import opened Numbering
  import opened Batching
  import opened Protocol
  import opened DatabaseInvariant
  import opened JobLaws
  import ReserveLaws

  // The guard of the linking statement, over the ids seen so far.
  predicate AllLink(settlements: Settlements, documentType: DocumentType, ids: seq<SettlementId>, currentOnly: bool) {
    && Distinct(ids)
    && forall s :: s in ids ==>
         s in settlements && Link(settlements[s], documentType) == None && (currentOnly ==> !settlements[s].replaced)
  }

  function Linked(settlements: Settlements, documentType: DocumentType, targets: map<SettlementId, DocumentId>): Settlements {
    map s | s in settlements ::
      if s in targets then WithLink(settlements[s], documentType, Some(targets[s])) else settlements[s]
  }

  // Links every listed settlement to its group's document and counts the rows it updated.
  method LinkGroups(settlements: Settlements, documentType: DocumentType, groups: seq<seq<SettlementId>>, first: DocumentId, currentOnly: bool)
    returns (updated: Settlements, linked: nat, listed: nat)
    ensures listed == |Flatten(groups)|
    ensures linked == listed <==> AllLink(settlements, documentType, Flatten(groups), currentOnly)
    ensures linked == listed ==> updated == Linked(settlements, documentType, LinkTargets(groups, first))
  {
    updated, linked, listed := settlements, 0, 0;
    assert groups[..0] == [];
    for g := 0 to |groups|
      invariant listed == |Flatten(groups[..g])|
      invariant linked <= listed
      invariant linked == listed <==> AllLink(settlements, documentType, Flatten(groups[..g]), currentOnly)
      invariant linked == listed ==> updated == Linked(settlements, documentType, LinkTargets(groups[..g], first))
    {
      ghost var before := groups[..g];
      var group := groups[g];
      updated, linked, listed := LinkGroup(settlements, updated, linked, listed, documentType, before, group, first, first + g, currentOnly);
      assert groups[..g + 1] == before + [group];
    }
    assert groups[..|groups|] == groups;
  }

  method LinkGroup(ghost settlements: Settlements, start: Settlements, linkedBefore: nat, listedBefore: nat, documentType: DocumentType,
      ghost before: seq<seq<SettlementId>>, group: seq<SettlementId>, ghost first: DocumentId, target: DocumentId, currentOnly: bool)
    returns (updated: Settlements, linked: nat, listed: nat)
    requires target == first + |before|
    requires listedBefore == |Flatten(before)| && linkedBefore <= listedBefore
    requires linkedBefore == listedBefore <==> AllLink(settlements, documentType, Flatten(before), currentOnly)
    requires linkedBefore == listedBefore ==> start == Linked(settlements, documentType, LinkTargets(before, first))
    ensures listed == |Flatten(before + [group])| && linked <= listed
    ensures linked == listed <==> AllLink(settlements, documentType, Flatten(before + [group]), currentOnly)
    ensures linked == listed ==> updated == Linked(settlements, documentType, LinkTargets(before + [group], first))
  {
    hide Linked, AllLink, Flatten, LinkTargets;
    ghost var done := Flatten(before);
    ghost var base := LinkTargets(before, first);
    LinkTargetsMeaning(before, first);
    updated, linked, listed := start, linkedBefore, listedBefore;
    ghost var targets := base;
    assert group[..0] == [] && done + [] == done;
    for k := 0 to |group|
      invariant listed == |done| + k && linked <= listed
      invariant linked == listed <==> AllLink(settlements, documentType, done + group[..k], currentOnly)
      invariant forall s :: s in targets <==> s in done + group[..k]
      invariant forall s :: s in targets ==> targets[s] == if s in group[..k] then target else base[s]
      invariant linked == listed ==> updated == Linked(settlements, documentType, targets)
    {
      var s := group[k];
      ghost var seen := done + group[..k];
      assert done + group[..k + 1] == seen + [s];
      OneMoreLink(settlements, documentType, seen, s, currentOnly);
      if linked == listed {
        GuardOnUpdated(settlements, documentType, targets, s, target);
      }
      if s in updated && Link(updated[s], documentType) == None && (currentOnly ==> !updated[s].replaced) {
        updated, linked := updated[s := WithLink(updated[s], documentType, Some(target))], linked + 1;
      }
      targets := targets[s := target];
      listed := listed + 1;
    }
    assert group[..|group|] == group;
    FlattenSnoc(before, group);
    GroupTargets(before, group, first, targets);
  }

  lemma OneMoreLink(settlements: Settlements, documentType: DocumentType, seen: seq<SettlementId>, s: SettlementId, currentOnly: bool)
    ensures AllLink(settlements, documentType, seen + [s], currentOnly) <==>
              && AllLink(settlements, documentType, seen, currentOnly)
              && s !in seen && s in settlements && Link(settlements[s], documentType) == None
              && (currentOnly ==> !settlements[s].replaced)
  {
    var ids := seen + [s];
    assert ids[..|seen|] == seen;
    if AllLink(settlements, documentType, ids, currentOnly) {
      assert forall i :: 0 <= i < |seen| ==> ids[i] == seen[i];
      assert s in ids;
      assert forall x :: x in seen ==> x in ids;
      assert Distinct(seen);
    }
  }

  // On the table as updated so far, the guard refuses a settlement that is already linked.
  lemma GuardOnUpdated(settlements: Settlements, documentType: DocumentType, targets: map<SettlementId, DocumentId>, s: SettlementId, target: DocumentId)
    ensures var updated := Linked(settlements, documentType, targets);
            && (s in updated <==> s in settlements)
            && (s in updated ==>
                  && updated[s].replaced == settlements[s].replaced
                  && (Link(updated[s], documentType) == None <==> s !in targets && Link(settlements[s], documentType) == None)
                  && updated[s := WithLink(updated[s], documentType, Some(target))]
                  == Linked(settlements, documentType, targets[s := target]))
  {
  }

  lemma GroupTargets(before: seq<seq<SettlementId>>, group: seq<SettlementId>, first: DocumentId, targets: map<SettlementId, DocumentId>)
    requires forall s :: s in targets <==> s in Flatten(before) + group
    requires forall s :: s in LinkTargets(before, first) <==> s in Flatten(before)
    requires forall s :: s in targets ==> targets[s] == if s in group then first + |before| else LinkTargets(before, first)[s]
    ensures targets == LinkTargets(before + [group], first)
  {
    var all := before + [group];
    assert all[..|all| - 1] == before && all[|all| - 1] == group;
  }

  // The tables once the counter is locked and the job is inserted.
  function Claimed(db: Database, id: JobId, key: CounterKey, groups: seq<seq<SettlementId>>, rerendered: nat): Database {
    var counter := Counter(db, key);
    var range := if groups == [] then None else Some(Range(counter + 1, counter + |groups|));
    db.(counters := db.counters[key := counter], jobs := db.jobs[id := Job(key, PREPARING, |groups| + rerendered, 0, range)])
  }

  // The five ways a reservation can go.
  lemma ReserveCases(db: Database, id: JobId, key: CounterKey, groups: seq<seq<SettlementId>>, rerendered: nat)
    ensures Protocol.Reserve(db, id, key, groups, rerendered)
         == (if |groups| + rerendered == 0 then Refused(NOTHING_TO_GENERATE)
             else if HasActiveJob(db, key.municipality) then Refused(BULK_GENERATION_IN_PROGRESS)
             else if groups == [] then Accepted(Claimed(db, id, key, groups, rerendered))
             else if !AllLink(db.settlements, key.documentType, Flatten(groups), true) then Refused(CONCURRENT_GENERATION)
             else Accepted(Issue(Claimed(db, id, key, groups, rerendered), key, groups, Some(id))))
  {
    hide Issue, HasActiveJob;
  }

  // An accepted reservation, table by table.
  lemma ReservedTables(db: Database, id: JobId, key: CounterKey, groups: seq<seq<SettlementId>>, rerendered: nat)
    requires groups != []
    ensures Issue(Claimed(db, id, key, groups, rerendered), key, groups, Some(id))
         == Database(
              db.counters[key := Counter(db, key)][key := Counter(db, key) + |groups|],
              db.jobs[id := Job(key, PREPARING, |groups| + rerendered, 0, Some(Range(Counter(db, key) + 1, Counter(db, key) + |groups|)))],
              db.batches,
              db.documents + IssuedDocuments(key, Counter(db, key), db.nextDocument, |groups|, Some(id)),
              Linked(db.settlements, key.documentType, LinkTargets(groups, db.nextDocument)),
              db.nextDocument + |groups|)
  {
    hide LinkTargets, IssuedDocuments, Issue;
    IssueTables(Claimed(db, id, key, groups, rerendered), key, groups, Some(id));
  }

  lemma SingleCases(db: Database, key: CounterKey, groups: seq<seq<SettlementId>>)
    ensures IssueSingle(db, key, groups)
         == (if groups == [] then Refused(NOTHING_TO_GENERATE)
             else if HasActiveJob(db, key.municipality) then Refused(BULK_GENERATION_IN_PROGRESS)
             else if !AllLink(db.settlements, key.documentType, Flatten(groups), key.documentType == MANDAMIENTO) then Refused(CONCURRENT_GENERATION)
             else Accepted(Issue(db, key, groups, None)))
  {
    hide Issue, HasActiveJob;
  }

  // Issuing, table by table.
  lemma IssueTables(db: Database, key: CounterKey, groups: seq<seq<SettlementId>>, job: Option<JobId>)
    ensures Issue(db, key, groups, job)
         == db.(counters := db.counters[key := Counter(db, key) + |groups|],
                documents := db.documents + IssuedDocuments(key, Counter(db, key), db.nextDocument, |groups|, job),
                settlements := Linked(db.settlements, key.documentType, LinkTargets(groups, db.nextDocument)),
                nextDocument := db.nextDocument + |groups|)
  {
    hide LinkTargets, IssuedDocuments;
  }

  class Coordinator {
    var counters: map<CounterKey, nat>
    var jobs: map<JobId, Job>
    var batches: map<JobId, seq<BatchRow>>
    var documents: map<DocumentId, Document>
    var settlements: map<SettlementId, Settlement>
    var nextDocument: nat

    function Tables(): Database
      reads this
    {
      Database(counters, jobs, batches, documents, settlements, nextDocument)
    }

    ghost predicate Valid()
      reads this
    {
      DbInv(Tables())
    }

    method FindActiveJob(municipality: nat) returns (found: bool)
      ensures found <==> HasActiveJob(Tables(), municipality)
    {
      var rest := jobs.Keys;
      found := false;
      while rest != {} && !found
        invariant rest <= jobs.Keys
        invariant found ==> HasActiveJob(Tables(), municipality)
        invariant !found ==> forall j :: j in jobs && j !in rest ==> jobs[j].key.municipality != municipality || !Active(jobs[j].status)
        decreases |rest|
      {
        var j :| j in rest;
        rest := rest - {j};
        found := jobs[j].key.municipality == municipality && Active(jobs[j].status);
      }
    }

    // The documents of a run of consecutive numbers.
    method CreateDocuments(key: CounterKey, counter: nat, n: nat, job: Option<JobId>) returns (created: map<DocumentId, Document>)
      ensures created == documents + IssuedDocuments(key, counter, nextDocument, n, job)
    {
      created := documents;
      for i := 0 to n
        invariant created == documents + IssuedDocuments(key, counter, nextDocument, i, job)
      {
        created := created[nextDocument + i := Document(key, counter + i + 1, job)];
      }
    }

    // Bulk job: checks, numbers, creates and links in a draft, and commits only if every link held.
    method Reserve(id: JobId, key: CounterKey, groups: seq<seq<SettlementId>>, rerendered: nat) returns (refusal: Option<Refusal>)
      requires Valid() && Plannable(Tables(), key, groups, []) && id !in jobs
      modifies this
      ensures Valid()
      ensures refusal.Some? ==> Tables() == old(Tables()) && Protocol.Reserve(old(Tables()), id, key, groups, rerendered) == Refused(refusal.value)
      ensures refusal.None? ==> Protocol.Reserve(old(Tables()), id, key, groups, rerendered) == Accepted(Tables())
      ensures var outcome := if refusal.Some? then Refused(refusal.value) else Accepted(Tables());
              ReserveLaws.ReservedRightly(old(Tables()), id, key, groups, rerendered, outcome)
    {
      hide ReserveLaws.ReservedRightly;
      ReserveLaws.ReserveIsRight(Tables(), id, key, groups, rerendered);
      hide DbInv, Plannable, Linkable, AllLink, HasActiveJob, Linked, LinkTargets, IssuedDocuments, Issue, Flatten, Protocol.Reserve;
      ReserveCases(Tables(), id, key, groups, rerendered);
      if |groups| + rerendered == 0 {
        return Some(NOTHING_TO_GENERATE);
      }
      var busy := FindActiveJob(key.municipality);
      if busy {
        return Some(BULK_GENERATION_IN_PROGRESS);
      }
      ReserveKeepsDbInvWhenAccepted(Tables(), id, key, groups, rerendered);
      if |groups| == 0 {
        var counter := if key in counters then counters[key] else 0;
        counters := counters[key := counter];
        jobs := jobs[id := Job(key, PREPARING, rerendered, 0, None)];
        return None;
      }
      var reserved := ReserveRange(id, key, groups, rerendered);
      if !reserved {
        return Some(CONCURRENT_GENERATION);
      }
      return None;
    }

    // The range, its documents and its links, committed together or not at all.
    method ReserveRange(id: JobId, key: CounterKey, groups: seq<seq<SettlementId>>, rerendered: nat) returns (reserved: bool)
      requires groups != []
      modifies this
      ensures reserved <==> AllLink(old(settlements), key.documentType, Flatten(groups), true)
      ensures Tables() == if reserved then Issue(Claimed(old(Tables()), id, key, groups, rerendered), key, groups, Some(id)) else old(Tables())
    {
      hide AllLink, Linked, LinkTargets, IssuedDocuments, Issue, Flatten, Claimed;
      ReservedTables(Tables(), id, key, groups, rerendered);
      var counter := if key in counters then counters[key] else 0;
      var range := Range(counter + 1, counter + |groups|);
      var created := CreateDocuments(key, counter, |groups|, Some(id));
      var updated, linked, listed := LinkGroups(settlements, key.documentType, groups, nextDocument, true);
      if linked != listed {
        return false;
      }
      counters := counters[key := counter][key := counter + |groups|];
      jobs := jobs[id := Job(key, PREPARING, |groups| + rerendered, 0, Some(range))];
      documents := created;
      settlements := updated;
      nextDocument := nextDocument + |groups|;
      return true;
    }

    // Individual generation: the same numbering, refused while a bulk job of the municipality runs.
    method GenerateSingle(key: CounterKey, groups: seq<seq<SettlementId>>) returns (refusal: Option<Refusal>)
      requires Valid() && Plannable(Tables(), key, groups, [])
      modifies this
      ensures Valid()
      ensures refusal.Some? ==> Tables() == old(Tables()) && IssueSingle(old(Tables()), key, groups) == Refused(refusal.value)
      ensures refusal.None? ==> IssueSingle(old(Tables()), key, groups) == Accepted(Tables())
      ensures var outcome := if refusal.Some? then Refused(refusal.value) else Accepted(Tables());
              ReserveLaws.SingleRightly(old(Tables()), key, groups, outcome)
    {
      hide ReserveLaws.SingleRightly;
      ReserveLaws.SingleIsRight(Tables(), key, groups);
      hide DbInv, Plannable, Linkable, AllLink, HasActiveJob, Linked, LinkTargets, IssuedDocuments, Issue, IssueSingle;
      SingleCases(Tables(), key, groups);
      if groups == [] {
        return Some(NOTHING_TO_GENERATE);
      }
      var busy := FindActiveJob(key.municipality);
      if busy {
        return Some(BULK_GENERATION_IN_PROGRESS);
      }
      SingleKeepsDbInvWhenAccepted(Tables(), key, groups);
      IssueTables(Tables(), key, groups, None);
      var counter := if key in counters then counters[key] else 0;
      var created := CreateDocuments(key, counter, |groups|, None);
      var updated, linked, listed := LinkGroups(settlements, key.documentType, groups, nextDocument, key.documentType == MANDAMIENTO);
      if linked != listed {
        return Some(CONCURRENT_GENERATION);
      }
      counters := counters[key := counter + |groups|];
      documents := created;
      settlements := updated;
      nextDocument := nextDocument + |groups|;
      return None;
    }

    method HandRangeBack(job: Job)
      requires job.range.Some? ==> 1 <= job.range.value.first
      modifies this`counters
      ensures counters == CountersAfterRevert(old(Tables()), job)
    {
      if job.range.Some? {
        var counter := if job.key in counters then counters[job.key] else 0;
        var target := CounterAfterRevert(counter, job.range.value);
        counters := counters[job.key := if target.Some? then target.value else counter];
      }
    }

    method DeleteDocumentsOf(id: JobId)
      requires LinksResolve(documents, settlements)
      modifies this`settlements, this`documents
      ensures settlements == UnlinkAll(old(settlements), old(documents), id)
      ensures documents == DocumentsWithout(old(documents), id)
    {
      UnlinkingInTwoSteps(settlements, documents, id);
      settlements := WithoutLinks(settlements, documents, LIQUIDACION, id);
      documents := WithoutDocuments(documents, LIQUIDACION, id);
      settlements := WithoutLinks(settlements, documents, MANDAMIENTO, id);
      documents := WithoutDocuments(documents, MANDAMIENTO, id);
    }

    // Locks the job, hands the range back, unlinks and deletes what the job issued, fails the job.
    method Revert(id: JobId, fromStatuses: set<Status>) returns (reverted: bool)
      requires Valid() && fromStatuses <= ACTIVE_STATUSES
      modifies this
      ensures Valid()
      ensures reverted <==> id in old(jobs) && old(jobs)[id].status in fromStatuses
      ensures Tables() == Protocol.Revert(old(Tables()), id, fromStatuses)
      ensures if reverted then HandsBack(old(Tables()), Tables(), id) else Tables() == old(Tables())
    {
      hide DbInv, LinksResolve, UnlinkAll, DocumentsWithout, CountersAfterRevert, HandsBack;
      RevertKeepsDbInv(Tables(), id, fromStatuses);
      RevertHandsBack(Tables(), id, fromStatuses);
      if id !in jobs || jobs[id].status !in fromStatuses {
        return false;
      }
      var job := jobs[id];
      LinksOf(Tables());
      if job.range.Some? {
        RangeStartsAtOne(Tables(), id);
      }
      HandRangeBack(job);
      DeleteDocumentsOf(id);
      batches := batches - {id};
      jobs := jobs[id := job.(status := FAILED)];
      assert Tables() == Protocol.Revert(old(Tables()), id, fromStatuses);
      return true;
    }

    // Marks the row of a batch once, counts its documents and, with the last one, asks for the ZIP.
    method ApplyBatchResult(id: JobId, batchIndex: int, documentCount: nat, attempt: nat) returns (assemble: bool)
      requires Valid()
      modifies this
      ensures Valid()
      ensures (Tables(), assemble) == ApplyBatchDone(old(Tables()), id, batchIndex, documentCount, attempt)
      ensures assemble <==> WaitsOnlyFor(old(Tables()), id, batchIndex)
      ensures !Waits(old(Tables()), id, batchIndex) ==> Tables() == old(Tables())
      ensures Waits(old(Tables()), id, batchIndex) ==>
                && jobs == old(jobs)[id := old(jobs)[id].(status := if assemble then ASSEMBLING else old(jobs)[id].status,
                                                          completed := old(jobs)[id].completed + documentCount)]
                && batches == old(batches)[id := old(batches)[id][batchIndex := old(batches)[id][batchIndex].(done := true, attempts := attempt)]]
                && Tables() == old(Tables()).(jobs := jobs, batches := batches)
    {
      MarkedTables(Tables(), id, batchIndex, documentCount, attempt);
      BatchResultKeepsDbInv(Tables(), id, batchIndex, documentCount, attempt);
      hide DbInv;
      if id !in jobs || id !in batches {
        return false;
      }
      var job, rows := jobs[id], batches[id];
      if !BatchPhase(job.status) || !(0 <= batchIndex < |rows|) || rows[batchIndex].done {
        assert jobs[id := job] == jobs && batches[id := rows] == batches;
        return false;
      }
      rows := rows[batchIndex := rows[batchIndex].(done := true, attempts := attempt)];
      job := job.(completed := job.completed + documentCount);
      var remaining := 0;
      for b := 0 to |rows|
        invariant remaining == 0 <==> forall k :: 0 <= k < b ==> rows[k].done
        invariant 0 <= remaining
      {
        if !rows[b].done {
          remaining := remaining + 1;
        }
      }
      if remaining == 0 {
        job := job.(status := ASSEMBLING);
      }
      jobs := jobs[id := job];
      batches := batches[id := rows];
      return remaining == 0;
    }

    method ApplyZipResult(id: JobId)
      requires Valid()
      modifies this
      ensures Valid()
      ensures Tables() == Advance(old(Tables()), id, ASSEMBLING, DONE)
      ensures jobs == if id in old(jobs) && old(jobs)[id].status == ASSEMBLING then old(jobs)[id := old(jobs)[id].(status := DONE)] else old(jobs)
    {
      AdvanceKeepsDbInv(Tables(), id, ASSEMBLING, DONE);
      if id in jobs && jobs[id].status == ASSEMBLING {
        jobs := jobs[id := jobs[id].(status := DONE)];
      }
    }

    // On start: every job a crash left PREPARING is reverted, and no other job is touched.
    method RecoverInterrupted()
      requires Valid()
      modifies this
      ensures Valid()
      ensures jobs.Keys == old(jobs).Keys
      ensures forall j :: j in jobs ==> jobs[j] == if old(jobs)[j].status == PREPARING then old(jobs)[j].(status := FAILED) else old(jobs)[j]
      ensures forall j :: j in jobs && old(jobs)[j].status == PREPARING ==>
                forall d :: d in documents ==> documents[d].job != Some(j)
      ensures forall d :: d in documents ==> d in old(documents) && documents[d] == old(documents)[d]
    {
      hide DbInv;
      var interrupted := set j | j in jobs && jobs[j].status == PREPARING;
      while interrupted != {}
        invariant Valid() && jobs.Keys == old(jobs).Keys && interrupted <= jobs.Keys
        invariant forall j :: j in interrupted ==> old(jobs)[j].status == PREPARING
        invariant forall j :: j in jobs ==>
                    jobs[j] == if old(jobs)[j].status == PREPARING && j !in interrupted then old(jobs)[j].(status := FAILED) else old(jobs)[j]
        invariant forall d :: d in documents ==> d in old(documents) && documents[d] == old(documents)[d]
        decreases |interrupted|
      {
        var j :| j in interrupted;
        interrupted := interrupted - {j};
        var _ := Revert(j, ACTIVE_STATUSES);
      }
      FailedJobsOwnNothing(Tables());
    }
  }

  lemma FailedJobsOwnNothing(db: Database)
    requires DbInv(db)
    ensures forall j, d :: j in db.jobs && db.jobs[j].status == FAILED && d in db.documents ==> db.documents[d].job != Some(j)
  {
  }

  lemma RangeStartsAtOne(db: Database, id: JobId)
    requires DbInv(db) && id in db.jobs && db.jobs[id].status != FAILED && db.jobs[id].range.Some?
    ensures 1 <= db.jobs[id].range.value.first
  {
    assert RangeHeld(db.counters, db.jobs[id]);
  }

  function WithoutLinks(settlements: Settlements, documents: Documents, documentType: DocumentType, id: JobId): Settlements {
    map s | s in settlements ::
      if IssuedBy(documents, Link(settlements[s], documentType), id) then WithLink(settlements[s], documentType, None) else settlements[s]
  }

  function WithoutDocuments(documents: Documents, documentType: DocumentType, id: JobId): Documents {
    map d | d in documents && (documents[d].job != Some(id) || documents[d].key.documentType != documentType) :: documents[d]
  }

  lemma LinksOf(db: Database)
    requires DbInv(db)
    ensures LinksResolve(db.documents, db.settlements)
  {
  }

  lemma UnlinkOneInTwoSteps(documents: Documents, settlement: Settlement, id: JobId)
    requires SettlementResolves(documents, settlement)
    ensures var s1 := if IssuedBy(documents, settlement.resolution, id) then settlement.(resolution := None) else settlement;
            var s2 := if IssuedBy(WithoutDocuments(documents, LIQUIDACION, id), s1.order, id) then s1.(order := None) else s1;
            Unlink(settlement, documents, id) == s2
  {
  }

  // Resolutions first and payment orders after is the same as all at once: links never cross kinds.
  lemma UnlinkingInTwoSteps(settlements: Settlements, documents: Documents, id: JobId)
    requires LinksResolve(documents, settlements)
    ensures var s1 := WithoutLinks(settlements, documents, LIQUIDACION, id);
            var d1 := WithoutDocuments(documents, LIQUIDACION, id);
            && WithoutLinks(s1, d1, MANDAMIENTO, id) == (map s | s in settlements :: Unlink(settlements[s], documents, id))
            && WithoutDocuments(d1, MANDAMIENTO, id) == map d | d in documents && documents[d].job != Some(id) :: documents[d]
  {
    hide IssuedBy, Unlink;
    var s1 := WithoutLinks(settlements, documents, LIQUIDACION, id);
    var d1 := WithoutDocuments(documents, LIQUIDACION, id);
    forall s | s in settlements
      ensures WithoutLinks(s1, d1, MANDAMIENTO, id)[s] == Unlink(settlements[s], documents, id)
    {
      UnlinkOneInTwoSteps(documents, settlements[s], id);
    }
  }

  lemma BatchResultKeepsDbInv(db: Database, id: JobId, batchIndex: int, documentCount: nat, attempt: nat)
    requires DbInv(db)
    ensures DbInv(ApplyBatchDone(db, id, batchIndex, documentCount, attempt).0)
  {
    hide DbInv, AllDone;
    StatusChangeKeepsDbInv(db, ApplyBatchDone(db, id, batchIndex, documentCount, attempt).0);
  }

  lemma ReserveKeepsDbInvWhenAccepted(db: Database, id: JobId, key: CounterKey, groups: seq<seq<SettlementId>>, rerendered: nat)
    requires DbInv(db) && Plannable(db, key, groups, []) && id !in db.jobs
    ensures Protocol.Reserve(db, id, key, groups, rerendered).Accepted? ==> DbInv(Protocol.Reserve(db, id, key, groups, rerendered).value)
  {
    if Protocol.Reserve(db, id, key, groups, rerendered).Accepted? {
      ReserveKeepsDbInv(db, id, key, groups, rerendered);
    }
  }

  lemma SingleKeepsDbInvWhenAccepted(db: Database, key: CounterKey, groups: seq<seq<SettlementId>>)
    requires DbInv(db) && Plannable(db, key, groups, [])
    ensures IssueSingle(db, key, groups).Accepted? ==> DbInv(IssueSingle(db, key, groups).value)
  {
    if IssueSingle(db, key, groups).Accepted? {
      SingleKeepsDbInv(db, key, groups);
    }
  }
}
