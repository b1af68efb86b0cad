/** What a reservation and a single generation do to the tables, and when each is refused, said of the
    groups' places, the jobs, the links and the counter. */
module ReserveLaws {
  import opened Numbering
  import opened Batching
  import opened Protocol
  import opened DatabaseInvariant

  // A job of the municipality is under way.
  predicate Busy(db: Database, municipality: nat) {
    exists j :: && j in db.jobs && db.jobs[j].key.municipality == municipality
                && db.jobs[j].status != DONE && db.jobs[j].status != FAILED && db.jobs[j].status != EXPIRED
  }

  predicate Place<T>(groups: seq<seq<T>>, g: int, i: int) {
    0 <= g < |groups| && 0 <= i < |groups[g]|
  }

  // No settlement is listed twice.
  ghost predicate NoneTwice<T>(groups: seq<seq<T>>) {
    forall g, i, h, k :: Place(groups, g, i) && Place(groups, h, k) && groups[g][i] == groups[h][k] ==> g == h && i == k
  }

  predicate Unlinked(s: Settlement, documentType: DocumentType) {
    if documentType == LIQUIDACION then s.resolution == None else s.order == None
  }

  // Every listed settlement is there, has no such document yet and, where it is asked, was not replaced.
  ghost predicate MayLink(db: Database, documentType: DocumentType, groups: seq<seq<SettlementId>>, currentOnly: bool) {
    && NoneTwice(groups)
    && forall g, i :: Place(groups, g, i) ==>
         && groups[g][i] in db.settlements && Unlinked(db.settlements[groups[g][i]], documentType)
         && (currentOnly ==> !db.settlements[groups[g][i]].replaced)
  }

  // ---------- places ----------

  lemma {:induction false} FlattenPlaces<T>(groups: seq<seq<T>>)
    ensures forall x :: x in Flatten(groups) <==> exists g, i :: Place(groups, g, i) && groups[g][i] == x
  {
    if groups != [] {
      FlattenPlaces(groups[1..]);
      forall x
        ensures x in Flatten(groups) <==> exists g, i :: Place(groups, g, i) && groups[g][i] == x
      {
        if x in groups[0] {
          var i :| 0 <= i < |groups[0]| && groups[0][i] == x;
          assert Place(groups, 0, i);
        } else if x in Flatten(groups[1..]) {
          var g, i :| Place(groups[1..], g, i) && groups[1..][g][i] == x;
          assert Place(groups, g + 1, i) && groups[g + 1][i] == x;
        }
        if g, i :| Place(groups, g, i) && groups[g][i] == x && g > 0 {
          assert Place(groups[1..], g - 1, i) && groups[1..][g - 1][i] == x;
        }
      }
    }
  }

  lemma DistinctSum<T>(a: seq<T>, b: seq<T>)
    ensures Distinct(a + b) <==> Distinct(a) && Distinct(b) && forall x :: x in a ==> x !in b
  {
    var c := a + b;
    if Distinct(c) {
      forall i, k | 0 <= i < k < |a|
        ensures a[i] != a[k]
      {
        assert c[i] == a[i] && c[k] == a[k];
      }
      forall i, k | 0 <= i < k < |b|
        ensures b[i] != b[k]
      {
        assert c[|a| + i] == b[i] && c[|a| + k] == b[k];
      }
      forall i, k | 0 <= i < |a| && 0 <= k < |b|
        ensures a[i] != b[k]
      {
        assert c[i] == a[i] && c[|a| + k] == b[k];
      }
    }
    if Distinct(a) && Distinct(b) && forall x :: x in a ==> x !in b {
      forall i, k | 0 <= i < k < |c|
        ensures c[i] != c[k]
      {
        assert if i < |a| then c[i] in a else c[i] == b[i - |a|];
        assert if k < |a| then c[k] == a[k] else c[k] in b;
      }
    }
  }

  lemma NoneTwiceRest<T>(groups: seq<seq<T>>)
    requires groups != []
    ensures NoneTwice(groups) <==> Distinct(groups[0]) && NoneTwice(groups[1..]) && forall x :: x in groups[0] ==> x !in Flatten(groups[1..])
  {
    hide Flatten;
    var rest := groups[1..];
    FlattenPlaces(rest);
    forall g, i
      ensures Place(rest, g, i) <==> g >= 0 && Place(groups, g + 1, i)
    {
    }
    if NoneTwice(groups) {
      forall i, k | 0 <= i < k < |groups[0]|
        ensures groups[0][i] != groups[0][k]
      {
        assert Place(groups, 0, i) && Place(groups, 0, k);
      }
      forall g, i, h, k | Place(rest, g, i) && Place(rest, h, k) && rest[g][i] == rest[h][k]
        ensures g == h && i == k
      {
        assert Place(groups, g + 1, i) && Place(groups, h + 1, k);
      }
      forall x | x in groups[0]
        ensures x !in Flatten(rest)
      {
        var i :| 0 <= i < |groups[0]| && groups[0][i] == x;
        assert Place(groups, 0, i);
        assert forall g, k :: Place(rest, g, k) ==> Place(groups, g + 1, k) && rest[g][k] == groups[g + 1][k];
      }
    }
    if Distinct(groups[0]) && NoneTwice(rest) && forall x :: x in groups[0] ==> x !in Flatten(rest) {
      forall g, i, h, k | Place(groups, g, i) && Place(groups, h, k) && groups[g][i] == groups[h][k]
        ensures g == h && i == k
      {
        assert g > 0 ==> Place(rest, g - 1, i) && rest[g - 1][i] == groups[g][i] && groups[g][i] in Flatten(rest);
        assert h > 0 ==> Place(rest, h - 1, k) && rest[h - 1][k] == groups[h][k] && groups[h][k] in Flatten(rest);
        assert g == 0 ==> groups[g][i] in groups[0];
        assert h == 0 ==> groups[h][k] in groups[0];
      }
    }
  }

  lemma {:induction false} DistinctIsNoneTwice<T>(groups: seq<seq<T>>)
    ensures Distinct(Flatten(groups)) <==> NoneTwice(groups)
  {
    hide NoneTwice, Distinct;
    if groups == [] {
      NothingTwice<T>();
    } else {
      DistinctIsNoneTwice(groups[1..]);
      NoneTwiceRest(groups);
      DistinctSum(groups[0], Flatten(groups[1..]));
    }
  }

  lemma NothingTwice<T>()
    ensures Distinct<T>([]) && NoneTwice<T>([])
  {
  }

  lemma MayLinkIs(db: Database, documentType: DocumentType, groups: seq<seq<SettlementId>>, currentOnly: bool)
    ensures MayLink(db, documentType, groups, currentOnly) <==> Linkable(db, documentType, groups, currentOnly)
  {
    hide Flatten, NoneTwice, Distinct;
    FlattenPlaces(groups);
    DistinctIsNoneTwice(groups);
    if MayLink(db, documentType, groups, currentOnly) {
      forall s | s in Flatten(groups)
        ensures s in db.settlements && Link(db.settlements[s], documentType) == None && (currentOnly ==> !db.settlements[s].replaced)
      {
        var g, i :| Place(groups, g, i) && groups[g][i] == s;
      }
    }
  }

  // ---------- issuing ----------

  // Group i gets the number i + 1 past the counter and the next document but i.
  ghost predicate Numbered(before: Database, after: Database, key: CounterKey, n: nat, job: Option<JobId>) {
    var next, last := before.nextDocument, CounterOf(before.counters, key);
    && after.nextDocument == next + n
    && (forall k :: CounterOf(after.counters, k) == if k == key then last + n else CounterOf(before.counters, k))
    && (forall d: nat :: d in after.documents <==> d in before.documents || next <= d < next + n)
    && (forall d :: d in before.documents && d < next ==> after.documents[d] == before.documents[d])
    && (forall d: nat :: next <= d < next + n ==> after.documents[d] == Document(key, last + 1 + (d - next), job))
  }

  // And its settlements link to that document.
  ghost predicate LinkedTo(before: Database, after: Database, documentType: DocumentType, groups: seq<seq<SettlementId>>) {
    && after.settlements.Keys == before.settlements.Keys
    && (forall g, i :: Place(groups, g, i) && groups[g][i] in before.settlements ==>
          after.settlements[groups[g][i]] == Linking(before.settlements[groups[g][i]], documentType, before.nextDocument + g))
    && (forall s :: s in before.settlements && (forall g, i :: Place(groups, g, i) ==> groups[g][i] != s)
          ==> after.settlements[s] == before.settlements[s])
  }

  function Linking(s: Settlement, documentType: DocumentType, document: DocumentId): Settlement {
    if documentType == LIQUIDACION then s.(resolution := Some(document)) else s.(order := Some(document))
  }

  lemma IssueNumbers(db: Database, key: CounterKey, groups: seq<seq<SettlementId>>, job: Option<JobId>)
    ensures var after := Issue(db, key, groups, job);
            Numbered(db, after, key, |groups|, job) && after.jobs == db.jobs && after.batches == db.batches
  {
    hide Flatten, LinkTargets, IssuedDocuments;
  }

  lemma IssueLinks(db: Database, key: CounterKey, groups: seq<seq<SettlementId>>, job: Option<JobId>)
    requires NoneTwice(groups)
    ensures LinkedTo(db, Issue(db, key, groups, job), key.documentType, groups)
  {
    hide Flatten, LinkTargets, IssuedDocuments;
    TargetsAre(groups, db.nextDocument);
  }

  lemma TargetsAre(groups: seq<seq<SettlementId>>, first: DocumentId)
    requires NoneTwice(groups)
    ensures forall g, i :: Place(groups, g, i) ==>
              groups[g][i] in LinkTargets(groups, first) && LinkTargets(groups, first)[groups[g][i]] == first + g
    ensures forall s :: s in LinkTargets(groups, first) ==> exists g, i :: Place(groups, g, i) && groups[g][i] == s
  {
    hide Flatten, LinkTargets;
    var targets := LinkTargets(groups, first);
    LinkTargetsMeaning(groups, first);
    FlattenPlaces(groups);
    forall g, i | Place(groups, g, i)
      ensures groups[g][i] in targets && targets[groups[g][i]] == first + g
    {
      var s := groups[g][i];
      assert s in Flatten(groups);
      var h := targets[s] - first;
      var k :| 0 <= k < |groups[h]| && groups[h][k] == s;
      assert Place(groups, h, k);
    }
  }

  ghost predicate IssuedRightly(before: Database, after: Database, key: CounterKey, groups: seq<seq<SettlementId>>, job: Option<JobId>) {
    Numbered(before, after, key, |groups|, job) && LinkedTo(before, after, key.documentType, groups)
  }

  // ---------- when, and when not ----------

  ghost predicate ReservedRightly(before: Database, id: JobId, key: CounterKey, groups: seq<seq<SettlementId>>, rerendered: nat,
                                  outcome: Outcome<Database>) {
    if groups == [] && rerendered == 0 then outcome == Refused(NOTHING_TO_GENERATE)
    else if Busy(before, key.municipality) then outcome == Refused(BULK_GENERATION_IN_PROGRESS)
    else if !MayLink(before, key.documentType, groups, true) then outcome == Refused(CONCURRENT_GENERATION)
    else
      var last := CounterOf(before.counters, key);
      && outcome.Accepted? && IssuedRightly(before, outcome.value, key, groups, Some(id))
      && outcome.value.batches == before.batches
      && outcome.value.jobs
         == before.jobs[id := Job(key, PREPARING, |groups| + rerendered, 0,
                                  if groups == [] then None else Some(Range(last + 1, last + |groups|)))]
  }

  lemma BusyIs(db: Database, municipality: nat)
    ensures Busy(db, municipality) <==> HasActiveJob(db, municipality)
  {
  }

  lemma ReserveIsRight(db: Database, id: JobId, key: CounterKey, groups: seq<seq<SettlementId>>, rerendered: nat)
    ensures ReservedRightly(db, id, key, groups, rerendered, Reserve(db, id, key, groups, rerendered))
  {
    hide Busy, HasActiveJob, MayLink, Linkable, Issue, Numbered, LinkedTo;
    BusyIs(db, key.municipality);
    MayLinkIs(db, key.documentType, groups, true);
    var last := CounterOf(db.counters, key);
    var jobs := db.jobs[id := Job(key, PREPARING, |groups| + rerendered, 0, if groups == [] then None else Some(Range(last + 1, last + |groups|)))];
    var withJob := db.(counters := db.counters[key := last], jobs := jobs);
    if groups == [] {
      NothingToLink(db, key, Some(id), withJob);
    } else if Linkable(db, key.documentType, groups, true) {
      LinkableIsNoneTwice(db, key.documentType, groups, true);
      IssueNumbers(withJob, key, groups, Some(id));
      IssueLinks(withJob, key, groups, Some(id));
      NumberedFrom(db, withJob, Issue(withJob, key, groups, Some(id)), key, groups, Some(id));
    }
  }

  lemma LinkableIsNoneTwice(db: Database, documentType: DocumentType, groups: seq<seq<SettlementId>>, currentOnly: bool)
    requires Linkable(db, documentType, groups, currentOnly)
    ensures NoneTwice(groups)
  {
    hide NoneTwice, Flatten;
    DistinctIsNoneTwice(groups);
  }

  // Locking the counter and inserting the job leave what is numbered as it was.
  lemma NumberedFrom(db: Database, withJob: Database, after: Database, key: CounterKey, groups: seq<seq<SettlementId>>, job: Option<JobId>)
    requires IssuedRightly(withJob, after, key, groups, job)
    requires withJob == db.(counters := db.counters[key := CounterOf(db.counters, key)], jobs := withJob.jobs)
    ensures IssuedRightly(db, after, key, groups, job)
  {
    assert forall k :: CounterOf(withJob.counters, k) == CounterOf(db.counters, k);
  }

  lemma NothingToLink(db: Database, key: CounterKey, job: Option<JobId>, withJob: Database)
    requires withJob == db.(counters := db.counters[key := CounterOf(db.counters, key)], jobs := withJob.jobs)
    ensures IssuedRightly(db, withJob, key, [], job) && MayLink(db, key.documentType, [], true)
  {
    assert forall g, i :: !Place<SettlementId>([], g, i);
  }

  // A single generation asks of a liquidation's settlements nothing about their replacement.
  ghost predicate SingleRightly(before: Database, key: CounterKey, groups: seq<seq<SettlementId>>, outcome: Outcome<Database>) {
    if groups == [] then outcome == Refused(NOTHING_TO_GENERATE)
    else if Busy(before, key.municipality) then outcome == Refused(BULK_GENERATION_IN_PROGRESS)
    else if !MayLink(before, key.documentType, groups, key.documentType == MANDAMIENTO) then outcome == Refused(CONCURRENT_GENERATION)
    else
      && outcome.Accepted? && IssuedRightly(before, outcome.value, key, groups, None)
      && outcome.value.batches == before.batches && outcome.value.jobs == before.jobs
  }

  lemma SingleIsRight(db: Database, key: CounterKey, groups: seq<seq<SettlementId>>)
    ensures SingleRightly(db, key, groups, IssueSingle(db, key, groups))
  {
    hide Busy, HasActiveJob, MayLink, Linkable, Issue, Numbered, LinkedTo;
    BusyIs(db, key.municipality);
    MayLinkIs(db, key.documentType, groups, key.documentType == MANDAMIENTO);
    if Linkable(db, key.documentType, groups, key.documentType == MANDAMIENTO) {
      LinkableIsNoneTwice(db, key.documentType, groups, key.documentType == MANDAMIENTO);
      IssueNumbers(db, key, groups, None);
      IssueLinks(db, key, groups, None);
    }
  }
}
