/** Results may arrive in any order and any number of times. */
module Confluence {
  import opened Numbering
  import opened Batching
  import opened Protocol
  import opened DatabaseInvariant
  import opened SystemInvariant
  import opened SystemSteps

  // A repeated result, of any kind, changes nothing the second time.
  lemma ApplyTwiceIsApplyOnce(s: State, r: Result)
    ensures DoApplyResult(DoApplyResult(s, r), r) == DoApplyResult(s, r)
  {
    var once := DoApplyResult(s, r);
    if r in s.results {
      match r
      case BatchDone(id, b, n, attempt) => MarkTwiceIsMarkOnce(s.db, id, b, n, attempt);
      case BatchFailed(id, _) => assert once.db.jobs == Revert(s.db, id, {PREPARING, RUNNING}).jobs;
      case ZipDone(id) => assert once.db == Advance(s.db, id, ASSEMBLING, DONE);
      case ZipFailed(id) => assert once.db.jobs == Revert(s.db, id, {ASSEMBLING}).jobs;
    }
  }

  lemma MarkTwiceIsMarkOnce(db: Database, id: JobId, b: int, n: nat, attempt: nat)
    ensures var once := ApplyBatchDone(db, id, b, n, attempt).0; ApplyBatchDone(once, id, b, n, attempt) == (once, false)
  {
    if id in db.jobs && id in db.batches {
      var once := ApplyBatchDone(db, id, b, n, attempt).0;
      assert once.jobs[id := once.jobs[id]] == once.jobs;
      assert once.batches[id := once.batches[id]] == once.batches;
    }
  }

  // ---------- any order, any repetition ----------

  // The DONE results of one job, in the order they are applied.
  function ApplyAll(job: Job, rows: seq<BatchRow>, results: seq<Result>): (Job, seq<BatchRow>)
    requires forall i :: 0 <= i < |results| ==> results[i].BatchDone?
  {
    if results == [] then (job, rows)
    else
      var last := |results| - 1;
      var (j, r) := ApplyAll(job, rows, results[..last]);
      var marked := MarkBatch(j, r, results[last].batchIndex, results[last].documentCount, results[last].attempt);
      (marked.job, marked.rows)
  }

  function Indexes(results: seq<Result>): set<nat>
    requires forall i :: 0 <= i < |results| ==> results[i].BatchDone?
  {
    set i | 0 <= i < |results| :: results[i].batchIndex
  }

  // Counts carried by results are the counts of their rows.
  predicate CountsAgree(rows: seq<BatchRow>, results: seq<Result>) {
    forall i :: 0 <= i < |results| ==>
      results[i].BatchDone? && (results[i].batchIndex < |rows| ==> results[i].documentCount == rows[results[i].batchIndex].documentCount)
  }

  // Rows up to the attempt that finished them.
  predicate SameRows(a: seq<BatchRow>, b: seq<BatchRow>) {
    |a| == |b| && forall k :: 0 <= k < |a| ==> a[k].done == b[k].done && a[k].documentCount == b[k].documentCount
  }

  function Marking(rows: seq<BatchRow>, indexes: set<nat>): seq<BatchRow> {
    seq(|rows|, b requires 0 <= b < |rows| => if b in indexes then rows[b].(done := true) else rows[b])
  }

  // Documents of the pending rows among the given batches.
  function Gained(rows: seq<BatchRow>, indexes: set<nat>): nat {
    if rows == [] then 0
    else
      var last := |rows| - 1;
      Gained(rows[..last], indexes) + (if last in indexes && !rows[last].done then rows[last].documentCount else 0)
  }

  // Closed form of applying the results of a set of batches.
  function Outcome(job: Job, rows: seq<BatchRow>, indexes: set<nat>): Job {
    if !BatchPhase(job.status) then job
    else
      var counted := job.(completed := job.completed + Gained(rows, indexes));
      if AllDone(Marking(rows, indexes)) then counted.(status := ASSEMBLING) else counted
  }

  lemma {:induction false} GainedIsDoneSum(rows: seq<BatchRow>, indexes: set<nat>)
    ensures DoneSum(Marking(rows, indexes)) == DoneSum(rows) + Gained(rows, indexes)
  {
    if rows != [] {
      var last := |rows| - 1;
      GainedIsDoneSum(rows[..last], indexes);
      assert Marking(rows, indexes)[..last] == Marking(rows[..last], indexes);
    }
  }

  lemma {:induction false} DoneSumDependsOnDone(a: seq<BatchRow>, b: seq<BatchRow>)
    requires SameRows(a, b)
    ensures DoneSum(a) == DoneSum(b)
  {
    if a != [] {
      DoneSumDependsOnDone(a[..|a| - 1], b[..|b| - 1]);
    }
  }

  predicate Reached(job: Job, rows: seq<BatchRow>, indexes: set<nat>, j: Job, r: seq<BatchRow>) {
    && SameRows(r, Marking(rows, indexes))
    && j.completed + DoneSum(rows) == job.completed + DoneSum(r)
    && j == job.(completed := j.completed, status := j.status)
    && j.status == if AllDone(r) then ASSEMBLING else job.status
  }

  lemma OneMoreResult(job: Job, rows: seq<BatchRow>, indexes: set<nat>, j: Job, r: seq<BatchRow>, result: Result)
    requires Reached(job, rows, indexes, j, r) && BatchPhase(job.status) && result.BatchDone?
    requires result.batchIndex < |rows| ==> result.documentCount == rows[result.batchIndex].documentCount
    ensures var marked := MarkBatch(j, r, result.batchIndex, result.documentCount, result.attempt);
            Reached(job, rows, indexes + {result.batchIndex}, marked.job, marked.rows)
  {
    hide DoneSum;
    if BatchPhase(j.status) && result.batchIndex < |r| && !r[result.batchIndex].done {
      DoneSumAfterMark(r, result.batchIndex, result.attempt);
    }
  }

  lemma NothingReached(job: Job, rows: seq<BatchRow>)
    requires !AllDone(rows)
    ensures Reached(job, rows, {}, job, rows)
  {
    assert Marking(rows, {}) == rows;
  }

  // While the job takes results and some row is pending, applying a list has the closed form.
  lemma {:induction false} ApplyAllClosedForm(job: Job, rows: seq<BatchRow>, results: seq<Result>)
    requires CountsAgree(rows, results) && BatchPhase(job.status) && !AllDone(rows)
    ensures Reached(job, rows, Indexes(results), ApplyAll(job, rows, results).0, ApplyAll(job, rows, results).1)
  {
    hide Reached, MarkBatch, AllDone;
    if results == [] {
      NothingReached(job, rows);
      assert Indexes(results) == {};
    } else {
      var last := |results| - 1;
      ApplyAllClosedForm(job, rows, results[..last]);
      var (j, r) := ApplyAll(job, rows, results[..last]);
      assert Indexes(results) == Indexes(results[..last]) + {results[last].batchIndex};
      OneMoreResult(job, rows, Indexes(results[..last]), j, r, results[last]);
    }
  }

  // Nothing moves outside the batch phase.
  lemma {:induction false} ApplyAllOutsidePhase(job: Job, rows: seq<BatchRow>, results: seq<Result>)
    requires CountsAgree(rows, results) && !BatchPhase(job.status)
    ensures ApplyAll(job, rows, results) == (job, rows)
  {
    if results != [] {
      ApplyAllOutsidePhase(job, rows, results[..|results| - 1]);
    }
  }

  // Two lists of results of the same batches, whatever their order and repetitions, leave the same
  // job row and the same rows up to attempts.
  lemma DeliveryIsConfluent(job: Job, rows: seq<BatchRow>, first: seq<Result>, second: seq<Result>)
    requires CountsAgree(rows, first) && CountsAgree(rows, second) && Indexes(first) == Indexes(second)
    requires BatchPhase(job.status) ==> !AllDone(rows)
    ensures ApplyAll(job, rows, first).0 == ApplyAll(job, rows, second).0
    ensures SameRows(ApplyAll(job, rows, first).1, ApplyAll(job, rows, second).1)
    ensures ApplyAll(job, rows, first).0 == Outcome(job, rows, Indexes(first))
  {
    if BatchPhase(job.status) {
      ApplyAllClosedForm(job, rows, first);
      ApplyAllClosedForm(job, rows, second);
      var a, b := ApplyAll(job, rows, first).1, ApplyAll(job, rows, second).1;
      DoneSumDependsOnDone(a, b);
      DoneSumDependsOnDone(a, Marking(rows, Indexes(first)));
      GainedIsDoneSum(rows, Indexes(first));
      assert AllDone(a) <==> AllDone(b);
      assert AllDone(a) <==> AllDone(Marking(rows, Indexes(first)));
    } else {
      ApplyAllOutsidePhase(job, rows, first);
      ApplyAllOutsidePhase(job, rows, second);
    }
  }

  // ---------- the same in the running system ----------

  function Deliveries(results: seq<Result>): seq<Event> {
    seq(|results|, i requires 0 <= i < |results| => ApplyResult(results[i]))
  }

  predicate ResultsOf(s: State, id: JobId, results: seq<Result>) {
    forall i :: 0 <= i < |results| ==> results[i] in s.results && results[i].BatchDone? && results[i].job == id
  }

  // One delivered batch result.
  lemma Delivered(s: State, id: JobId, result: Result)
    requires result in s.results && result.BatchDone? && result.job == id && id in s.db.jobs && id in s.db.batches
    ensures var next := Exec(s, ApplyResult(result));
            var marked := MarkBatch(s.db.jobs[id], s.db.batches[id], result.batchIndex, result.documentCount, result.attempt);
            && next.results == s.results && id in next.db.jobs && id in next.db.batches
            && next.db.jobs[id] == marked.job && next.db.batches[id] == marked.rows
  {
    hide Exec, MarkBatch;
    Dispatched(s, ApplyResult(result));
  }

  lemma {:induction false} DeliveriesApplyAll(s: State, id: JobId, results: seq<Result>)
    requires ResultsOf(s, id, results) && id in s.db.jobs && id in s.db.batches
    ensures var next := Run(s, Deliveries(results));
            && next.results == s.results && id in next.db.jobs && id in next.db.batches
            && (next.db.jobs[id], next.db.batches[id]) == ApplyAll(s.db.jobs[id], s.db.batches[id], results)
  {
    hide Exec, MarkBatch;
    if results != [] {
      var last := |results| - 1;
      DeliveriesApplyAll(s, id, results[..last]);
      assert Deliveries(results)[..last] == Deliveries(results[..last]);
      Delivered(Run(s, Deliveries(results[..last])), id, results[last]);
    }
  }

  // In any state that keeps the invariant, delivering a job's pending results in any order and any
  // number of times gives the same job row and the same rows up to attempts.
  lemma SystemDeliveryIsConfluent(s: State, id: JobId, first: seq<Result>, second: seq<Result>)
    requires Inv(s) && id in s.db.jobs && id in s.db.batches && Active(s.db.jobs[id].status)
    requires ResultsOf(s, id, first) && ResultsOf(s, id, second) && Indexes(first) == Indexes(second)
    ensures var a, b := Run(s, Deliveries(first)).db, Run(s, Deliveries(second)).db;
            && id in a.jobs && id in b.jobs && a.jobs[id] == b.jobs[id]
            && id in a.batches && id in b.batches && SameRows(a.batches[id], b.batches[id])
  {
    hide Run, Inv, SameRows, BatchPhase, AllDone;
    DeliveriesApplyAll(s, id, first);
    DeliveriesApplyAll(s, id, second);
    CountsOfResults(s, id, first);
    CountsOfResults(s, id, second);
    if BatchPhase(s.db.jobs[id].status) {
      PendingRow(s, id);
    }
    DeliveryIsConfluent(s.db.jobs[id], s.db.batches[id], first, second);
  }

  lemma CountsOfResults(s: State, id: JobId, results: seq<Result>)
    requires Inv(s) && id in s.db.jobs && id in s.db.batches && Active(s.db.jobs[id].status) && ResultsOf(s, id, results)
    ensures CountsAgree(s.db.batches[id], results)
  {
    hide DbInv, ZipKept;
    assert Progress(s.db.jobs[id], s.plans[id], true, RowsIn(s.db.batches, id));
    forall i | 0 <= i < |results|
      ensures results[i].batchIndex < |s.db.batches[id]| ==> results[i].documentCount == s.db.batches[id][results[i].batchIndex].documentCount
    {
      assert ResultOk(s.plans, results[i]);
    }
  }

  lemma PendingRow(s: State, id: JobId)
    requires Inv(s) && id in s.db.jobs && id in s.db.batches && BatchPhase(s.db.jobs[id].status)
    ensures !AllDone(s.db.batches[id])
  {
    hide DbInv, ZipKept, NetInv;
    assert Progress(s.db.jobs[id], s.plans[id], true, RowsIn(s.db.batches, id));
  }
}
