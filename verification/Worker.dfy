/** One delivery of a queue message to the worker, with the process dying (or Storage failing) after
    any number of Storage operations, and whole runs of such deliveries. */
module Worker {
  import opened Numbering
  import opened Protocol

  type MessageId = nat

  datatype JobErrorCode =
    | INVALID_MESSAGE
    | PDF_TEMPLATE_UNAVAILABLE
    | PDF_TEMPLATE_INVALID
    | TEMPLATE_RENDER_FAILED
    | PDF_CONVERSION_TIMEOUT
    | PDF_CONVERSION_FAILED
    | PDF_STORAGE_UNAVAILABLE
    | BULK_ZIP_INCOMPLETE

  const PERMANENT: set<JobErrorCode> :=
    {INVALID_MESSAGE, PDF_TEMPLATE_UNAVAILABLE, PDF_TEMPLATE_INVALID, TEMPLATE_RENDER_FAILED, BULK_ZIP_INCOMPLETE}

  // The fields of a message text that name its job, as far as they can be read.
  datatype Raw = Raw(isObject: bool, messageType: string, job: Option<JobId>, batchIndex: Option<int>)

  // Just enough of a message to address a FAILED result.
  datatype ReportTarget = BatchTarget(job: JobId, batchIndex: int) | ZipTarget(job: JobId)

  datatype Parsed = Invalid(raw: Raw) | Valid(message: WorkMessage)

  datatype QueueMessage = QueueMessage(id: MessageId, text: string, parsed: Parsed)

  // How the attempt at a valid message ended: the documents it wrote, or an error.
  datatype Attempt = Completed(documentCount: nat) | Raised(code: JobErrorCode)

  datatype Report =
    | Success(target: ReportTarget, documentCount: nat, attempt: nat)
    | Failure(target: ReportTarget, code: JobErrorCode, attempt: nat)

  datatype Operation = SendResult(report: Report) | SendPoison(text: string) | DeleteWork(id: MessageId)

  datatype Queues = Queues(work: map<MessageId, QueueMessage>, results: seq<Report>, poison: seq<string>)

  function TargetOf(raw: Raw): Option<ReportTarget> {
    if !raw.isObject || raw.job.None? then None
    else if raw.messageType == "assemble-zip" then Some(ZipTarget(raw.job.value))
    else if raw.messageType == "render-batch" && raw.batchIndex.Some? then Some(BatchTarget(raw.job.value, raw.batchIndex.value))
    else None
  }

  function TargetOfMessage(message: WorkMessage): ReportTarget {
    match message
    case RenderBatch(id, b) => BatchTarget(id, b)
    case AssembleZip(id, _) => ZipTarget(id)
  }

  // Kept in poison for diagnosis; reported when the job can be told.
  function InvalidOperations(queued: QueueMessage, raw: Raw, attempt: nat): seq<Operation> {
    (if TargetOf(raw).Some? then [SendResult(Failure(TargetOf(raw).value, INVALID_MESSAGE, attempt))] else [])
    + [SendPoison(queued.text), DeleteWork(queued.id)]
  }

  function FailureOperations(queued: QueueMessage, target: ReportTarget, code: JobErrorCode, attempt: nat, toPoison: bool): seq<Operation> {
    [SendResult(Failure(target, code, attempt))] + (if toPoison then [SendPoison(queued.text)] else []) + [DeleteWork(queued.id)]
  }

  // What a delivery does to the queues, in order.
  function Operations(queued: QueueMessage, attempt: nat, maxAttempts: nat, outcome: Attempt): seq<Operation> {
    match queued.parsed
    case Invalid(raw) => InvalidOperations(queued, raw, attempt)
    case Valid(message) =>
      var target := TargetOfMessage(message);
      if attempt > maxAttempts then FailureOperations(queued, target, PDF_CONVERSION_FAILED, attempt, true)
      else
        match outcome
        case Completed(n) => [SendResult(Success(target, n, attempt)), DeleteWork(queued.id)]
        case Raised(code) =>
          if code in PERMANENT || attempt >= maxAttempts then
            FailureOperations(queued, target, code, attempt, code !in PERMANENT)
          else []
  }

  function Perform(q: Queues, operation: Operation): Queues {
    match operation
    case SendResult(r) => q.(results := q.results + [r])
    case SendPoison(t) => q.(poison := q.poison + [t])
    case DeleteWork(id) => q.(work := q.work - {id})
  }

  function PerformAll(q: Queues, operations: seq<Operation>): Queues {
    if operations == [] then q
    else Perform(PerformAll(q, operations[..|operations| - 1]), operations[|operations| - 1])
  }

  function Take<T>(items: seq<T>, n: nat): seq<T> {
    if n < |items| then items[..n] else items
  }

  // ---------- the worker's own code ----------

  // The three queues, and how many more operations go through before the process dies.
  class Storage {
    var work: map<MessageId, QueueMessage>
    var results: seq<Report>
    var poison: seq<string>
    var remaining: nat

    function Snapshot(): Queues
      reads this
    {
      Queues(work, results, poison)
    }

    method Send(report: Report) returns (ok: bool)
      modifies this
      ensures ok <==> old(remaining) > 0
      ensures Snapshot() == if ok then Perform(old(Snapshot()), SendResult(report)) else old(Snapshot())
      ensures remaining == if ok then old(remaining) - 1 else 0
    {
      ok := remaining > 0;
      if ok {
        results, remaining := results + [report], remaining - 1;
      }
    }

    method Poison(text: string) returns (ok: bool)
      modifies this
      ensures ok <==> old(remaining) > 0
      ensures Snapshot() == if ok then Perform(old(Snapshot()), SendPoison(text)) else old(Snapshot())
      ensures remaining == if ok then old(remaining) - 1 else 0
    {
      ok := remaining > 0;
      if ok {
        poison, remaining := poison + [text], remaining - 1;
      }
    }

    method Delete(id: MessageId) returns (ok: bool)
      modifies this
      ensures ok <==> old(remaining) > 0
      ensures Snapshot() == if ok then Perform(old(Snapshot()), DeleteWork(id)) else old(Snapshot())
      ensures remaining == if ok then old(remaining) - 1 else 0
    {
      ok := remaining > 0;
      if ok {
        work, remaining := work - {id}, remaining - 1;
      }
    }

    method PublishFailure(queued: QueueMessage, target: ReportTarget, code: JobErrorCode, attempt: nat, toPoison: bool)
      modifies this
      ensures Snapshot()
           == PerformAll(old(Snapshot()), Take(FailureOperations(queued, target, code, attempt, toPoison), old(remaining)))
    {
      PrefixSteps(Snapshot(), FailureOperations(queued, target, code, attempt, toPoison));
      var ok := Send(Failure(target, code, attempt));
      if ok && toPoison {
        ok := Poison(queued.text);
      }
      if ok {
        ok := Delete(queued.id);
      }
    }

    method PublishInvalid(queued: QueueMessage, raw: Raw, attempt: nat)
      modifies this
      ensures Snapshot() == PerformAll(old(Snapshot()), Take(InvalidOperations(queued, raw, attempt), old(remaining)))
    {
      PrefixSteps(Snapshot(), InvalidOperations(queued, raw, attempt));
      var target := TargetOf(raw);
      var ok := true;
      if target.Some? {
        ok := Send(Failure(target.value, INVALID_MESSAGE, attempt));
      }
      if ok {
        ok := Poison(queued.text);
      }
      if ok {
        ok := Delete(queued.id);
      }
    }

    // Whatever point it dies at, what it did is a prefix of the operations of the delivery.
    method HandleMessage(queued: QueueMessage, attempt: nat, maxAttempts: nat, outcome: Attempt)
      modifies this
      ensures Snapshot() == PerformAll(old(Snapshot()), Take(Operations(queued, attempt, maxAttempts, outcome), old(remaining)))
      ensures old(remaining) >= 3 ==> Delivered(old(Snapshot()), Snapshot(), queued, attempt, maxAttempts, outcome)
    {
      hide Delivered;
      DeliveryDelivers(Snapshot(), queued, attempt, maxAttempts, outcome);
      AtMostThree(queued, attempt, maxAttempts, outcome);
      if queued.parsed.Invalid? {
        PublishInvalid(queued, queued.parsed.raw, attempt);
        return;
      }
      var target := TargetOfMessage(queued.parsed.message);
      // Seen more times than allowed: the worker died while processing it.
      if attempt > maxAttempts {
        PublishFailure(queued, target, PDF_CONVERSION_FAILED, attempt, true);
        return;
      }
      if outcome.Raised? {
        if outcome.code in PERMANENT || attempt >= maxAttempts {
          PublishFailure(queued, target, outcome.code, attempt, outcome.code !in PERMANENT);
        }
        // Otherwise left in the queue: it reappears after the visibility timeout.
        return;
      }
      PrefixSteps(Snapshot(), Operations(queued, attempt, maxAttempts, outcome));
      var ok := Send(Success(target, outcome.documentCount, attempt));
      if ok {
        ok := Delete(queued.id);
      }
    }
  }

  // A delivery performs at most three operations; its prefixes one by one.
  lemma PrefixSteps(q: Queues, operations: seq<Operation>)
    ensures PerformAll(q, Take(operations, 0)) == q
    ensures forall n: nat :: n < |operations| ==>
              PerformAll(q, Take(operations, n + 1)) == Perform(PerformAll(q, Take(operations, n)), operations[n])
    ensures forall n: nat :: n >= |operations| ==> Take(operations, n) == operations == Take(operations, |operations|)
  {
    forall n: nat | n < |operations|
      ensures PerformAll(q, Take(operations, n + 1)) == Perform(PerformAll(q, Take(operations, n)), operations[n])
    {
      var prefix := Take(operations, n + 1);
      assert prefix == operations[..n + 1] && prefix[..n] == operations[..n];
    }
  }

  // ---------- what a delivery reports ----------

  // To whom an unreadable message can still be reported.
  predicate Addressed(raw: Raw, target: ReportTarget) {
    && raw.isObject && raw.job.Some? && raw.job.value == target.job
    && match target
       case BatchTarget(_, batchIndex) => raw.messageType == "render-batch" && raw.batchIndex == Some(batchIndex)
       case ZipTarget(_) => raw.messageType == "assemble-zip"
  }

  // To whom a readable one is.
  predicate Answered(message: WorkMessage, target: ReportTarget) {
    match message
    case RenderBatch(job, batchIndex) => target == BatchTarget(job, batchIndex)
    case AssembleZip(job, _) => target == ZipTarget(job)
  }

  // Storage or the converter failed: another attempt may go well.
  predicate Transient(code: JobErrorCode) {
    code == PDF_CONVERSION_TIMEOUT || code == PDF_CONVERSION_FAILED || code == PDF_STORAGE_UNAVAILABLE
  }

  // The message is left in the queue for another attempt.
  predicate LeftToRetry(queued: QueueMessage, attempt: nat, maxAttempts: nat, outcome: Attempt) {
    queued.parsed.Valid? && attempt < maxAttempts && outcome.Raised? && Transient(outcome.code)
  }

  // The one report a delivery that runs to its end publishes: a success exactly for an attempt that was
  // allowed and completed, with its count; otherwise the failure, with its own code.
  predicate Reported(queued: QueueMessage, attempt: nat, maxAttempts: nat, outcome: Attempt, report: Report) {
    match queued.parsed
    case Invalid(raw) => report.Failure? && report.code == INVALID_MESSAGE && report.attempt == attempt && Addressed(raw, report.target)
    case Valid(message) =>
      && Answered(message, report.target) && report.attempt == attempt
      && (report.Success? <==> attempt <= maxAttempts && outcome.Completed?)
      && (report.Success? ==> report.documentCount == outcome.documentCount)
      && (report.Failure? ==> report.code == if attempt > maxAttempts then PDF_CONVERSION_FAILED else outcome.code)
  }

  // Its text goes to poison exactly when it cannot be read, was seen too often, or its last attempt
  // failed in a way that might have passed.
  predicate Poisoned(queued: QueueMessage, attempt: nat, maxAttempts: nat, outcome: Attempt) {
    || queued.parsed.Invalid?
    || attempt > maxAttempts
    || (attempt == maxAttempts && outcome.Raised? && Transient(outcome.code))
  }

  ghost predicate Reportable(queued: QueueMessage) {
    queued.parsed.Valid? || exists target :: Addressed(queued.parsed.raw, target)
  }

  // The whole of what a delivery run to its end does to the three queues.
  ghost predicate Delivered(before: Queues, after: Queues, queued: QueueMessage, attempt: nat, maxAttempts: nat, outcome: Attempt) {
    if LeftToRetry(queued, attempt, maxAttempts, outcome) then after == before
    else
      && after.work == before.work - {queued.id}
      && after.poison == before.poison + (if Poisoned(queued, attempt, maxAttempts, outcome) then [queued.text] else [])
      && (if Reportable(queued) then
            && |after.results| == |before.results| + 1 && after.results[..|before.results|] == before.results
            && Reported(queued, attempt, maxAttempts, outcome, after.results[|before.results|])
          else after.results == before.results)
  }

  lemma DeliveryDelivers(q: Queues, queued: QueueMessage, attempt: nat, maxAttempts: nat, outcome: Attempt)
    ensures Delivered(q, PerformAll(q, Operations(queued, attempt, maxAttempts, outcome)), queued, attempt, maxAttempts, outcome)
  {
    var operations := Operations(queued, attempt, maxAttempts, outcome);
    StepsOf(q, operations);
    if queued.parsed.Invalid? {
      WhoIsAddressed(queued.parsed.raw);
    }
  }

  // At most three operations, one after the other.
  lemma StepsOf(q: Queues, operations: seq<Operation>)
    ensures operations == [] ==> PerformAll(q, operations) == q
    ensures |operations| == 1 ==> PerformAll(q, operations) == Perform(q, operations[0])
    ensures |operations| == 2 ==> PerformAll(q, operations) == Perform(Perform(q, operations[0]), operations[1])
    ensures |operations| == 3 ==>
              PerformAll(q, operations) == Perform(Perform(Perform(q, operations[0]), operations[1]), operations[2])
  {
    hide Perform;
    PrefixSteps(q, operations);
    assert operations == Take(operations, |operations|);
  }

  lemma AtMostThree(queued: QueueMessage, attempt: nat, maxAttempts: nat, outcome: Attempt)
    ensures |Operations(queued, attempt, maxAttempts, outcome)| <= 3
    ensures forall n: nat :: n >= 3 ==>
              Take(Operations(queued, attempt, maxAttempts, outcome), n) == Operations(queued, attempt, maxAttempts, outcome)
  {
  }

  lemma WhoIsAddressed(raw: Raw)
    ensures TargetOf(raw).Some? ==> Addressed(raw, TargetOf(raw).value)
    ensures (exists target :: Addressed(raw, target)) <==> TargetOf(raw).Some?
  {
    assert "render-batch"[0] != "assemble-zip"[0];
    assert TargetOf(raw).Some? ==> Addressed(raw, TargetOf(raw).value);
    if target :| Addressed(raw, target) {
      assert TargetOf(raw) == Some(target);
    }
  }

  // ---------- accounting ----------

  // The message was answered: a result went to its job and batch, or its text is kept in poison when
  // no job can be told.
  predicate Accounted(q: Queues, queued: QueueMessage) {
    match queued.parsed
    case Valid(message) => exists r :: r in q.results && r.target == TargetOfMessage(message)
    case Invalid(raw) =>
      && queued.text in q.poison
      && (TargetOf(raw).Some? ==> exists r :: r in q.results && r.target == TargetOf(raw).value)
  }

  predicate Extends(before: Queues, after: Queues) {
    && |before.results| <= |after.results| && after.results[..|before.results|] == before.results
    && |before.poison| <= |after.poison| && after.poison[..|before.poison|] == before.poison
  }

  lemma ExtendsKeepsAccounted(before: Queues, after: Queues, queued: QueueMessage)
    requires Extends(before, after) && Accounted(before, queued)
    ensures Accounted(after, queued)
  {
    assert forall r :: r in before.results ==> r in after.results[..|before.results|];
    assert forall t :: t in before.poison ==> t in after.poison[..|before.poison|];
    match queued.parsed
    case Valid(message) =>
      var r :| r in before.results && r.target == TargetOfMessage(message);
      assert r in after.results;
    case Invalid(raw) =>
      assert queued.text in after.poison;
      if TargetOf(raw).Some? {
        var r :| r in before.results && r.target == TargetOf(raw).value;
        assert r in after.results;
      }
  }

  // At every crash point: the message is still there, or it is accounted for; no other message leaves.
  lemma DeliveryAccounts(q: Queues, queued: QueueMessage, attempt: nat, maxAttempts: nat, outcome: Attempt, crashAfter: nat)
    ensures var after := PerformAll(q, Take(Operations(queued, attempt, maxAttempts, outcome), crashAfter));
            && Extends(q, after)
            && (after.work == q.work || (after.work == q.work - {queued.id} && Accounted(after, queued)))
  {
    var operations := Operations(queued, attempt, maxAttempts, outcome);
    if operations != [] {
      AnswersBeforeDelete(queued, attempt, maxAttempts, outcome);
      var answers := operations[..|operations| - 1];
      assert operations == answers + [DeleteWork(queued.id)];
      PrefixOfAnswers(q, answers, queued, crashAfter);
    }
  }

  predicate Answers(operations: seq<Operation>) {
    forall i :: 0 <= i < |operations| ==> !operations[i].DeleteWork?
  }

  // A delivery answers first and deletes last.
  lemma AnswersBeforeDelete(queued: QueueMessage, attempt: nat, maxAttempts: nat, outcome: Attempt)
    requires Operations(queued, attempt, maxAttempts, outcome) != []
    ensures var operations := Operations(queued, attempt, maxAttempts, outcome);
            var answers := operations[..|operations| - 1];
            && operations[|operations| - 1] == DeleteWork(queued.id)
            && Answers(answers)
            && AnswersAddress(answers, queued)
  {
    var operations := Operations(queued, attempt, maxAttempts, outcome);
    assert operations[0].SendResult? ==> operations[0] in operations[..|operations| - 1];
    if queued.parsed.Invalid? {
      assert operations[|operations| - 2] in operations[..|operations| - 1];
    }
  }

  // The answers say to whom they are addressed, or keep the text.
  predicate AnswersAddress(answers: seq<Operation>, queued: QueueMessage) {
    match queued.parsed
    case Valid(message) => exists o :: o in answers && o.SendResult? && o.report.target == TargetOfMessage(message)
    case Invalid(raw) =>
      && SendPoison(queued.text) in answers
      && (TargetOf(raw).Some? ==> exists o :: o in answers && o.SendResult? && o.report.target == TargetOf(raw).value)
  }

  lemma {:induction false} AnswersOnlyAdd(q: Queues, answers: seq<Operation>)
    requires Answers(answers)
    ensures var after := PerformAll(q, answers);
            && after.work == q.work && Extends(q, after)
            && (forall o :: o in answers && o.SendResult? ==> o.report in after.results)
            && (forall o :: o in answers && o.SendPoison? ==> o.text in after.poison)
  {
    if answers != [] {
      var last := |answers| - 1;
      AnswersOnlyAdd(q, answers[..last]);
      assert answers == answers[..last] + [answers[last]];
    }
  }

  lemma PrefixOfAnswers(q: Queues, answers: seq<Operation>, queued: QueueMessage, crashAfter: nat)
    requires Answers(answers) && AnswersAddress(answers, queued)
    ensures var after := PerformAll(q, Take(answers + [DeleteWork(queued.id)], crashAfter));
            && Extends(q, after)
            && (after.work == q.work || (after.work == q.work - {queued.id} && Accounted(after, queued)))
  {
    var operations := answers + [DeleteWork(queued.id)];
    if crashAfter <= |answers| {
      assert Take(operations, crashAfter) == answers[..crashAfter];
      AnswersOnlyAdd(q, answers[..crashAfter]);
    } else {
      assert Take(operations, crashAfter) == operations && operations[..|answers|] == answers;
      AnswersOnlyAdd(q, answers);
      var after := PerformAll(q, operations);
      assert after == PerformAll(q, answers).(work := q.work - {queued.id});
      match queued.parsed
      case Valid(message) =>
        var o :| o in answers && o.SendResult? && o.report.target == TargetOfMessage(message);
        assert o.report in after.results;
      case Invalid(raw) =>
        if TargetOf(raw).Some? {
          var o :| o in answers && o.SendResult? && o.report.target == TargetOf(raw).value;
          assert o.report in after.results;
        }
    }
  }

  // With Storage available, a delivery at the last allowed attempt or later always removes its message,
  // and so does one that ends well or in a permanent error; only a transient error is left to retry.
  lemma DeliveryRemoves(q: Queues, queued: QueueMessage, attempt: nat, maxAttempts: nat, outcome: Attempt)
    requires queued.id in q.work
    ensures queued.id !in PerformAll(q, Operations(queued, attempt, maxAttempts, outcome)).work <==>
              || attempt >= maxAttempts
              || queued.parsed.Invalid?
              || outcome.Completed?
              || outcome.code in PERMANENT
  {
    if Operations(queued, attempt, maxAttempts, outcome) != [] {
      AnswersBeforeDelete(queued, attempt, maxAttempts, outcome);
    }
  }

  // ---------- whole runs ----------

  // A message is picked by id; a delivery of an id that is gone does nothing.
  datatype Delivery = Delivery(id: MessageId, attempt: nat, outcome: Attempt, crashAfter: nat)

  function Deliver(q: Queues, d: Delivery, maxAttempts: nat): Queues {
    if d.id !in q.work then q
    else PerformAll(q, Take(Operations(q.work[d.id], d.attempt, maxAttempts, d.outcome), d.crashAfter))
  }

  function DeliverAll(q: Queues, deliveries: seq<Delivery>, maxAttempts: nat): Queues {
    if deliveries == [] then q
    else Deliver(DeliverAll(q, deliveries[..|deliveries| - 1], maxAttempts), deliveries[|deliveries| - 1], maxAttempts)
  }

  predicate IdsMatch(q: Queues) {
    forall id :: id in q.work ==> q.work[id].id == id
  }

  // Over any run of deliveries, crashes and retries, no message is lost: each one is still in the
  // queue, unchanged, or it has been accounted for.
  lemma {:induction false} NoMessageIsLost(q: Queues, deliveries: seq<Delivery>, maxAttempts: nat)
    requires IdsMatch(q)
    ensures var after := DeliverAll(q, deliveries, maxAttempts);
            && IdsMatch(after)
            && after.work.Keys <= q.work.Keys
            && forall id :: id in q.work ==> (id in after.work && after.work[id] == q.work[id]) || Accounted(after, q.work[id])
  {
    if deliveries != [] {
      var last := |deliveries| - 1;
      var d := deliveries[last];
      NoMessageIsLost(q, deliveries[..last], maxAttempts);
      var before := DeliverAll(q, deliveries[..last], maxAttempts);
      var after := DeliverAll(q, deliveries, maxAttempts);
      if d.id in before.work {
        DeliveryAccounts(before, before.work[d.id], d.attempt, maxAttempts, d.outcome, d.crashAfter);
      }
      forall id | id in q.work
        ensures (id in after.work && after.work[id] == q.work[id]) || Accounted(after, q.work[id])
      {
        if Accounted(before, q.work[id]) {
          ExtendsKeepsAccounted(before, after, q.work[id]);
        }
      }
    }
  }
}
