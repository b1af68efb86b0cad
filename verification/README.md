# Verified model of the liquidation platform

A Dafny model of the parts of the platform where a mistake costs most: the bulk generation of legal
documents, the marking of their templates, the loading of the tax roll and the life of a settlement, and the
sessions and lockouts of the administrators. To verify it with Dafny 4.11: `dafny verify dfyconfig.toml`.

## The bulk job

`Protocol` is the whole system as a transition system: counters, jobs, batch rows, issued documents,
settlements with their links, the two queues as multisets, the blobs, and the worker's attempts. Each
database transaction and each Storage call is one event; receiving a message does not remove it, any attempt
can crash between two calls, and a refused event changes nothing, so a run is any sequence of events.
`DatabaseInvariant`, `SystemInvariant` and `SystemSteps` prove the inductive invariant; `Runs`, `Downloads`,
`Reverts` and `Confluence` draw the statements over whole runs from it: gap-free numbering, complete ZIPs,
numbers that never stand for two documents, failures that leave no trace, and results that may come in any
order, any number of times. `ReserveLaws` and `JobLaws` say what each reservation, result and failure does
in the tables and queues themselves, and `JobRuns` that every job can be brought from its creation to its
download. `PdfJobsService` and `Worker` run the same transactions and deliveries step by step over mutable
tables and queues and are proved to do what the protocol says. `Numbering` and `Batching` hold the numbers,
the file names and the cut into batches.

## Guided marking

`GuidedMarking` is the printer: ranges of a paragraph's flattened text replaced in its text nodes from the
end backwards, proved equal to simultaneous substitution. `MarkerScan` and `MarkerReader` are the reader:
the regular expression's matches and the stack of open loops; `ReaderLaws` says what a tag stands for by its
characters. `MarkThenRead`, `MarkedPart` and `MarkedReading` prove what is read back after any accepted
request: old markers move, and every selection reads as its field unless it is a table field whose loop is
not the innermost one open at its place. `RowLoops` says when a row is wrapped in its loop's tags and
`RowFields` which rows' fields read back. `Selections` and `MarkedDocument` say which requests are accepted
and what they do to a part, `RequestLaws` the same by the request's own fields, and `RemovedRows` which rows
it may leave out; `DocxPart` is the class that does it in place. `ParagraphView` is the screen's lossless
view of a marked paragraph.

## Tax roll and settlements

`TaxRollFile` parses the rows of the sheet, `TaxRoll` says what a load does, `TaxRollImport` what every load
keeps, `RollLaws` what it leaves of each row, and `TaxRollStore` performs it on its tables. `Settlements`
has the rules of a status, `StatusLaws` who may change one and to what, `Lifecycle` the sweep, the panel's
change and the assistant's batch, `StatusService` the services that perform them, and `SettlementRuns` and
`AuditTrail` what holds over every run of all of them together. `PanelChanges` takes the panel's change
apart into its check and its conditional write, with everything else in between, and `Prescription` holds
the rule of PRESCRITA against both. `Grouping` shows that the three places that group pending settlements
agree, and `PlanLaws` what they list.

## Sessions and lockout

`Sessions` models families of refresh tokens (the scheme of section 4.14 of RFC 9700) with a rotation in two
steps, so that several can be under way with one token, `SessionLaws` says what each operation does row by
row and to the millisecond, and `SessionService` is its class. `Lockout` is the record of one key,
`LoginAttempts` the pruned map of keys, its refinement of a map that is never pruned, and logins in two
steps: an attempt reads the lock, and is counted later by what it read.

## Where the code and its documentation differ

- A comment on the settlement's `missingSince` says that the mark goes when a later load brings the period
  back. A final settlement is locked, not replaced, so its mark stays: `TaxRollImport.MarkAfterComingBack`
  gives the exact condition.
- A row that repeats already is recognised only when its opening tag lies in one text node. When Word split
  it, the row is wrapped a second time: `RowLoops.WrappedUnlessSeen` for every row,
  `RowLoops.SplitTagIsWrappedAgain` at one.
- A table field marked in a row is meant to read back as "rows.x". It does if and only if the table loop is
  the innermost loop open at its place (`MarkedReading.SelectionReadsIff`); a row whose own text closes the
  loop before it is accepted and wrapped, and its field is lost (`RowFields.YearReadsOutsideItsLoop`).
- Five failed logins lock a key, but a login reads the lock before it compares the password and is counted
  by what it read. Attempts under way when the lock comes are counted beyond the five, as many as there are:
  `LoginAttempts.BurstIsCountedWhole`. The exact condition is `LoginAttempts.AtMostFiveIffNoneOvertaken`.
- "EN_FIRME never returns to VIGENTE", and a change that was overtaken is refused. The panel's conditional
  write asks only for the status it read, so a change to VIGENTE checked before the 60th day is still
  written after it if the status has come back meanwhile: `PanelChanges.FinalMadeVigente`. The exact
  condition is `PanelChanges.FinalUnlessLate`.
- A liquidation in a payment order "can only be marked PRESCRITA" five years after it. A change checked
  before the order was issued is written after it all the same: `Prescription.PrescribedTooSoon`. The exact
  condition is `Prescription.PrescribedUnlessOvertaken`; without a change under way the rule holds
  (`Prescription.RunPrescribes`).
- "Neither token outlives the session" holds for the access token except in the session's last second,
  because its lifetime is never less than a second: `Sessions.AccessTokenWithinSessionIff`. Every request
  looks the session up, so it is refused all the same.
- A single generation of a liquidation links settlements without asking whether a load replaced them; the
  bulk and the payment order guards ask. The protocol keeps this difference.
- A load with unconfirmed conflicts still updates properties and owners; only settlements are untouched.

## Model

| member | source | states |
|---|---|---|
| `Numbering.NumberRoundTrip` | apps/backend/src/resolutions/reserve-resolution-number.ts:12-21 | a formatted number exists exactly for a positive year and sequence, and parses back to both, so no two documents of a kind share a number |
| `Numbering.NumberIsPrinted` | apps/backend/src/resolutions/reserve-resolution-number.ts:20 | a number is the year without leading zeros, a dash, and the sequence in four digits, or in more when it needs them |
| `Numbering.FileNamesDiffer` | apps/backend/src/pdf-jobs/pdf-job-rules.ts:43-47 | different years or sequences under one prefix give different file names, so no file of a job overwrites another |
| `Batching.SplitIntoBatches` | apps/backend/src/pdf-jobs/pdf-job-rules.ts:24-29 | the cut into batches: what a recursive cut from the front gives |
| `Batching.FlattenUndoesBatches` | apps/backend/src/pdf-jobs/pdf-job-rules.ts:24-29 | putting the batches together again gives the list back |
| `Batching.BatchAt` | apps/backend/src/pdf-jobs/pdf-job-rules.ts:24-29 | batch b holds exactly the items from b*size to the next multiple of size or the end, and is not empty |
| `Batching.BatchTotals` | apps/backend/src/pdf-jobs/pdf-jobs.service.ts:501-510 | there are as many batches as the rounded-up quotient, and their sizes add up to the plan |
| `Batching.CutAfterWholeBatches` | apps/backend/src/pdf-jobs/pdf-jobs.service.ts:299-301 | cutting off whole batches first does not change the cut |
| `Batching.ChunkIsWholeBatches` | apps/backend/src/pdf-jobs/pdf-jobs.service.ts:516-521 | the batches of chunk c are the flat cut's batches 16c, 16c+1, ... |
| `Batching.ChunksCoverPlan` | apps/backend/src/pdf-jobs/pdf-jobs.service.ts:516-546 | every batch of the plan falls in exactly one chunk |
| `Batching.Dispatch` | apps/backend/src/pdf-jobs/pdf-jobs.service.ts:493-546 | chunked dispatch equals flat batching: one row per batch with its true document count, one message per batch, indexes 0.. in order |
| `DatabaseInvariant.ReserveKeepsDbInv` | apps/backend/src/pdf-jobs/pdf-jobs.service.ts:403-487 | a bulk reservation keeps every series gap free and unique, one active job per municipality, ranges held, documents owned and links resolving |
| `DatabaseInvariant.SingleKeepsDbInv` | apps/backend/src/resolutions/generate-liquidation-pdf.service.ts:174-230 | so does a single generation that competes for the same counter |
| `DatabaseInvariant.RevertKeepsDbInv` | apps/backend/src/pdf-jobs/pdf-jobs.service.ts:945-1001 | so does a revert, which hands back the whole range and leaves no number missing or doubled |
| `DatabaseInvariant.CounterNeverMovesPastActiveJob` | apps/backend/src/pdf-jobs/pdf-job-rules.ts:61-70 | while a job with a range is active nobody takes numbers after it, so the revert's "counter moved" branch is never taken |
| `DatabaseInvariant.RevertShape` | apps/backend/src/pdf-jobs/pdf-jobs.service.ts:955-1000 | what a revert leaves, table by table: the counter before the range, no document of the job, no link to one |
| `DatabaseInvariant.ExecKeepsDbInv` | apps/backend/src/pdf-jobs/pdf-jobs.service.ts:403-1015 | every event of the whole system keeps the database invariant |
| `SystemInvariant.MarkKeepsProgress` | apps/backend/src/pdf-jobs/pdf-jobs.service.ts:896-931 | a batch result keeps completedDocuments equal to the sum over done rows, and a job ASSEMBLING exactly when all are done |
| `SystemInvariant.AllDoneMeansComplete` | apps/backend/src/pdf-jobs/pdf-jobs.service.ts:916-931 | when every row is done the done rows add up to the job's documents |
| `SystemSteps.JobNamesDistinct` | apps/backend/src/pdf-jobs/pdf-jobs.service.ts:368-379 | the planned files of a job, new and re-rendered, have pairwise distinct names |
| `SystemSteps.CompleteListingIsFullZip` | apps/pdf-function/src/worker.ts:162-216 | a listing of as many PDFs as the job has documents is the complete set: one file per planned document |
| `SystemSteps.ExecKeepsInv` | apps/backend/src/pdf-jobs/pdf-jobs.service.ts:303-1065 | every event of backend, panel, queues, storage and worker keeps the invariant of the whole system, in-flight messages, results and attempts included |
| `Runs.NumbersAreGapFree` | apps/backend/src/pdf-jobs/pdf-jobs.service.ts:403-487 | over every run the issued sequences of each municipality, year and kind are exactly 1..counter, each once |
| `Runs.ActiveJobHoldsItsRange` | apps/backend/src/pdf-jobs/pdf-jobs.service.ts:414-482 | over every run an active job's counter equals its last sequence, its documents are exactly those of its range, all issued, and its revert target is the number before it |
| `Runs.ProgressIsWhatRowsSay` | apps/backend/src/pdf-jobs/pdf-jobs.service.ts:896-931 | over every run completedDocuments is the sum of the done rows' counts, and ASSEMBLING means all rows done and all documents counted, even when results came during PREPARING |
| `Runs.StatusOnlyClimbs` | apps/backend/src/pdf-jobs/pdf-jobs.service.ts:1038-1065 | over every run a job only climbs PREPARING, RUNNING, ASSEMBLING, DONE, EXPIRED or drops once from an active state to FAILED |
| `Downloads.ZipOfDoneJobIsComplete` | apps/backend/src/pdf-jobs/pdf-jobs.service.ts:818-851 | whenever a job can be downloaded its ZIP has exactly totalDocuments entries, one per planned document under its own name and number |
| `Downloads.SameNumberSameDocument` | apps/backend/src/pdf-jobs/pdf-jobs.service.ts:818-851 | two downloads anywhere in a run that carry the same number of a municipality stand for the same document: a number handed back and reserved again is never seen twice |
| `Downloads.RunKeepsPermanent` | apps/backend/src/pdf-jobs/pdf-jobs.service.ts:945-1001 | a document no active job owns stays as it is, whatever happens |
| `Reverts.RevertUndoesReserve` | apps/backend/src/pdf-jobs/pdf-jobs.service.ts:955-999 | reverting a reservation restores the municipality's counters, documents and links to what they were |
| `Reverts.RunFrozen` | apps/backend/src/resolutions/generate-liquidation-pdf.service.ts:178-189 | while a job is active nothing else changes the municipality's counters, documents or links |
| `Reverts.FailedJobLeavesNoTrace` | apps/backend/src/pdf-jobs/pdf-jobs.service.ts:945-1001 | over any run from a job's creation to its failure, whatever happens in between, the municipality's numbering is as if the job had never been |
| `Confluence.ApplyTwiceIsApplyOnce` | apps/backend/src/pdf-jobs/pdf-jobs.service.ts:896-915 | applying an applied result again changes nothing |
| `Confluence.DeliveryIsConfluent` | apps/backend/src/pdf-jobs/pdf-jobs.service.ts:896-931 | any order and repetition of the same batch results gives the same job row, and the same batch rows up to attempts |
| `Confluence.SystemDeliveryIsConfluent` | apps/backend/src/pdf-jobs/pdf-jobs.service.ts:856-932 | the same for runs of the whole system that deliver two lists of results |
| `JobLaws.BatchResultEffect` | apps/backend/src/pdf-jobs/pdf-jobs.service.ts:896-931 | a batch result counts once, on a job in PREPARING or RUNNING whose row is there and pending, and the one that leaves every other row done moves the job to ASSEMBLING and sends exactly one ZIP message for all its documents; any other changes nothing: the tables and the work queue, field by field |
| `JobLaws.LostCommitEffect` | apps/backend/src/pdf-jobs/pdf-jobs.service.ts:928-930 | a commit that fails after the message was sent leaves nothing but that message |
| `JobLaws.OnlyLastResultsAsk` | apps/backend/src/pdf-jobs/pdf-jobs.service.ts:912-931 | of all events of the system only the last result a job waits for adds a ZIP message, once; no other event adds one |
| `JobLaws.AssemblingWasAsked` | apps/backend/src/pdf-jobs/pdf-jobs.service.ts:912-931 | over every run a job that is ASSEMBLING, DONE or EXPIRED was asked its ZIP, by the step that moved it to ASSEMBLING |
| `JobLaws.RevertHandsBack` | apps/backend/src/pdf-jobs/pdf-jobs.service.ts:945-1001 | a failed job in every table: the counter before its range, every other counter, document and link as it was, its own documents, rows and links gone, its status FAILED |
| `JobLaws.FailureEffect` | apps/backend/src/pdf-jobs/pdf-jobs.service.ts:857-874 | a failed result, a failed or interrupted dispatch and the watchdog fail a job exactly in the statuses each looks for, and change nothing otherwise |
| `JobLaws.ZipResultEffect` | apps/backend/src/pdf-jobs/pdf-jobs.service.ts:876-885 | a ZIP that was written finishes the job that is ASSEMBLING and changes nothing else |
| `JobLaws.CleanupEffect` | apps/backend/src/pdf-jobs/pdf-jobs.service.ts:886-892 | clean-up takes away the rows of jobs that are over, and the blobs of failed and expired jobs and all but the ZIP of finished ones; nothing that is still needed goes |
| `JobLaws.StatusMovesExactly` | apps/backend/src/pdf-jobs/pdf-jobs.service.ts:856-1066 | the status of every job after any event: the whole list of what moves it, with its exact condition |
| `JobRuns.RenderBatchRun` | apps/pdf-function/src/worker.ts:45-92 | a batch that waits with its message and input is rendered, reported and counted by a run of the worker and the backend, for any number of documents |
| `JobRuns.CreatedJobFinishes` | apps/backend/src/pdf-jobs/pdf-jobs.service.ts:303-546 | a job created after any run can be dispatched, rendered and assembled, through RUNNING, ASSEMBLING and DONE to a ZIP that can be downloaded, for every number and size of batches |
| `PdfJobsService.LinkGroups` | apps/backend/src/pdf-jobs/pdf-jobs.service.ts:465-482 | linking row by row: the updated count equals the listed count exactly when every settlement is distinct, there, unlinked and current, and then the table has every link |
| `ReserveLaws.MayLinkIs` | apps/backend/src/pdf-jobs/pdf-jobs.service.ts:465-482 | the guard passes exactly when no settlement is listed twice and each is there, without a document of the kind, and current where it is asked |
| `ReserveLaws.ReserveIsRight` | apps/backend/src/pdf-jobs/pdf-jobs.service.ts:403-487 | a reservation is refused with NOTHING_TO_GENERATE, BULK_GENERATION_IN_PROGRESS or CONCURRENT_GENERATION exactly when there is nothing, a job of that municipality is under way, or the guard fails; otherwise group i gets number i + 1 past the counter and its settlements link to that document, the job holds exactly that range, and nothing else changes |
| `ReserveLaws.SingleIsRight` | apps/backend/src/resolutions/generate-liquidation-pdf.service.ts:174-230 | the same for a single generation, which makes no job and asks of a liquidation's settlements nothing about their replacement |
| `PdfJobsService.Coordinator.Reserve` | apps/backend/src/pdf-jobs/pdf-jobs.service.ts:403-487 | the reserving transaction, step by step, does what the protocol says: one of its refusals with nothing written, or everything |
| `PdfJobsService.Coordinator.ReserveRange` | apps/backend/src/pdf-jobs/pdf-jobs.service.ts:442-482 | range, documents and links are committed together or not at all |
| `PdfJobsService.Coordinator.GenerateSingle` | apps/backend/src/resolutions/generate-liquidation-pdf.service.ts:174-230 | a single generation takes the next number only while no job of the municipality is active |
| `PdfJobsService.Coordinator.Revert` | apps/backend/src/pdf-jobs/pdf-jobs.service.ts:945-1001 | the reverting transaction, step by step: exactly from the given states it hands back the range and leaves nothing of the job in any table |
| `PdfJobsService.Coordinator.DeleteDocumentsOf` | apps/backend/src/pdf-jobs/pdf-jobs.service.ts:968-992 | unlinking and deleting resolutions, then payment orders, removes exactly the job's own |
| `PdfJobsService.Coordinator.ApplyBatchResult` | apps/backend/src/pdf-jobs/pdf-jobs.service.ts:896-931 | the stepwise transaction: marks and counts a row exactly when the job takes results and waits for it, and returns true, to ask for the ZIP, exactly when it was the only row waited for, in PREPARING or RUNNING; nothing else changes |
| `PdfJobsService.Coordinator.RecoverInterrupted` | apps/backend/src/pdf-jobs/pdf-jobs.service.ts:1024-1036 | every job left PREPARING fails and owns nothing, and no other job changes |
| `Worker.Storage.HandleMessage` | apps/pdf-function/src/worker.ts:263-330 | the delivery's Storage calls in order: at any crash point a prefix of the operations of its outcome; run to its end it reports, copies to poison and deletes as DeliveryDelivers says |
| `Worker.DeliveryDelivers` | apps/pdf-function/src/worker.ts:263-330 | a delivery run to its end publishes success with the documents and the attempt if and only if the message is valid, in its attempts and completed; otherwise a failure with exactly the outcome's code, PDF_CONVERSION_FAILED past the limit, or INVALID_MESSAGE for one that can be addressed; it copies to poison exactly what is unreadable, exhausted or at its last attempt without a permanent error; it deletes exactly what it does not leave to be retried |
| `Worker.AnswersBeforeDelete` | apps/pdf-function/src/worker.ts:276-330 | a message is deleted last, after its result or its poison copy |
| `Worker.DeliveryAccounts` | apps/pdf-function/src/worker.ts:263-330 | at every crash point the message is still queued, or its result was published to its job and batch, or its text is in poison |
| `Worker.DeliveryRemoves` | apps/pdf-function/src/worker.ts:263-330 | a delivery with Storage available removes the message if and only if it is unreadable, succeeded or was at its last attempt |
| `Worker.NoMessageIsLost` | apps/pdf-function/src/worker.ts:332-376 | over any sequence of deliveries and crashes every message is still queued or accounted for |
| `GuidedMarking.ReplacementAddsMark` | apps/backend/src/templates/guided-marking.ts:299-320 | one pass over the text nodes adds one mark to the image: the marker in the node of its first character, the others only lose the selected part |
| `GuidedMarking.BackwardsIsAllAtOnce` | apps/backend/src/templates/guided-marking.ts:506-520 | replacing disjoint ranges from the end backwards gives every node the image of its own characters, as if all were replaced at once |
| `GuidedMarking.EmitCovered` | apps/backend/src/templates/guided-marking.ts:354-356 | at most one mark stands for a position, so the order in which selections were chosen does not matter |
| `GuidedMarking.MarkingIsSubstitution` | apps/backend/src/templates/guided-marking.ts:506-520 | flattened, the marked paragraph is the original with every range replaced by its marker, for any order of the selections |
| `MarkerScan.ScanIsExact` | apps/backend/src/templates/guided-marking.ts:224 | the scan finds a tag exactly where the regular expression matches |
| `MarkerScan.TagsAroundRange` | apps/backend/src/templates/guided-marking.ts:491-503 | the tags of a text around a range none of them overlaps are the tags of its two sides |
| `MarkerScan.TagsOfSubstituted` | apps/backend/src/templates/guided-marking.ts:491-520 | scanning the marked text finds the old tags at shifted offsets and each mark's tags in its place |
| `MarkerReader.ListMarkerTags` | apps/backend/src/templates/guided-marking.ts:326-329 | an inline list's marker is its opening tag, its fields and its closing tag, and nothing around it can reach across |
| `MarkerReader.CatalogsAreWellFormed` | apps/backend/src/templates/validate-template-fields.ts:29-192 | the names of both catalogs in use are plain words, and no plain field is also an inner one |
| `ReaderLaws.TrimIsCore` | apps/backend/src/templates/guided-marking.ts:225 | the trimmed tag is what lies between the first and the last character that is not white space |
| `ReaderLaws.TagStandsFor` | apps/backend/src/templates/guided-marking.ts:225-240 | what a tag stands for, by its characters: a loop's own tags for the loop; a field of the innermost open loop for the list, or for the loop's field in a table; any other for itself |
| `ReaderLaws.TagLeaves` | apps/backend/src/templates/guided-marking.ts:227-231 | which loops it leaves open: {#name} adds one after the others, {/name} closes the last of its name if there is one, any other changes none |
| `ReaderLaws.PartReadsRightly` | apps/backend/src/templates/guided-marking.ts:220-251 | every marker of a part is read so, with the loops all tags before it left open, across paragraphs |
| `MarkThenRead.RowFieldReadsIff` | apps/backend/src/templates/guided-marking.ts:233-240 | a table field's marker reads back as its field exactly when its loop is the innermost one open |
| `MarkThenRead.ListReads` | apps/backend/src/templates/guided-marking.ts:226-240 | all four tags of an inline list read as the list, and it leaves the open loops as they were |
| `MarkThenRead.ReadOfParagraph` | apps/backend/src/templates/guided-marking.ts:224-248 | reading a marked paragraph gives the old markers moved, with the fields they had, and every mark under the field the loops open at its place give it; the marks change no loop |
| `MarkThenRead.ReadBackIff` | apps/backend/src/templates/guided-marking.ts:233-240 | a mark reads as its own field, unless it is a table field whose loop is not the innermost one open |
| `MarkedPart.MarkedPartReads` | apps/backend/src/templates/guided-marking.ts:220-251 | the same through a whole part, whose open loops run across paragraphs and stay as they were |
| `MarkedPart.RowLeavesLoopsAsTheyWere` | apps/backend/src/templates/guided-marking.ts:229-231 | the tags put around a row leave as many loops open after it as there were if and only if every closing tag of that loop in the row closes one opened before, or none is open after the row anyway; other loops are never touched |
| `MarkedPart.AfterRowReadsAsBeforeIff` | apps/backend/src/templates/guided-marking.ts:229-231 | so every text after the row reads as it did exactly then, for a catalog with one loop |
| `MarkedPart.MarkedPartWithRowReads` | apps/backend/src/templates/guided-marking.ts:220-251 | with a wrapped row of any tags: the paragraphs before it read as they did, those in it with the loop opened, those after it with what the closing tag leaves open |
| `Selections.NeighboursAreEnough` | apps/backend/src/templates/guided-marking.ts:481-490 | once sorted, checking neighbours finds an overlap if and only if there is one anywhere |
| `Selections.RowFieldsShareTheRow` | apps/backend/src/templates/guided-marking.ts:450-470 | every table field of an accepted request is in one row |
| `RequestLaws.KindIs` | apps/backend/src/templates/guided-marking.ts:417-437 | a field is known exactly when it is a plain field, a loop, or a table loop's name, a dot and one of its fields; table fields are the last and the table loops |
| `RequestLaws.MarkerIs` | apps/backend/src/templates/guided-marking.ts:323-331 | the marker of each kind of field, and no marker for exactly a table loop |
| `RequestLaws.RowOfIs` | apps/backend/src/templates/guided-marking.ts:451-459 | the row of a block is the first one with a cell that holds it |
| `RequestLaws.PassesIff` | apps/backend/src/templates/guided-marking.ts:428-470 | one selection passes after those before it if and only if its field is known, its block there, its range nonempty and inside the text, and, for a table field, its block in a row and in the row of the earlier ones |
| `RequestLaws.ReasonIff` | apps/backend/src/templates/guided-marking.ts:428-470 | each reason is given exactly when it is so and none of those the source looks for before it is |
| `RequestLaws.AcceptedIff` | apps/backend/src/templates/guided-marking.ts:404-504 | a request is accepted if and only if it has at most 500 selections, each known, in place and in range, all table fields in one row, no two that overlap and none that touches a marker |
| `MarkedDocument.BlockMarkedAtOnce` | apps/backend/src/templates/guided-marking.ts:506-520 | a block's selections, sorted and applied from the end, mark all their ranges at once |
| `MarkedDocument.PrefixedText` | apps/backend/src/templates/guided-marking.ts:348-349 | the loop's opening tag goes before the paragraph's text, in its first node or a new one |
| `MarkedDocument.SuffixedText` | apps/backend/src/templates/guided-marking.ts:350-351 | its closing tag goes after the text, in the last node or a new one |
| `DocxPart.Part.ReplaceRange` | apps/backend/src/templates/guided-marking.ts:299-320 | the loop over text nodes changes only this paragraph, as the one-pass replacement says |
| `DocxPart.Part.ExistingMarkers` | apps/backend/src/templates/guided-marking.ts:220-251 | the reading loop with its open-loop stack gives the markers of every paragraph, each read with the loops left open before it |
| `DocxPart.Part.FirstPass` | apps/backend/src/templates/guided-marking.ts:428-470 | none is refused exactly when every field is known, every block and range in place and all table fields in one row; otherwise the first refused selection is reported with a reason that is so |
| `DocxPart.Part.GroupByBlock` | apps/backend/src/templates/guided-marking.ts:474-479 | each block that has selections appears once, with all of them in order |
| `DocxPart.Part.CheckBlock` | apps/backend/src/templates/guided-marking.ts:480-504 | an overlap is reported, with its indexes, exactly when two selections of the block overlap or one touches a marker |
| `DocxPart.Part.WrapRow` | apps/backend/src/templates/guided-marking.ts:335-352 | wraps the row once in its loop's tags unless one text node has the opening tag already |
| `DocxPart.Part.ApplySelections` | apps/backend/src/templates/guided-marking.ts:404-539 | accepts a request if and only if it is acceptable by its own selections, texts and rows and every named row can be left out; refuses with a reason that is so and nothing changed; otherwise marks every block, wraps the row and leaves the named rows out |
| `RemovedRows.RowsToRemove` | apps/backend/src/templates/guided-marking.ts:368-396 | accepts the named rows if and only if each block names one, none has a marker or a selection, and none is all that is left of its table; refuses with a true reason |
| `RemovedRows.RemovedRowsChangeNothingElse` | apps/backend/src/templates/guided-marking.ts:529-532 | every paragraph that stays has the text and the markers it has with the removed rows in place |
| `MarkedReading.MarkThenReadPart` | apps/backend/src/templates/guided-marking.ts:220-251 | an accepted request that wraps no row, because it has no table field or the row repeats already: the old markers read as they did, moved, and every selection by the loops open at its place; without table fields, every one under its own field |
| `MarkedReading.MarkThenReadPartWithRow` | apps/backend/src/templates/guided-marking.ts:220-251 | an accepted request that wraps a row, whatever tags the row has: before the row as above, in it with the loop opened before it, after it with what the closing tag leaves open |
| `MarkedReading.SelectionReadsIff` | apps/backend/src/templates/guided-marking.ts:220-251 | for every accepted request and every selection that writes a marker: it stands at its place in the result, and reads back as its field if and only if it is no table field or the table loop is the innermost loop open there; those loops are given by the part before the request |
| `RowLoops.TagIncludedIff` | apps/backend/src/templates/guided-marking.ts:224 | a text includes a tag exactly when the reader finds it there |
| `RowLoops.WrappedUnlessSeen` | apps/backend/src/templates/guided-marking.ts:335-352 | for every row: it is left as it is if and only if one text node holds the whole opening tag, and otherwise its texts get one more opening and one more closing tag, whether they had one or not |
| `RowLoops.SplitTagIsWrappedAgain` | apps/backend/src/templates/guided-marking.ts:336-337 | at one row whose opening tag is split over two text nodes: it is wrapped a second time |
| `RowLoops.WrapIsOfTheOldPart` | apps/backend/src/templates/guided-marking.ts:506-528 | whether a row is wrapped, and where, depends on the part as it was: marking neither hides the loop's opening tag nor makes one |
| `RowFields.SteadyRowFieldReads` | apps/backend/src/templates/guided-marking.ts:220-251 | in a row that gets wrapped, a table field reads back as its field when no tag of the row before it opens or closes a loop |
| `RowFields.RepeatedRowReads` | apps/backend/src/templates/guided-marking.ts:220-251 | in a row that repeats already, the table loop is the innermost one at every place after its opening tag with no loop's tag in between |
| `RowFields.YearReadsOutsideItsLoop` | apps/backend/src/templates/guided-marking.ts:323-352 | a request that is accepted and wraps its row, and whose table field reads as no field of the loop, because the row's own text closes the loop before it |
| `TaxRoll.PropertyRow` | apps/backend/src/tax-roll/persist-tax-roll.ts:71-91 | a property has a merged row exactly when the file names it |
| `TaxRollImport.PeriodsAre` | apps/backend/src/tax-roll/persist-tax-roll.ts:76-91 | the file's periods are those of its rows, each once |
| `TaxRollImport.ImportedIs` | apps/backend/src/tax-roll/persist-tax-roll.ts:191-317 | the whole effect of a writing pass on the settlements: which are superseded or marked, which are new, and nothing else |
| `TaxRollImport.ImportKeepsHistory` | apps/backend/src/tax-roll/persist-tax-roll.ts:245-279 | nothing is deleted; amounts and status stay, replaced rows are frozen, a mark keeps its first date, a final settlement is never superseded |
| `TaxRollImport.UnconfirmedConflictWritesNothing` | apps/backend/src/tax-roll/persist-tax-roll.ts:223-257 | no settlement is touched exactly when the pass is unconfirmed and some period of the file has a current settlement that is not final |
| `TaxRollImport.ImportKeepsOneCurrent` | apps/backend/src/tax-roll/persist-tax-roll.ts:249-296 | an import keeps at most one current settlement per property and period |
| `TaxRollImport.EveryPeriodIsCurrent` | apps/backend/src/tax-roll/persist-tax-roll.ts:212-296 | after a writing pass each period of the file has exactly one current settlement: its final one untouched, or a new one with its last row's amounts |
| `TaxRollImport.OmittedPeriodsAreMarked` | apps/backend/src/tax-roll/missing-periods.ts:15-35 | a current period its property's file leaves out is marked missing with the first date; other properties are left alone |
| `TaxRollImport.MarkAfterComingBack` | packages/shared/prisma/schema.prisma:174-177 | a period that comes back carries a mark afterwards if and only if its settlement was final and carried one: the schema's remark that the mark goes holds except there |
| `TaxRollImport.SecondLoadConflicts` | apps/backend/src/tax-roll/persist-tax-roll.ts:223-243 | loading the same file again unconfirmed reports as conflicts exactly the periods the first load wrote |
| `TaxRollImport.ImportErasesNothing` | apps/backend/src/tax-roll/persist-tax-roll.ts:114-189 | each of a property's five optional details becomes the last value its rows state, or stays; an owner's name and type stay or become ones stated for it; other owners and properties are untouched |
| `TaxRollImport.MergedRowStatesTheLatest` | apps/backend/src/tax-roll/persist-tax-roll.ts:77-89 | each optional detail of a property's merged row is the last one any of its rows states, so a later row without it takes nothing away |
| `TaxRollImport.LastRowsAreLast` | apps/backend/src/tax-roll/persist-tax-roll.ts:69-91 | everything else is taken from the last row of the property, owner or period |
| `TaxRollImport.ForeignPropertyRefusesTheLoad` | apps/backend/src/tax-roll/persist-tax-roll.ts:93-110 | a load is refused, with nothing written, exactly when a row names another municipality's property |
| `TaxRollImport.ImportKeepsValid` | apps/backend/src/tax-roll/persist-tax-roll.ts:53-329 | the registry stays sound whatever the load is given |
| `TaxRollStore.Collect` | apps/backend/src/tax-roll/persist-tax-roll.ts:69-91 | the loop over the rows keeps one entry per property, owner and period, in order of first appearance |
| `TaxRollStore.Store.UpsertProperties` | apps/backend/src/tax-roll/persist-tax-roll.ts:112-143 | one upsert per property of the file and no other change |
| `TaxRollStore.Store.UpsertOwners` | apps/backend/src/tax-roll/persist-tax-roll.ts:145-163 | one upsert per owner of the file and no other change |
| `TaxRollStore.Store.CurrentByPeriod` | apps/backend/src/tax-roll/persist-tax-roll.ts:191-210 | finds every current settlement of the file's properties by period |
| `TaxRollStore.Store.Classify` | apps/backend/src/tax-roll/persist-tax-roll.ts:212-250 | sorts the periods into locked, conflicting and new, and collects exactly the current, not final settlements to supersede |
| `TaxRollStore.Store.FindMissing` | apps/backend/src/tax-roll/missing-periods.ts:22-35 | the current, unmarked settlements whose property comes without their period, and only those |
| `TaxRollStore.Store.InsertSettlements` | apps/backend/src/tax-roll/persist-tax-roll.ts:285-296 | one new settlement per open period, with consecutive ids |
| `TaxRollStore.Store.PersistTaxRoll` | apps/backend/src/tax-roll/persist-tax-roll.ts:53-329 | the load, step by step, does what the import says, report included |
| `TaxRollFile.ParseRows` | apps/backend/src/tax-roll/parse-tax-roll-excel.ts:162-373 | the row loop, with its map of first rows: loads exactly the first good rows with their own cells, refuses and warns about exactly the others' reasons; a file without data rows is told apart |
| `TaxRollFile.GoodIsLoadable` | apps/backend/src/tax-roll/parse-tax-roll-excel.ts:174-289 | a row can be loaded exactly when its code, owner and period are there, the period in range, every amount a number and both coordinates in their degrees; the loaded row then holds what its own cells say, each in its place |
| `TaxRollFile.LoadedRows` | apps/backend/src/tax-roll/parse-tax-roll-excel.ts:291-363 | the loaded rows are exactly the first good rows of their periods, in the order of the sheet, each with its own cells' code, owner, name, type, land use, districts, coordinates, appraisal, amounts and total |
| `TaxRollFile.RefusedRows` | apps/backend/src/tax-roll/parse-tax-roll-excel.ts:184-302 | a data row is refused with a reason exactly when that is the first thing wrong with it, or when an earlier first row has its period, which the reason names |
| `TaxRollFile.WarnedRows` | apps/backend/src/tax-roll/parse-tax-roll-excel.ts:305-341 | a row is warned about exactly when it is loaded and has no owner name, an unknown document type or no known land use |
| `RollLaws.SheetRowIsBilled` | apps/backend/src/tax-roll/persist-tax-roll.ts:212-296 | after a load that writes, each first row of the sheet has its current settlement: the final one there was, untouched, or a new VIGENTE one with that row's own total and amounts |
| `RollLaws.PropertyAfter` | apps/backend/src/tax-roll/persist-tax-roll.ts:112-143 | after a load every property of the file is the municipality's, with its last row's name and appraisal, the details its rows state last or that were known, and a link to its last row's owner |
| `RollLaws.OwnerAfter` | apps/backend/src/tax-roll/persist-tax-roll.ts:145-163 | and every owner has the name and type its last row states, or what was known, or the placeholder when it is new and has no name |
| `RollLaws.LinksAfter` | apps/backend/src/tax-roll/persist-tax-roll.ts:182-189 | the links to the owners of the properties' last rows are the only new ones |
| `RollLaws.ReportIs` | apps/backend/src/tax-roll/persist-tax-roll.ts:212-243 | the answer of an accepted load: exactly the periods it found final, exactly those it left alone because nobody confirmed, each once, and as many new settlements as there are afterwards that were not there before |
| `RollLaws.MismatchIs` | apps/backend/src/tax-roll/persist-tax-roll.ts:93-110 | a refused load counts the properties of other municipalities that the file names |
| `TaxRollFile.EveryRowIsAccountedFor` | apps/backend/src/tax-roll/parse-tax-roll-excel.ts:174-366 | every data row is loaded or refused, once |
| `TaxRollFile.FirstRowWins` | apps/backend/src/tax-roll/parse-tax-roll-excel.ts:291-303 | the rows that reach the load have distinct periods, and a period's row is made of its first loadable one |
| `TaxRollFile.DuplicatesAreReported` | apps/backend/src/tax-roll/parse-tax-roll-excel.ts:291-303 | a row is refused as a duplicate exactly when it is loadable and an earlier loadable row has its period |
| `Settlements.OfferedMeansAllowed` | apps/backend/src/settlements/settlement-status-rules.ts:52-83 | a status is offered exactly when it is the one the settlement has, PAGADA, ACUERDO_DE_PAGO, EN_FIRME sixty days after the resolution, VIGENTE before that, or PRESCRITA without a payment order or five years after it |
| `Settlements.OfferedInOrder` | apps/backend/src/settlements/settlement-status-rules.ts:67-76 | each once and in the order of the enumeration |
| `Lifecycle.BatchIsAllOrNothing` | apps/backend/src/assistant/assistant-changes.service.ts:43-114 | a confirmed batch applies if and only if every request is found, current and allowed; then each gets its status, nothing else changes and there is one event per effective change; otherwise nothing changes |
| `Lifecycle.EffectiveAre` | apps/backend/src/assistant/assistant-changes.service.ts:78 | the changes applied are exactly the requests that ask for another status |
| `Lifecycle.SweepLeavesNothingDue` | apps/backend/src/settlements/en-firme.service.ts:37-47 | the sweep changes the status of exactly the due settlements and nothing else, and leaves none due: sweeping again changes nothing |
| `StatusLaws.SweepIs` | apps/backend/src/settlements/en-firme.service.ts:37-47 | the sweep makes final exactly the current VIGENTE settlements whose resolution is sixty days old to the millisecond, and touches nothing else |
| `StatusLaws.CheckIsJudged` | apps/backend/src/settlements/settlements.service.ts:199-244 | a change is answered by whose settlement it is, whether it was replaced and what it may become: PAGADA and ACUERDO_DE_PAGO always, EN_FIRME after the sixty days, VIGENTE before them, PRESCRITA without a payment order or after its five years, or the status it has |
| `StatusLaws.ChangeIsRight` | apps/backend/src/settlements/settlements.service.ts:179-286 | a whole change does nothing, or gives the settlement the status asked for, with one event if that is another one |
| `StatusLaws.RejectedAre` | apps/backend/src/assistant/review-status-changes.ts:59-115 | each request of a batch is rejected with NOT_FOUND, REPLACED or TRANSITION_NOT_ALLOWED exactly when that is so of the tables, the dates and the property's municipality |
| `StatusLaws.BatchIsRefused` | apps/backend/src/assistant/assistant-changes.service.ts:43-114 | a batch is malformed exactly when it is not 1 to 100 requests with positive, distinct ids; one that is not is refused, with exactly those reasons, if and only if there is one; either way nothing changes |
| `StatusLaws.OthersLeaveItAlone` | apps/backend/src/settlements/settlements.service.ts:199-207 | over every run, whatever other municipalities load, change or batch, a settlement keeps everything but what sweeps, resolutions and payment orders give it, its property stays as it was and no event is about it |
| `StatusService.Service.MarkEnFirme` | apps/backend/src/settlements/en-firme.service.ts:37-47 | the sweep makes final exactly the current VIGENTE settlements with a resolution sixty days old, and counts the due ones |
| `StatusService.Service.CheckStatusChange` | apps/backend/src/settlements/settlements.service.ts:199-244 | the check of a change: refused with its reason, answered at once if nothing changes, or passed with what was read, by the settlement's municipality, dates and payment order |
| `StatusService.Service.CommitStatusChange` | apps/backend/src/settlements/settlements.service.ts:245-275 | the conditional write with its event, or the refusal when the row changed since |
| `StatusService.Service.ChangeStatus` | apps/backend/src/settlements/settlements.service.ts:179-286 | both one after the other: done if and only if the settlement is found, current and may become the status; then that status and one event, otherwise nothing |
| `PanelChanges.HalvesAreTheChange` | apps/backend/src/settlements/settlements.service.ts:179-286 | with nothing in between, check and conditional write are the one change |
| `PanelChanges.CommitIsAllOrNothing` | apps/backend/src/settlements/settlements.service.ts:249-274 | whatever came in between: refused with nothing written if and only if the row has another status or was replaced; otherwise one status and one event |
| `PanelChanges.PlayKeepsAudit` | packages/shared/prisma/schema.prisma:205-212 | the events explain every status over every run with changes under way |
| `PanelChanges.PlayKeepsFinalAged` | apps/backend/src/settlements/en-firme.service.ts:37-47 | with changes under way too, every final settlement has a resolution of the required age |
| `PanelChanges.FinalUnlessLate` | apps/backend/src/settlements/settlements.service.ts:249-274 | a settlement that was final stays out of VIGENTE through every run if and only if no change to VIGENTE checked before is written on it |
| `PanelChanges.LateWasCheckedInTime` | apps/backend/src/settlements/settlements.service.ts:225-244 | such a change was checked when the settlement had no resolution, or one less than 60 days old |
| `PanelChanges.FinalMadeVigente` | apps/backend/src/settlements/settlements.service.ts:249-274 | a run in which it happens: checked on the last day, written after the settlement was final and paid again |
| `StatusService.Service.CheckChanges` | apps/backend/src/assistant/assistant-tools.service.ts:159-173 | accepts 1 to 100 changes with positive, distinct ids |
| `StatusService.Service.ReviewStatusChanges` | apps/backend/src/assistant/review-status-changes.ts:59-115 | every request is accepted or rejected with its reason, in order |
| `StatusService.Service.Confirm` | apps/backend/src/assistant/assistant-changes.service.ts:48-114 | the confirming transaction, step by step, does what the batch says |
| `SettlementRuns.ExecEvolves` | apps/backend/src/settlements/settlement-status-rules.ts:52-83 | all any event may do to a settlement: its links and marks stay, a replaced one is frozen, a final one is not superseded, EN_FIRME needs its 60 days, VIGENTE their absence, and PRESCRITA no payment order or one that is five years old |
| `SettlementRuns.RunKeepsValid` | apps/backend/src/tax-roll/persist-tax-roll.ts:191-317 | over every run of loads, sweeps, changes and batches there is at most one current settlement per property and period |
| `SettlementRuns.RunKeepsFinalAged` | apps/backend/src/settlements/en-firme.service.ts:37-47 | over every run a final settlement has a resolution of the required age |
| `SettlementRuns.OnceFinalNeverVigente` | apps/backend/src/settlements/settlement-status-rules.ts:52-76 | once EN_FIRME, never VIGENTE again, whatever follows under a clock that does not go back |
| `Prescription.RunPrescribes` | apps/backend/src/settlements/settlement-status-rules.ts:61-75 | over every run a settlement becomes PRESCRITA only while it is current and in no payment order, or in one that is five years old |
| `Prescription.PrescribedUnlessOvertaken` | apps/backend/src/settlements/settlements.service.ts:249-274 | with changes under way too, at every step if and only if no change checked before its payment order is written within that order's five years |
| `Prescription.PrescribedTooSoon` | apps/backend/src/settlements/settlements.service.ts:249-274 | a run in which that happens, for every payment order and every later instant |
| `SettlementRuns.ReplacedIsFrozen` | apps/backend/src/settlements/settlements.service.ts:216-223 | a replaced settlement keeps its status, dates and mark forever |
| `SettlementRuns.MissingMarkKeepsItsDate` | apps/backend/src/tax-roll/persist-tax-roll.ts:259-279 | a missing mark keeps its first date forever |
| `AuditTrail.RunKeepsAudit` | packages/shared/prisma/schema.prisma:205-212 | over every run the events explain every status: each starts where the one before ended, but for the unrecorded sweep, and each records a real change |
| `Sessions.AccessTokenWithinSessionIff` | apps/backend/src/auth/session-policy.ts:44-59 | the access token ends with its session or before if and only if the session has at least a second left |
| `SessionLaws.AccessTokenLasts` | apps/backend/src/auth/session-policy.ts:52-59 | the seconds an access token lasts are the most that fit both in its own time and in what is left of the session, or one when not even one fits |
| `Sessions.ExecKeepsInv` | apps/backend/src/auth/session.service.ts:57-193 | every operation, the two halves of a rotation included, leaves only the newest token of a family live |
| `Sessions.AtMostOneLive` | apps/backend/src/auth/session.service.ts:90-108 | in every reachable state a family has at most one unrevoked token |
| `Sessions.ClosedForever` | apps/backend/src/auth/session.service.ts:141-193 | a family without live tokens never has one again |
| `Sessions.ReuseClosesTheFamily` | apps/backend/src/auth/session.service.ts:72-87 | presenting a token recorded as revoked closes its family for good, however long the rotation takes and whatever atomic steps come in between: the session is never accepted again |
| `Sessions.SecondRefreshClosesTheFamily` | apps/backend/src/auth/session.service.ts:90-99 | of two refreshes with the same live token the second gets nothing and closes the session, the first one's new token included |
| `Sessions.EverySessionWasOpened` | apps/backend/src/auth/session.service.ts:57-70 | every token continues a session some login opened, with that login's absolute end |
| `Sessions.ActiveIsWithinLimits` | apps/backend/src/auth/session.service.ts:125-139 | an accepted session is within the maximum counted from its login and the idle limit counted from its last token |
| `Sessions.ClaimedRotationStaysActive` | apps/backend/src/auth/session.service.ts:90-108 | a session refreshed with its live token stays accepted until the new token's expiry |
| `Sessions.LoginOpensASession` | apps/backend/src/auth/session.service.ts:57-70 | a login's session is accepted until the idle limit or its maximum, and not after |
| `Sessions.PasswordChangeKeepsOneSession` | apps/backend/src/auth/auth.service.ts:150-166 | a password change closes the administrator's other sessions, and only those |
| `SessionLaws.StartLogsIn` | apps/backend/src/auth/session.service.ts:57-70 | a login's effect row by row: one new row that ends after the idle time or the maximum, the administrator's ended rows gone, every other row as it was |
| `SessionLaws.FinishRotates` | apps/backend/src/auth/session.service.ts:84-107 | a rotation's effect row by row: a free token is revoked and replaced by one of its session that ends after the idle time or with it; one read expired changes nothing; any other revokes exactly the live rows of its family |
| `SessionLaws.RevokeIs` | apps/backend/src/auth/session.service.ts:111-120 | a logout revokes exactly the live rows of the token's family; an unknown token changes nothing |
| `SessionLaws.RevokeOthersIs` | apps/backend/src/auth/auth.service.ts:158-165 | a password change revokes exactly the administrator's live rows of other families |
| `SessionLaws.ActiveIs` | apps/backend/src/auth/session.service.ts:125-139 | a session is accepted exactly while it has a row of that administrator that is neither revoked nor over |
| `SessionLaws.LoginLasts` | apps/backend/src/auth/session-policy.ts:44-50 | after a login, to the millisecond until the idle time or the maximum is over |
| `SessionLaws.RotationLasts` | apps/backend/src/auth/session-policy.ts:44-50 | after a claimed rotation, to the millisecond until the idle time or its session is over |
| `SessionService.Service.Start` | apps/backend/src/auth/session.service.ts:57-70 | opens a new family with one live row to the exact end, drops the administrator's ended rows and leaves the others |
| `SessionService.Service.FinishRotate` | apps/backend/src/auth/session.service.ts:84-107 | hands out a new token exactly when the one it read is free, and otherwise revokes the family or leaves an expired one alone |
| `SessionService.Service.FindActiveOwner` | apps/backend/src/auth/session.service.ts:125-139 | answers the administrator exactly when the session has a row of theirs that is neither revoked nor over |
| `Lockout.LockoutsGrow` | apps/backend/src/auth/login-attempt-tracker.ts:24-26 | lockouts last 15, 30, then 60 minutes, never less than the window and never more than the cap |
| `Lockout.AnySixthFindsItLocked` | apps/backend/src/auth/login-attempt-tracker.ts:43-66 | whatever the history, of six failures inside a window the sixth finds the key locked already |
| `Lockout.AllButFiveFindItLocked` | apps/backend/src/auth/login-attempt-tracker.ts:43-66 | in any span shorter than 15 minutes all failures but the first five find the key locked |
| `Lockout.AtMostFiveIff` | apps/backend/src/auth/login-attempt-tracker.ts:43-66 | no span shorter than 15 minutes holds more than five failures if and only if no failure that finds the key locked comes less than a window after the fifth before it |
| `Lockout.AtMostFiveInAWindow` | apps/backend/src/auth/login-attempt-tracker.ts:43-66 | when every failure is counted while the key is unlocked, no span shorter than 15 minutes holds more than five |
| `Lockout.FewFailuresDoNotLock` | apps/backend/src/auth/login-attempt-tracker.ts:43-66 | fewer than five failures never lock a key |
| `Lockout.FifthFailureLocks` | apps/backend/src/auth/login-attempt-tracker.ts:43-66 | the fifth failure within the window locks the key for exactly 15 minutes |
| `Lockout.SpreadFailuresDoNotLock` | apps/backend/src/auth/login-attempt-tracker.ts:43-66 | failures of which no five fall within 15 minutes never lock the key, however many there are |
| `Lockout.RoundsLock` | apps/backend/src/auth/login-attempt-tracker.ts:24-66 | however many rounds of five failures follow one another, each begun less than an hour after the last lockout was over: the first locks the key for exactly 15 minutes, the second for 30, every later one for 60 |
| `Lockout.QuietHourStartsOver` | apps/backend/src/auth/login-attempt-tracker.ts:82-87 | after an hour unlocked and quiet what follows counts as if nothing had come before |
| `LoginAttempts.PruningChangesNoAnswer` | apps/backend/src/auth/login-attempt-tracker.ts:74-87 | after any history a tracker that prunes answers every isLocked like one that never does |
| `LoginAttempts.RecordIsOfItsTimes` | apps/backend/src/auth/login-attempt-tracker.ts:43-72 | each key's record depends only on its own failures since its last success |
| `LoginAttempts.AllButFiveAreOvertaken` | apps/backend/src/auth/auth.service.ts:46-68 | for the pruning tracker, over any run of logins in two steps: in any span shorter than 15 minutes, without a success in between, all of a key's counted failures but the first five are of attempts overtaken by the lock |
| `LoginAttempts.AtMostFiveIffNoneOvertaken` | apps/backend/src/auth/auth.service.ts:46-68 | the bound of five holds for a key if and only if no attempt overtaken by its lock is counted less than a window after the fifth failure before it |
| `LoginAttempts.OvertakenPassedItsCheck` | apps/backend/src/auth/auth.service.ts:46-68 | an attempt that is counted found none of its keys locked when it looked, so one that finds a key locked was overtaken between its two steps |
| `LoginAttempts.OneAtATimeCountsAtMostFive` | apps/backend/src/auth/auth.service.ts:46-68 | when every attempt finishes right after it looked, no key collects more than five in any span shorter than 15 minutes |
| `LoginAttempts.BurstIsCountedWhole` | apps/backend/src/auth/auth.service.ts:46-68 | of n wrong logins that all look before any is counted, all n are counted in one instant, for every n: the bound of five is broken from six on |
| `LoginAttempts.CheckLooks` | apps/backend/src/auth/auth.service.ts:46-47 | an attempt passes if and only if neither its email nor its address is locked, and looking counts nothing |
| `LoginAttempts.FinishEnds` | apps/backend/src/auth/auth.service.ts:61-68 | an attempt that passed counts one failure for each of its keys, or forgets both; one that saw a lock does neither; other keys keep their records, but for the quiet ones of a full tracker |
| `LoginAttempts.AuthService.Begin` | apps/backend/src/auth/auth.service.ts:46-47 | an attempt's first half passes exactly when neither of its two keys is locked, read once |
| `LoginAttempts.AuthService.End` | apps/backend/src/auth/auth.service.ts:61-70 | its second half counts a failure or forgets them by what the first half read, and does nothing if that was a lock |
| `LoginAttempts.LoginAttemptTracker.RegisterFailure` | apps/backend/src/auth/login-attempt-tracker.ts:43-66 | prunes, then counts each key's failure, locking it at the fifth in the window |
| `LoginAttempts.LoginAttemptTracker.Prune` | apps/backend/src/auth/login-attempt-tracker.ts:74-79 | removes exactly the stale keys, and only from the bound on |
| `LoginAttempts.LoginAttemptTracker.AnyLocked` | apps/backend/src/auth/login-attempt-tracker.ts:38-41 | locked exactly when some key is |
| `Grouping.Plan` | apps/backend/src/pdf-jobs/pdf-jobs.service.ts:206-217 | the plan's loop gives one group per property, in order of first appearance, with its settlements |
| `Grouping.SelectGenerationTriggers` | apps/backend/src/resolutions/select-generation-triggers.ts:20-42 | the trigger loop keeps the first settlement of each property and kind |
| `Grouping.PendingCountIsThePlans` | apps/backend/src/pdf-jobs/pdf-jobs.service.ts:162-185 | the count shown for a kind is the number of documents its job plans, new ones and those issued before, whatever order the queries return |
| `Grouping.PlanDocuments` | apps/backend/src/pdf-jobs/pdf-jobs.service.ts:191-238 | the plan: a new document per group, then one per resolution of the kind issued before |
| `Grouping.CountPending` | apps/backend/src/pdf-jobs/pdf-jobs.service.ts:162-185 | the counts of both kinds, from the triggers and the grouped query |
| `Grouping.SingleCoversThePlannedGroup` | apps/backend/src/resolutions/group-settlements-for-resolution.ts:13-36 | a single generation from any settlement covers exactly the group a bulk job plans for its property and kind, sorted by period |
| `Grouping.PlanCoversEachOnce` | apps/backend/src/pdf-jobs/pdf-jobs.service.ts:207-238 | the plan's groups are not empty, do not share settlements and together are all pending ones of the kind |
| `Grouping.PlannedIdsAreDistinct` | apps/backend/src/pdf-jobs/pdf-jobs.service.ts:465-474 | the settlements a reservation links are all different |
| `PlanLaws.PlanLists` | apps/backend/src/pdf-jobs/pdf-jobs.service.ts:206-217 | the plan's groups are those of the properties with a pending settlement of the kind, in the order of their first one, and each lists the ids at all its property's places, in order; a settlement is at risk exactly when its period is five years back or more |
| `PlanLaws.TriggersAre` | apps/backend/src/resolutions/select-generation-triggers.ts:20-42 | the triggers are exactly the settlements that are the first of their property and kind, in order, each with its kind |
| `ParagraphView.SegmentsBetween` | apps/frontend/src/domain/templateMarking.ts:342-363 | the loop that cuts fragments at two offsets |
| `ParagraphView.SegmentsSpellInside` | apps/frontend/src/domain/templateMarking.ts:341-363 | the segments between two offsets spell exactly the text between them |
| `ParagraphView.SegmentsAreInPlace` | apps/frontend/src/domain/templateMarking.ts:336-363 | every segment spells the text at its own offset, in the style its fragment has there |
| `ParagraphView.BlockPieces` | apps/frontend/src/domain/templateMarking.ts:380-409 | the loop with its cursor gives the marks in order and the text between them |
| `ParagraphView.ViewIsLossless` | apps/frontend/src/domain/templateMarking.ts:378-409 | for marks that do not overlap the pieces spell the paragraph, nothing lost or repeated |
| `ParagraphView.MarkSegmentsSpellTheMark` | apps/frontend/src/domain/templateMarking.ts:396-405 | every mark's segments spell the mark's own range |

## Left out

- Planning and reserving a job are one event; the guard of the linking statement is what makes that sound.
- Events the source would not produce are allowed in runs (a result dropped at any time, dispatch going on after a failure, a revert at any moment of an active job), so the statements cover more runs than the source has.
- The parallel uploads of one chunk: `Batching.Dispatch` sends in index order; the protocol lets them come in any order.
- Several backend instances restarting at once, and a load racing with a job: one instance and atomic transactions are assumed, as the source does.
- The watchdog's and the expiry's clocks: the events can happen at any time.
- What a PDF, a template or a ZIP contains beyond the documents it stands for; JSON, Azure, Prisma, LibreOffice, docxtemplater and Excel cells; the queue's visibility timeout and the worker's slots.
- The listing of a prefix is one step, and the folder of a job is a prefix given with it.
- The missing-data checks of single and bulk generation, and the size limits of a job: refusals before anything is written.
- DocxPart.Part.ApplySelections: one part with its rows, of the several a document has. Text boxes and nested tables are not modelled; blocks are numbered, and a table row is a run of cells of consecutive paragraphs.
- `name in catalog.loops` also sees JavaScript's inherited keys; the model only has the catalog's own. Characters are compared one by one, so a UTF-16 pair counts as one character.
- Merging the four tags of an inline list into one on screen, and the rest of the screen's rules: easy members.
- Cadastral codes stand for property ids, and documents within a municipality for owner ids; percentages, contact data and the record of an import are not kept.
- The texts `code:period` of the source are pairs here; no two pairs share such a text, since a period is a whole number.
- The columns named in a rejected row, and the row's texts: the reason is kept.
- Five calendar years after a payment order is an instant given with it, not computed from a calendar.
- SettlementRuns.OnceFinalNeverVigente: the resolution is kept. No event of these runs takes a resolution away from a settlement; a bulk revert does, but only from the documents its own job issued while it is active, and a job is not active for the 60 days finality takes. A panel change is one step here; `PanelChanges` has its two halves.
- The text of a batch's note and the proposal cards of the assistant.
- Password checks and tokens as random texts: tokens, families and rotations are fresh numbers.
- Sessions.ReuseClosesTheFamily: each half of a rotation and each revocation is atomic here. At read-committed isolation the update of a logout, or of the family's revocation when reuse is detected, does not see a token that another rotation has inserted and not committed yet, so that token can outlive it.
- The email of a lockout key is given trimmed and lower-cased.
- The language model, HTTP, guards, logging and the user interface.
