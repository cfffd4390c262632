# Verified data plane

A Dafny model of the data plane of a database migration tool, with proofs of what it
promises. `dafny verify dfyconfig.toml` checks everything.

| file | models |
|---|---|
| Keys, Reading, Partition, Yield | ordered keys, the batch-read contract of the connectors, dividing a chunk's unread rows |
| Transform, TransformMeaning | value and row transforms, and what each rule and conversion does |
| Pipeline, PipelineMeaning, Runner | one run of the full-load pipeline: as a machine with all interleavings, and as the program's goroutines changing their variables |
| ControlPlane | the batch limits in the control plane's replies |
| Worker, Upserts, Ownership, Finishing, Migration | the whole migration of a table: chunk records, leases, crashes, lost answers, stale attempts, yields, and the target; who may change a chunk record; when it can be finished; from plan to copy |
| ChunkPlanner | int64 range plans with wrap-around, keyset plans |
| Trust, TrustDecisions, TrustForest, TrustHistory, TrustReadmission, TrustStore | signing-key rotation, revocation and verification: specification, when each decision is taken, and the mutable store |
| FaultProxy, Transparency | the streaming trigger matcher and the arm-before-forward race; what the proxy passes on |
| Encoding, Checksum, ChecksumMeaning | hash inputs that can be read back, ordered and order-independent checksums, and what equal ones say of the rows |
| Sorting, HotPath, ValidationArchive, TaskArchive, ArchiveMeaning | evidence paging and the immutable validation archive |
| ReportArchive, Mixing, Uploader | archiving report bundles with a commit marker: interleaved attempts, when different bundles mix, and the program's request sequence |
| Ewma | the throughput average in int64 arithmetic |

Concurrency and failures are events of a machine: a step function is total, an event that
is not enabled changes nothing, and theorems quantify over all event sequences. Code that
changes variables step by step is a method or a class proved against the functions the
theorems are about.

Assumptions a reader should know: reads return the next rows in key order after a cursor;
target writes are upserts by target key; `Worker.Consistent` says that rows sharing a
target key have the same image, which `Worker.ConsistentIffHoldable` shows to be exactly
what makes a complete copy possible.

Where the code falls short of its comments, the model follows the code:

- A nil result of a run whose parent context was cancelled does not mean completion, for
  any chunk with a row to copy (`Pipeline.NilAfterCancelMayBeEarly`); without cancellation it
  does.
- A transition certificate without an issuer key id makes a second root
  (`TrustForest.UnnamedIssuerWitness`); the store stays a tree exactly without such
  certificates (`TrustForest.TreeIffIssuersNamed`).
- Unsorted keyset boundaries lose no key but read keys twice, which shows in the counters
  only (`ChunkPlanner.UnsortedReadsTwice`, exactly when in
  `ChunkPlanner.KeysetChunksPartitionIffSorted` and `Worker.CompletionEqualsOnePass`).
- A worker that claims a chunk twice can move its durable cursor back
  (`Ownership.ReclaimedCursorGoesBack`); otherwise cursors only go forward
  (`Ownership.CursorsNeverMoveBack`).
- Objects above the 32 MiB read limit can be put but never verified, so their bundle is
  never committed (`Mixing.LargeBundleNeverCommits`, exactly when in
  `Mixing.CommitsIffCompletable`); and
  bundles archived under the same names mix exactly if they disagree on a name they share
  (`Mixing.CommitsHoldIffAgree`, `Mixing.DifferentReportsMix`).
- A key past the end of its overlap stays active and can rotate again with a later end, which
  makes reports acceptable that were refused before (`TrustReadmission.ReadmissionWitness`,
  exactly when in `TrustReadmission.CanBeReadmittedIff`).
- The average overflows for large rates (`Ewma.LargeRatesOverflow`, exactly when in
  `Ewma.AverageIsExact`), and from below it never reaches a constant rate unless only the
  newest sample counts (`Ewma.ShortOfHundred`, `Ewma.ReachedIff`).

## Model

| member | source | states |
|---|---|---|
| Keys.LessMeaning | backend/internal/connector/mysql/connector.go:572-583 | A key is before another exactly if it is a proper prefix of it or has the smaller number at the first place where they differ. |
| Reading.ResumeAt | backend/cmd/worker/main.go:617-626 | Reading on from the key of the i-th selected row selects exactly the rows behind it, inside the same bounds: nothing is read twice and nothing is missed. |
| Reading.AdvanceFilters | backend/cmd/worker/main.go:639-660 | Moving the reader's cursor inside the chunk bounds only removes rows at or before it, for keyset and range chunks alike. |
| Reading.SelectMembers | backend/cmd/worker/main.go:617-626 | A selection returns exactly the table's rows that the bounds and the cursor admit. |
| Partition.DivisionKeepsCount | backend/internal/migration/service.go:2878-2976 | Pieces that reach every row behind a cursor read at least as many rows as are left, and exactly as many if and only if each row has one piece and no other row has any. |
| Partition.OrderedIntervalsHitOnce | backend/internal/migration/chunk_planner.go:67-96 | With ordered boundaries every key between the ends lies in exactly one [lower, upper) interval, and no other key in any. |
| Partition.EveryKeyIsCovered | backend/internal/migration/chunk_planner.go:69-96 | In whatever order the boundaries are, no key between the ends is lost. |
| Partition.NumberedInOrder | backend/internal/migration/chunk_planner.go:67-96 | Chunks are numbered consecutively from the given number, in their order. |
| Yield.BuildYieldRemainders | backend/internal/migration/service.go:2878-2976 | The loops over ranges, found boundaries and points create exactly the specified remainders, numbered behind the last chunk; for chunks of at most MAX64 keys no int64 operation wraps harmfully and the gap error never occurs, not even at the ends of int64. |
| Yield.RemaindersReach | backend/internal/migration/service.go:2878-2976 | Cutting a yielded chunk loses no unread row, whatever points boundary planning found. |
| Yield.RemaindersDivide | backend/internal/migration/service.go:2878-2976 | Cutting an integer range, or a keyset chunk at sorted points, gives every unread row to exactly one remainder and no copied row to any. |
| Yield.OneRemainderIffSorted | backend/internal/migration/service.go:2948-2976 | Every possible key behind the cursor gets exactly one keyset remainder, and no other key gets one, if and only if the points are sorted between cursor and end. |
| Yield.PointsAreNew | backend/internal/migration/service.go:2940-2952 | The points that are kept are distinct found keys and neither the cursor nor the end, so no interval is skipped as empty. |
| Yield.PointsAreKept | backend/internal/migration/service.go:2940-2952 | No found key is passed over while there is room: the kept keys grow with the found ones, and unless they fill the room every found key is kept or was seen. |
| Yield.RemaindersStayNarrow | backend/internal/migration/service.go:2886-2909 | The parts of a chunk with int64 bounds and at most MAX64 keys are such chunks again. |
| Yield.RemainderShapes | backend/internal/migration/service.go:2948-2976 | Remainders keep the kind of bounds; only the first keyset remainder carries a cursor, the committed one, and its bounds start there. |
| Yield.CutMeaning | backend/internal/migration/service.go:2878-2976 | The completed part of a yielded chunk holds exactly the chunk's keys up to the cursor of an integer range, and those before the cursor of a keyset chunk. |
| Yield.NumericRemaindersBalanced | backend/internal/migration/service.go:2851-2906 | A yielded range is split into as many remainders as wanted, as far as there are keys; none is empty and their sizes differ by at most one. |
| Transform.TransformValue | backend/internal/transform/runtime.go:184-252 | The loop over a column's rules yields the image of the value: rules in order, first failure wins, then the type conversion. What each rule and each conversion does is stated in TransformMeaning. |
| Transform.TransformRow | backend/internal/transform/runtime.go:99-111 | The loop over a row's columns yields the row's image or the failure of the first column that has none; a row of the wrong width fails. |
| Transform.TransformRows | backend/internal/transform/runtime.go:94-113 | The loop over a batch yields the images of all rows in order, or the failure of the first row without one. |
| Transform.RowImagesSplit | backend/internal/transform/runtime.go:94-113 | The transform is row-wise: the images of two batches joined are the images of the batches joined, whichever way a table is cut. |
| Transform.RowImagesPointwise | backend/internal/transform/runtime.go:94-113 | A batch has images if and only if each row has one, and they stand at the same positions. |
| Transform.ImagesAreAccepted | backend/internal/transform/runtime.go:193-252 | Whatever rules a column declares, an image that comes out is fit for its target type: true/false or 0/1, valid JSON, no zero date. |
| Transform.NullStaysNull | backend/internal/transform/runtime.go:140-146 | NULL is carried through by every rule list that has no NULL replacement. |
| Transform.RulesCompose | backend/internal/transform/runtime.go:184-192 | Two rule lists in a row do what the second does to what the first lets through, failures included. |
| Transform.TextRulesCompose | backend/internal/transform/runtime.go:148-161 | Any list of text rules is the composition of their functions, that of the last rule outermost. |
| Transform.DefaultForMissing | backend/internal/transform/runtime.go:156-177 | After any rules, an empty-to-NULL rule and a NULL replacement give missing values a default and change no other. |
| Transform.ZeroDatesNeedAPolicy | backend/internal/transform/runtime.go:243-247 | Of what any rules leave, a date or timestamp column refuses exactly the zero dates, and either policy rule as the last one leaves none. |
| Transform.BooleanRoundTrip | backend/internal/transform/runtime.go:197-230 | A boolean carried through an integer column and back is the boolean carried over directly, with the same failures, and its image is stable. |
| TransformMeaning.RuleMeaning | backend/internal/transform/runtime.go:140-182 | What one more rule makes of the value the rules before it leave, for every action: NULL only changes under a NULL replacement; zero dates are trimmed texts starting with 0000-00-00; broken JSON and unsupported actions fail. |
| TransformMeaning.PlainValueIsCopied | backend/internal/transform/runtime.go:249-251 | Unless the pair of types asks for a conversion, or a date column for a policy, the image is exactly what the rules leave. |
| TransformMeaning.BooleanMeaning | backend/internal/transform/runtime.go:119-129 | Of booleans exactly 1, t, true, y, yes, on count as true and 0, f, false, n, no, off as false, trimmed and in any case; other texts fail. |
| TransformMeaning.IntegerMeaning | backend/internal/transform/runtime.go:220-229 | Of the integers exactly 0 and 1 become booleans; others fail. |
| TransformMeaning.JsonMeaning | backend/internal/transform/runtime.go:231-241 | A JSON column gets the trimmed text if it is valid JSON and fails otherwise. |
| TransformMeaning.ZeroDateMeaning | backend/internal/transform/runtime.go:243-247 | Date and timestamp columns refuse a text that starts with 0000-00-00 after trimming. |
| TransformMeaning.RowMeaning | backend/internal/transform/runtime.go:99-111 | A row image holds the images of the cells in their places; it fails on a wrong width, and otherwise exactly if a cell fails, with the failure of the first one. |
| TransformMeaning.BatchFailure | backend/internal/transform/runtime.go:94-113 | A batch that fails fails with the failure of its first row that has no image. |
| Pipeline.NormalizeIsProjection | backend/internal/pipeline/full.go:79-105 | Every configuration normalizes to 1 <= min <= initial <= max with a buffer of 1 to 32, and exactly the normal ones are left unchanged. |
| Pipeline.NormalizeGrants | backend/internal/pipeline/full.go:79-105 | Consistent wishes are granted; missing ones become 500, 50, 5000 and 2 where the other limits allow. |
| Pipeline.NextBatchRowsInRange | backend/internal/pipeline/full.go:217-234 | Whatever the control plane answers and whatever the timings, the next batch size stays within [min, max]. |
| Pipeline.CapExceededIff | backend/internal/pipeline/full.go:217-234 | For any reply: the next batch exceeds the reply's row cap if and only if the cap is below the configured minimum, or the adaptive doubling, which runs after the cap, lifts the size above it. |
| PipelineMeaning.NextSize | backend/internal/pipeline/full.go:217-234 | The next batch size in every case: the target or the present size, within the limits and under the cap; doubled after a full batch in less than 1500 ms, halved after more than 8000 ms, and only for an adaptive worker with neither target nor pressure. |
| PipelineMeaning.TargetIsTaken | backend/internal/pipeline/full.go:218-220 | A target within the limits that no cap forbids is the next size. |
| PipelineMeaning.CheckpointMeaning | backend/internal/pipeline/full.go:206-234 | A successful checkpoint records the batch's cursor, ends the run if it was told to stop, and otherwise sets the next size. |
| ControlPlane.CapsComeWithPressure | backend/internal/migration/service.go:2750-2804 | Every reply the control plane computes from worker, task and topology pressure has a cap exactly if its level is WARN or CRITICAL, and no cap is below 50. |
| ControlPlane.CapIsObeyed | backend/internal/pipeline/full.go:217-234 | So a pipeline whose smallest batch is at most 50 rows, as the worker configures it, obeys the cap of every reply. |
| ControlPlane.AnswerMeaning | backend/internal/migration/service.go:2750-2804 | Level and cap of every reply: the worst level asked for, and the lowest cap of those that apply: half the last batch (at least 50), three quarters of it (at least 100), the topology's share (at least 50). |
| ControlPlane.TargetMeaning | backend/internal/migration/service.go:2750-2804 | The target is lowered to, or replaced by, a cap from the worker's own pressure; pressure on the whole task alone leaves it. |
| Pipeline.StepKeeps | backend/internal/pipeline/full.go:147-247 | Every step of the two goroutines keeps: batches in flight are consecutive slices of the chunk behind what is committed, sized within limits, and the reader stops short only when told to. |
| Pipeline.ExecKeeps | backend/internal/pipeline/full.go:147-247 | The same for every schedule of any length. |
| Pipeline.ReadIsNextSlice | backend/internal/pipeline/full.go:152-164 | The next read takes the next slice of the chunk, and an empty one only at the end. |
| Pipeline.AckPlaced | backend/internal/pipeline/full.go:206-215 | An acknowledged commit makes exactly the batch in hand durable and leaves the rest of what is in flight in place. |
| Pipeline.ReadAheadIsBounded | backend/internal/pipeline/full.go:147-174 | Under every interleaving, rows read and not yet committed never exceed (buffer + 2) * max, and every read limit lies in [min, max]. |
| Pipeline.NilMeansComplete | backend/internal/pipeline/full.go:149-174 | A run that ends without error, stop request or cancelled parent has committed the whole chunk: no row is left behind its cursor and the counter rose by exactly the chunk's rows. |
| PipelineMeaning.FailedReadIsNoEnd | backend/internal/pipeline/full.go:153-180 | After a failed read no schedule makes an uncancelled run report completion. |
| PipelineMeaning.FailuresEndTheRun | backend/internal/pipeline/full.go:177-210 | A failed write or checkpoint, an untranslatable batch and a cancelled pause end the run with an error and leave its cursor alone. |
| PipelineMeaning.HandOver | backend/internal/pipeline/full.go:149-174 | A page is handed over with its last key as cursor; the reader goes on only after a full page. |
| Pipeline.NilAfterCancelMayBeEarly | backend/internal/pipeline/full.go:165-174 | Some run returns nil without a stop request and leaves rows behind its cursor if and only if the chunk has a row to copy; in every such run the parent was cancelled. |
| Pipeline.RunsTerminate | backend/internal/pipeline/full.go:151-247 | No schedule keeps a run busy forever: the number of effective steps is bounded by the rows left. |
| Pipeline.NoDeadlock | backend/internal/pipeline/full.go:147-247 | Until the run has returned some goroutine can always take an effective step; the bounded channel never deadlocks. |
| Pipeline.CanComplete | backend/internal/pipeline/full.go:147-247 | From every healthy state of a run over translatable rows some schedule finishes the chunk. |
| Runners.Runner.LoadLimit | backend/internal/pipeline/full.go:152 | Loads the shared batch size, clamped; refines the machine's step. |
| Runners.Runner.Receive | backend/cmd/worker/main.go:616-664 | The read hook advances only the reader-local cursor (key tuple, or last integer with its flag) and hands the batch with that cursor to the sender. |
| Runners.Runner.Send | backend/internal/pipeline/full.go:164-172 | Sends an item if there is room and stops after an error or a short batch. |
| Runners.Runner.Take | backend/internal/pipeline/full.go:177-192 | Takes the oldest item, ends on errors, and transforms the rows with the compiled plan. |
| Runners.Runner.Write | backend/cmd/worker/main.go:678-697 | Upserting the transformed images by target key leaves the target the machine prescribes for the source rows; the counter rises by the batch. |
| Runners.Runner.CommitAcknowledged | backend/internal/pipeline/full.go:206-234 | Remembers the committed cursor, stops if told to, otherwise adapts the batch size exactly as the machine says. |
| Runners.Runner.Advance | backend/internal/pipeline/full.go:149-247 | Each event changes the running object exactly as it changes the machine. |
| Runners.Runner.Run | backend/internal/pipeline/full.go:135-248 | Under every schedule the running object follows the machine; what it wrote is always the images of the first rows of the chunk, as many as it counted, and on success the whole chunk. |
| Runners.RunDelivers | backend/internal/pipeline/full.go:193-204 | Rows counted as read are exactly the first rows of the chunk, and the target holds their images upserted in order. |
| Worker.ConsistentIffHoldable | backend/cmd/worker/main.go:684-697 | A translatable table can be held completely by the target if and only if rows sharing a target key have the same image. |
| Worker.NextKeeps | backend/cmd/worker/main.go:616-726 | Every event (claim, lease expiry, crash, read, partial or late write, commit with or without an answer, yield, completion, failure) keeps the migration's invariant. |
| Worker.NeverSkip | backend/internal/pipeline/full.go:132-134 | A crash can replay rows, never skip them: in every reachable state each row of a chunk at or before its durable cursor, and each row of a completed chunk, is in the target with its image. |
| Worker.FinishedAttemptCopiedItsChunk | backend/cmd/worker/main.go:881-893 | An attempt that returned nil, was not stopped and not cancelled has its whole chunk in the target, whatever earlier or stale attempts did. |
| Worker.CountersMatchCursors | backend/cmd/worker/main.go:702-711 | In every reachable state the durable counter of every planned chunk not yet complete is the number of its rows at or before its durable cursor (a remainder counts from the cursor it was created with), and all chunks together answer for what the plan reads and what overlapping cuts read again. |
| Worker.CreditsExactIffDivided | backend/cmd/worker/main.go:702-711 | No row is ever left out of the count, and none is counted twice if and only if the plan and every cut of the run give each row to one chunk. |
| Worker.CompletionEqualsOnePass | backend/cmd/worker/main.go:728-759 | When all chunks are complete the target equals one row-wise pass over the table, however chunks were planned and cut; the counters add up to the rows of the table if and only if no row was given to two chunks. |
| Worker.CopiesAgree | backend/cmd/worker/main.go:684-697 | A target that holds every image and is otherwise untouched is unique. |
| Worker.CheckpointKeeps | backend/internal/repository/postgres/postgres.go:592-602 | Storing cursor and counters of one progress message together keeps the invariant, even if the answer is lost or the attempt is stale. |
| Worker.LandKeeps | backend/cmd/worker/main.go:684-692 | A failed write may have applied any of its rows, at any later time, without harm. |
| Upserts.LastWriteWins | backend/cmd/worker/main.go:678-697 | After a batch of upserts each target key holds the image of the last row that has it, and every other key what it held. |
| Upserts.KeyMeaning | backend/cmd/worker/main.go:678-697 | The key of an image holds the values of the target's key columns in their order. |
| Upserts.WritesAndLateRows | backend/cmd/worker/main.go:678-697 | The target changes only by write requests and by rows of a sent request that are applied late. |
| Worker.YieldKeeps | backend/internal/migration/service.go:2978-3055 | Completing a yielded chunk with its remainders keeps the invariant, whatever points boundary planning found, and raises the rows answered for by exactly those that remainders share. |
| Worker.SortedCutsDivide | backend/internal/migration/service.go:2948-2976 | If every keyset cut of a run is at sorted points, every cut gives each unread row to exactly one remainder. |
| Worker.CompleteKeeps | backend/internal/migration/service.go:3061-3092 | Completing a chunk after a nil result is justified: every row of its bounds is in the target. |
| Worker.ReportFailureKeeps | backend/internal/migration/service.go:3555-3596 | Reporting a failure, retried or final, leaves cursors, counters and rows as they are. |
| Ownership.OnlyTheHolderProgresses | backend/internal/repository/postgres/postgres.go:592-602 | In every state and for every event, a chunk's cursor, counter, bounds or completion change only by a commit or report of a live attempt whose worker owns the chunk while it is RUNNING. |
| Ownership.StaleChangesNothing | backend/internal/repository/memory/memory.go:765-774 | A commit, report or failure report of an attempt whose chunk is not RUNNING or belongs to another worker changes nothing at all. |
| Ownership.ChunkTransitions | backend/internal/repository/postgres/postgres.go:592-619 | The only ways an event changes a chunk record, with the new record: claim, expiry, checkpoint, completion, reported failure. |
| Ownership.HolderIsObeyed | backend/internal/repository/postgres/postgres.go:592-602 | What the holder sends is stored: checkpoint, completion, failure. |
| Ownership.SuccessIsFinal | backend/internal/repository/postgres/postgres.go:604-619 | A completed chunk never changes again. |
| Ownership.CursorsNeverMoveBack | backend/internal/repository/postgres/postgres.go:592-602 | Over every run in which no worker claims a chunk twice, no durable cursor moves back, whatever attempts crash, are lost or go on after their lease has expired. |
| Ownership.ReclaimedCursorGoesBack | backend/internal/repository/postgres/postgres.go:592-602 | That condition is needed: wherever a pending chunk has more rows than one batch, a run exists in which one worker claims it twice and the late checkpoint of its first attempt moves the cursor back. |
| Ownership.ReportsComplete | backend/cmd/worker/main.go:881-893 | In every reachable state the report of a holder whose run returned without an error completes its chunk, yielded or not. |
| Ownership.CrashedAttemptsAreSilent | backend/cmd/worker/main.go:881-885 | A crashed attempt changes nothing any more, but for writes on their way. |
| Finishing.CanFinishIff | backend/cmd/worker/main.go:881-893 | Whatever crashes, lost answers and stale attempts came before: a migration can still be finished if and only if every row has an image and no chunk was given up. |
| Migration.KeysetMigrationEqualsOnePass | backend/internal/migration/chunk_planner.go:69-96 | A table migrated in keyset chunks, planned at any boundaries and run by any workers in any way, ends as one pass would have left it; with sorted boundaries and cuts the counters are exact. |
| Migration.RangeMigrationEqualsOnePass | backend/internal/migration/chunk_planner.go:12-35 | The same for integer chunks of a planned int64 key range, whose counters are always exact. |
| Migration.RangeChunksStayNarrow | backend/internal/migration/service.go:2886-2909 | Over every run of an integer migration all chunks stay int64 ranges of at most MAX64 keys, so every cut is computed without overflow. |
| ChunkPlanner.ChunkEndIsExact | backend/internal/migration/chunk_planner.go:23-26 | The wrapping sum and comparison compute the mathematical minimum of start + span - 1 and the maximum key, for all int64 operands. |
| ChunkPlanner.PlanIntegerRange | backend/internal/migration/chunk_planner.go:12-35 | Fails exactly for a non-positive span or an empty range; otherwise the chunks are numbered, contiguous, disjoint, cover [min, max] exactly, and all but the last have exactly span keys. The loop ends at the int64 limits. |
| ChunkPlanner.CoversCount | backend/internal/migration/chunk_planner.go:22-33 | The number of chunks is the width divided by the span, rounded up. |
| ChunkPlanner.CoversEachKeyOnce | backend/internal/migration/chunk_planner.go:22-33 | Every integer of the range lies in exactly one chunk, every other in none. |
| ChunkPlanner.PlanIntegerRangeByRows | backend/internal/migration/chunk_planner.go:39-65 | The overflow error exactly for ranges wider than int64; otherwise chunks of exactly width / count keys, rounded up, where count is the rounded-up quotient (at least 1), whatever its floating-point rounding, and never more chunks than that. |
| ChunkPlanner.Int64Meaning | backend/internal/migration/chunk_planner.go:19-33 | The limits of int64 and its wrap-around in decimal. |
| ChunkPlanner.PlanBoundedKeyset | backend/internal/migration/chunk_planner.go:69-96 | Fails exactly for an empty boundary; otherwise the chunks are the half-open intervals between the boundaries, open at both ends, numbered from 1. |
| ChunkPlanner.KeysetChunksPartitionIffSorted | backend/internal/migration/chunk_planner.go:67-68 | Every key lies in exactly one chunk if and only if the boundaries are sorted. |
| ChunkPlanner.UnsortedReadsTwice | backend/internal/migration/chunk_planner.go:69-96 | A concrete case: with the boundaries 2 and 1 two chunks read the key 1. |
| Trust.FindMeaning | backend/internal/validationreport/trust.go:312-330 | Among distinct keys the scan finds exactly the key that matches by id, or by fingerprint when no id is given. |
| TrustDecisions.LookupOutcome | backend/internal/validationreport/trust.go:312-330 | A lookup ends at a key the id and fingerprint name, at a key that has the id and another fingerprint, or, if there is neither, at no key. |
| TrustDecisions.ListAcceptedIff | backend/internal/validationreport/trust.go:278-310 | A list of keys is valid exactly if all keys are readable with a known status, one is ACTIVE and no two share an id or fingerprint; missing ids become ed25519- and 16 characters of the fingerprint. |
| TrustDecisions.ReportAcceptedIff | backend/internal/validationreport/trust.go:434-490 | Over the key's own fields: a report is accepted exactly if its key is not revoked, activated if pending, in force if it has a parent, and not past its retirement or overlap; the returned key is the stored one, ACTIVE instead of PENDING. |
| TrustDecisions.ReportRefusedBecause | backend/internal/validationreport/trust.go:447-471 | Which error each refusal gives, in the order of the checks. |
| TrustDecisions.ReportOfUnknownKey | backend/internal/validationreport/trust.go:440-443 | A report by a key that is not in the store, or under the id of another key, is refused with the matching error. |
| TrustDecisions.ReadmissibleIff | backend/internal/validationreport/trust.go:434-490 | A refused report can be accepted after some certificates exactly if its key is ACTIVE and was in force when the report was signed. |
| TrustDecisions.MalformedTransition | backend/internal/validationreport/trust.go:163-203 | Same key, a start before the issue, an overlap before the start and a bad signature are refused, in that order, by every store. |
| TrustDecisions.TransitionRefused | backend/internal/validationreport/trust.go:354-360 | A transition by an unknown key, under a contradicting fingerprint or by a key that is not ACTIVE is refused with the matching error. |
| TrustDecisions.TransitionRepeated | backend/internal/validationreport/trust.go:361-366 | A transition to a key that is there changes nothing: accepted if it has this parent or this id, refused otherwise. |
| TrustDecisions.TransitionTaken | backend/internal/validationreport/trust.go:386-391 | A transition to a new key under an id or fingerprint in use is refused. |
| TrustDecisions.TransitionAccepted | backend/internal/validationreport/trust.go:371-393 | A transition to a new key is accepted: its record, what becomes of the issuer, and that no other key changes. |
| TrustDecisions.MalformedRevocation | backend/internal/validationreport/trust.go:237-265 | A revocation without a reason or with a bad signature is refused. |
| TrustDecisions.RevocationRefused | backend/internal/validationreport/trust.go:400-411 | A revocation by a key that is unknown or not ACTIVE, or of an unknown key, is refused with the matching error. |
| TrustDecisions.RevocationDecided | backend/internal/validationreport/trust.go:416-432 | A revocation by an ACTIVE key marks exactly the target revoked, unless it is so already or no ACTIVE key would be left. |
| TrustDecisions.SortIsStable | backend/internal/validationreport/trust.go:388-388 | Sorting keeps the order of keys trusted at the same time. |
| TrustForest.ReachableStoresAreSane | backend/internal/validationreport/trust.go:349-432 | Over every sequence of certificates, ids and fingerprints stay unique, some key stays active, every key stays readable, and parent links stay without cycles and gaps, despite the re-sorting. |
| TrustForest.TreeIffIssuersNamed | backend/internal/validationreport/trust.go:349-432 | A store with one root still has it, and only it, after a sequence of certificates if and only if every transition accepted on the way that changed the store named its issuer by key id. |
| TrustForest.NewStoreIsForest | backend/internal/validationreport/trust.go:267-276 | A new store is such a tree with the given root. |
| TrustForest.ApplyKeepsGrove | backend/internal/validationreport/trust.go:349-432 | An accepted certificate of either kind keeps parent links without cycles and gaps, and all of a healthy store. |
| TrustForest.TreeIffIssuerNamed | backend/internal/validationreport/trust.go:371-386 | An accepted certificate keeps the single root if and only if it is a revocation, changes nothing, or names its issuer by key id. |
| TrustForest.IncomingIsNew | backend/internal/validationreport/trust.go:371-387 | The key a transition adds has an id and a fingerprint that no key of the store had. |
| TrustForest.SortMembers | backend/internal/validationreport/trust.go:388 | Re-sorting keeps the keys. |
| TrustForest.SortOrders | backend/internal/validationreport/trust.go:388 | Re-sorting orders the keys by time of trust. |
| TrustForest.WalkReachesRoot | backend/internal/validationreport/trust.go:471-485 | In a store without cycles and gaps the walk over parents reaches a root and reports neither. |
| TrustForest.VerifiedPathIsTrue | backend/internal/validationreport/trust.go:434-490 | Verification in a reachable store never reports a cycle or an incomplete path, and a reported path is the chain of true parent links from a root, the only one in a tree, to the signing key. |
| TrustForest.UnnamedIssuerWitness | backend/internal/validationreport/trust.go:349-394 | A concrete store and certificate: the transition is accepted and the store has two roots afterwards. |
| TrustHistory.OutgoingKeyKeepsHistory | backend/internal/validationreport/trust.go:371-387 | A rotation takes from its outgoing key exactly the reports after the cutoff: the overlap end, else the start of an immediate switch, else none. |
| TrustHistory.HistorySurvivesTransition | backend/internal/validationreport/trust.go:371-490 | A report accepted before any transition is still accepted afterwards, with the same path, if and only if nothing changed, its key is not the one the certificate identifies as outgoing, or its time is within the cutoff. |
| TrustHistory.HistorySurvivesRevocation | backend/internal/validationreport/trust.go:396-449 | Revoking another key does not touch an accepted report. |
| TrustHistory.RevocationEndsHistory | backend/internal/validationreport/trust.go:416-449 | Revoking its own key refuses it, whenever it was signed. |
| TrustHistory.HistorySurvives | backend/internal/validationreport/trust.go:349-490 | History survives every sequence of rotations and revocations that spares it. |
| TrustHistory.ScheduledKeysNeverExtendTrust | backend/internal/validationreport/trust.go:358-360 | A key that entered with a scheduled activation never gets children: it vouches for reports but cannot rotate or revoke. |
| TrustHistory.ScheduledKeyEntersAsLeaf | backend/internal/validationreport/trust.go:375-377 | A key with a future start enters the store in exactly that position. |
| TrustForest.FreshRotationAccepted | backend/internal/validationreport/trust.go:349-394 | Every well-formed rotation by an active key of a reachable store to an unused id and fingerprint is accepted and changes the store. |
| TrustReadmission.ReadmittedIff | backend/internal/validationreport/trust.go:371-387 | A refused report of a known key is accepted after a certificate that takes effect if and only if that is a rotation by its own key, which is active and past its overlap, and ends later than the report. |
| TrustReadmission.StaysRefusedIff | backend/internal/validationreport/trust.go:349-463 | A report refused only because its key has ended or was revoked stays refused throughout a sequence of certificates if and only if none that takes effect is a rotation by its key that ends later. |
| TrustReadmission.CanBeReadmittedIff | backend/internal/validationreport/trust.go:349-463 | Some certificates make a refused report of a known key acceptable if and only if its key is active and has only reached the end of an overlap; otherwise it is refused for good. |
| TrustReadmission.ReadmissionWitness | backend/internal/validationreport/trust.go:383-385 | A concrete store, report and second rotation that makes the refused report acceptable. |
| TrustStores.TrustStore.Validate | backend/internal/validationreport/trust.go:278-310 | Fails exactly for a key that cannot be read or has no known status, duplicate ids or fingerprints, or no active key; fills in missing ids in place. |
| TrustStores.TrustStore.FindKey | backend/internal/validationreport/trust.go:312-330 | Validates and returns the index the specification finds, or its error. |
| TrustStores.TrustStore.ApplyTransition | backend/internal/validationreport/trust.go:349-394 | Changes the store exactly as the specification says, and not at all when it refuses. |
| TrustStores.TrustStore.ApplyRevocation | backend/internal/validationreport/trust.go:396-432 | The same for revocations. |
| TrustStores.TrustStore.PathTo | backend/internal/validationreport/trust.go:471-488 | The walk and the in-place reversal compute the specified root-to-key path or its error. |
| TrustStores.TrustStore.VerifyManifestTrust | backend/internal/validationreport/trust.go:434-490 | Returns the effective key and path the specification gives, or its error. |
| FaultProxy.FeedTracks | backend/internal/netchaos/proxy.go:196-213 | With only the last |trigger| - 1 bytes kept, the matcher is armed exactly when the trigger occurs in the whole stream so far. |
| FaultProxy.WatchClient | backend/internal/netchaos/proxy.go:176-213 | However the client's stream is cut into reads, the proxy is armed after k reads exactly when the trigger occurs in them joined, and counts at most one trigger. |
| FaultProxy.NextKeeps | backend/internal/netchaos/proxy.go:174-270 | Every step of the two pumps, the upstream and the closing handler keeps: before arming the upstream cannot have the complete trigger. |
| FaultProxy.NoLateAnswer | backend/internal/netchaos/proxy.go:190-195 | In the dropping modes no byte the upstream sends after it has the complete trigger reaches the client, under any interleaving. |
| FaultProxy.DroppingModesAreTight | backend/internal/netchaos/proxy.go:218-248 | Late answers are kept from the client under all interleavings if and only if the mode is not reset-after-trigger. |
| FaultProxy.ResetsOnce | backend/internal/netchaos/proxy.go:218-270 | However a connection ends, it is reset once at most and only after the trigger: in reset mode when the complete trigger has gone out to the upstream, in dropping mode when an answer was dropped, in blackhole mode never. |
| FaultProxy.NothingAfterTrigger | backend/internal/netchaos/proxy.go:215-222 | In reset mode the client pump takes nothing after the chunk that completed the trigger. |
| Transparency.AnswersPassInOrder | backend/internal/netchaos/proxy.go:230-262 | In every mode and under every interleaving the client gets the front of what the upstream said; while the server pump runs, until the trigger and in reset mode always, all of it is delivered or on its way. |
| Transparency.RequestsPassInOrder | backend/internal/netchaos/proxy.go:174-228 | The upstream gets the front of what the client sent; while the client pump runs, only blackhole mode after the trigger swallows requests. |
| Transparency.EveryByteIsAccountedFor | backend/internal/netchaos/proxy.go:174-262 | While the server pump runs, every byte read on either side has been passed on, is on its way, or is in the drop counter. |
| Transparency.WaitingAnswersAreDelivered | backend/internal/netchaos/proxy.go:230-252 | What waits for an idle server pump is delivered by its next round, before the trigger in every mode. |
| Transparency.LateAnswersAreDropped | backend/internal/netchaos/proxy.go:234-248 | An answer read once the trigger was seen is dropped and counted; dropping mode then resets the connection, blackhole mode keeps it open. |
| Transparency.FaultOnTheClientSide | backend/internal/netchaos/proxy.go:180-222 | Reset mode resets once the completing chunk is out; blackhole mode drops the client's later bytes. |
| Encoding.RowRoundTrip | backend/internal/validation/checksum.go:62-76 | The bytes of a canonical row can be read back, whatever follows them. |
| Encoding.StreamsAreUnique | backend/internal/validation/checksum.go:62-76 | Equal byte streams come only from equal sequences of rows, of any widths. |
| Encoding.LittleEndianRoundTrip | backend/internal/validation/checksum.go:71-73 | The 8-byte length can be read back. |
| Encoding.FieldRoundTrip | backend/internal/repository/validation_archive.go:62-66 | A length-prefixed field can be read back, whatever follows it. |
| Encoding.FieldsAreUnique | backend/internal/repository/validation_archive.go:62-66 | Equal field streams come only from equal field lists. |
| Encoding.IntTextIsUnique | backend/internal/repository/validation_archive.go:68 | Different integers have different decimal texts. |
| Encoding.RowFormat | backend/internal/validation/checksum.go:62-76 | NULL is 0xff; a value is 0x00, its length and its bytes; a row ends in 0xfe. |
| Encoding.LittleEndianFormat | backend/internal/validation/checksum.go:69-72 | Lengths take eight bytes, the least significant first. |
| Encoding.FieldFormat | backend/internal/repository/validation_archive.go:62-67 | A field is its decimal length, a colon, its bytes and a bar; numbers are decimal. |
| Checksums.WriteRow | backend/internal/validation/checksum.go:131-143 | The loop over a row feeds the canonical bytes of the row and its end mark. |
| Checksums.RangeCanonical | backend/internal/validation/checksum.go:112-154 | Fails exactly on a column count mismatch or if one of the reads that paging takes fails; otherwise the checksum of the rows of the range in order, the same for every batch size. |
| Checksums.KeysetCanonicalBounded | backend/internal/validation/checksum.go:219-265 | The same over [lower, upper) of any key; no primary keys and a connector without key cursors are errors. |
| Checksums.UnorderedAccumulator.AddRequest | backend/internal/validation/checksum.go:40-96 | Adds exactly the rows the request selects, page by page, for every batch size; fails, with the error it names, exactly on a column mismatch, a failing read, or rows from a keyset connector without a cursor. |
| Checksums.AccumulateIsSum | backend/internal/validation/checksum.go:77-80 | Reducing after every row gives the total of the digests modulo 2^256. |
| Checksums.UnorderedCanonicalRequests | backend/internal/validation/checksum.go:273-281 | The checksum of all selected rows, their number and digest sum modulo 2^256, for every batch size, or the failure of the first request that is not answered. |
| Checksums.SameRowsSameChecksum | backend/internal/validation/checksum.go:267-272 | Requests that select the same rows equally often, in any order and cut, have the same checksum. |
| Checksums.OneChangedRowIsDetected | backend/internal/validation/checksum.go:267-272 | One changed row changes the checksum if and only if it changes the row's digest. |
| Checksums.KeysetPlanChecksum | backend/internal/migration/chunk_planner.go:69-96 | Checksumming the chunks of a keyset plan in any order is checksumming the table. |
| Checksums.RangePlanChecksum | backend/internal/migration/chunk_planner.go:12-35 | Checksumming the chunks of an integer plan in any order is checksumming the table. |
| Checksums.SameStreamSameRows | backend/internal/validation/checksum.go:123-152 | Two tables feed the ordered hash the same bytes if and only if their canonical rows agree one by one. |
| ChecksumMeaning.CanonicalRowMeaning | backend/internal/validation/checksum.go:62-76 | The canonical row has a cell per value, absent exactly for NULL and otherwise the column's canonical form of the bytes. |
| ChecksumMeaning.CanonicalRowsAgreeIff | backend/internal/validation/checksum.go:57-77 | What is hashed is the same exactly for tables of equal length whose rows agree value by value. |
| ChecksumMeaning.SameRowsIff | backend/internal/validation/checksum.go:57-77 | For columns that tell their values apart, what is hashed is the same exactly for tables with equal rows. |
| ChecksumMeaning.OrderedEqualIff | backend/internal/validation/checksum.go:112-154 | Two ordered checksums are equal exactly if the tables agree row by row, or have as many rows and different streams that the hash maps to one number. |
| ChecksumMeaning.ChangedRowShowsIff | backend/internal/validation/checksum.go:57-77 | A change to one row leaves the order-independent checksum alone exactly if no canonical value changes, or the digest maps the two rows' bytes to one number. |
| ChecksumMeaning.UnorderedMeaning | backend/internal/validation/checksum.go:57-79 | The order-independent checksum is the number of rows and the sum of their digests modulo 2^256. |
| ChecksumMeaning.RequestOutcome | backend/internal/validation/checksum.go:40-96 | Which requests are answered and why others are not, with the first failing read that is noticed. |
| Sorting.SortIgnoresOrder | backend/internal/repository/validation_archive.go:327 | Sorting by distinct keys gives the same list whatever order the records came in. |
| HotPath.SelectOfSorted | backend/internal/repository/validation_hotpath.go:33-46 | Filtering behind the cursor before sorting is the same as after. |
| HotPath.ListTableChunksPage | backend/internal/repository/validation_hotpath.go:24-55 | In whatever order chunks are listed, the page is the next page of the table's chunks in (number, id) order, 512 when no limit is given. |
| ValidationArchives.AddRow | backend/internal/repository/validation_archive.go:130-184 | The loop body accounts for one row in counts, times, digests, sums and the union; what these come to is stated in ArchiveMeaning. |
| ValidationArchives.FoldIsArchive | backend/internal/repository/validation_archive.go:114-206 | The loop's final variables describe the evidence seen: counts, time span, sums before the first complex split, the union from it on, and the three digest inputs. |
| ValidationArchives.PageThenRest | backend/internal/repository/validation_archive.go:122-129 | A page is the front of the evidence behind its cursor, and its last row leads to the rest. |
| ValidationArchives.BuildTableArchive | backend/internal/repository/validation_archive.go:114-206 | The record of the evidence, visited once each, whatever the page size, as long as the provider honours it. |
| ValidationArchives.WholeIffPageHonoured | backend/internal/repository/validation_archive.go:187-189 | The record is that of all evidence if and only if the page size is at most 5000, as every caller's is, or the evidence fits in one default page. |
| ValidationArchives.CountsAddUp | backend/internal/repository/validation_archive.go:151-163 | Total is covered plus missing, and the three outcomes never exceed covered. |
| ValidationArchives.TimesSpan | backend/internal/repository/validation_archive.go:164-169 | The recorded times are the earliest nonzero start and the latest finish of validated chunks. |
| ValidationArchives.UniformTotals | backend/internal/repository/validation_archive.go:172-204 | Row totals of tables with only simple splits are sums; with only complex splits one agreeing result stands for all, and the scope says so exactly then. |
| ArchiveMeaning.RecordCounts | backend/internal/repository/validation_archive.go:147-159 | Total, covered, missing, success, mismatch and error counts are the numbers of rows whose validation id and status text say so. |
| ArchiveMeaning.OutcomeTexts | backend/internal/repository/validation_archive.go:151-158 | The three status texts, byte by byte. |
| ArchiveMeaning.RecordTotals | backend/internal/repository/validation_archive.go:172-204 | Scope and totals for any mixture of splits: a chunk set exactly if all rows have one of the three range split types; a table union exactly if the validated rows from the first other split on agree; sums over the rows before it otherwise. |
| ArchiveMeaning.RecordDigests | backend/internal/repository/validation_archive.go:135-171 | Which fields each row adds to the evidence, source and target digests. |
| ArchiveMeaning.StartsInFront | backend/internal/repository/validation_archive.go:117-130 | The loop visits exactly the table's chunks with non-negative numbers, whatever their ids. |
| ValidationArchives.DigestIdentifiesEvidence | backend/internal/repository/validation_archive.go:135-146 | Two tables have the same evidence digest if and only if they have the same evidence, unless SHA-256 collides on the two inputs. |
| TaskArchives.BuildTaskArchive | backend/internal/repository/validation_archive.go:340-363 | The loop over tables yields the records of the tables with evidence, their totals and the task digest. |
| TaskArchives.Repository.CreateValidationArchive | backend/internal/repository/memory/memory.go:1413-1426 | Insert if absent. |
| TaskArchives.Repository.EnsureValidationArchive | backend/internal/repository/validation_archive.go:303-381 | An archive once stored never changes, every creator gets the stored one, and what is stored depends neither on page size nor on listing order. |
| TaskArchives.TotalsAddUp | backend/internal/repository/validation_archive.go:352-359 | Task totals are the sums over all evidence of all tables, with total = covered + missing. |
| TaskArchives.TaskDigestIdentifies | backend/internal/repository/validation_archive.go:333-362 | Equal task digests mean equal task headers and equal evidence digests of the same tables, unless SHA-256 collides. |
| ArchiveMeaning.TaskRecord | backend/internal/repository/validation_archive.go:337-362 | One more table adds its counts to the totals and its id and evidence digest to the task digest. |
| ArchiveMeaning.TablesRecorded | backend/internal/repository/validation_archive.go:344-352 | Exactly the tables with evidence get a record, in their order. |
| ArchiveMeaning.TerminalMeaning | backend/internal/repository/validation_archive.go:45-52 | Exactly finished, failed, cancelled and rolled-back tasks are archived. |
| ArchiveMeaning.LegacyIffNothingValidated | backend/internal/repository/validation_archive.go:363-371 | The archive is built from bare results exactly if no chunk of any table has been validated. |
| TaskArchives.ListingOrderIrrelevant | backend/internal/repository/validation_archive.go:323-327 | The proposed archive does not depend on the order in which tables are listed. |
| ReportArchive.NextKeeps | backend/internal/validationreport/s3.go:329-405 | Every step of any attempts at any bundles, including late or repeated puts, leaves what was there at the start as it was, and attempts get past objects and send puts only in their turn. |
| ReportArchive.StoredMeaning | backend/internal/validationreport/s3.go:373-384 | What a put stores: content, digest, lock mode, legal hold, and a retention of so many days of 86400 seconds if there is a lock mode. |
| ReportArchive.AcceptableMeaning | backend/internal/validationreport/s3.go:335-357 | What passes for the object of a put, over the object's headers. |
| ReportArchive.ReadyMeansComplete | backend/internal/validationreport/s3.go:407-485 | Whatever attempts at bundles that respect each other did or left under way, and attempts at one bundle do: a READY.json that was not there before vouches for a bundle whose other objects are all present and read back, and an attempt is committed only with all of its bundle in place. |
| ReportArchive.ContentsNeverChange | backend/internal/validationreport/s3.go:329-405 | While bundles that respect each other are archived, a stored object keeps its content. |
| ReportArchive.CommittedIsWhole | backend/internal/validationreport/s3.go:316-327 | Among objects with honest metadata a committed bundle is stored whole, so none of its objects exceeds the 32 MiB read limit. |
| ReportArchive.OneBundleRespects | backend/internal/validationreport/s3.go:407-485 | Attempts at one and the same bundle respect each other. |
| Mixing.CommitsHoldIffNoneMix | backend/internal/validationreport/s3.go:377-405 | For any bundles and any store: a committed bundle is in place over every run of attempts if and only if no attempt can come to put an object that differs from a bundle that can be completed. |
| Mixing.CommitsHoldIffAgree | backend/internal/validationreport/s3.go:377-405 | For bundles that fit the read limit and names that are free: a committed bundle is in place over every run if and only if any two of the bundles agree on every name they share. |
| Mixing.Mix | backend/internal/validationreport/s3.go:329-405 | The schedule: one attempt waits with its first differing put under way, the other commits, then the put arrives. |
| Mixing.DifferentReportsMix | backend/internal/validationreport/s3.go:377-405 | Two concrete bundles that differ in one report, for which a commit does not hold. |
| Mixing.CommitsIffCompletable | backend/internal/validationreport/s3.go:329-405 | Some run commits a bundle if and only if each of its objects is there already, as it should be, or fits the read limit. |
| Mixing.LargeBundleNeverCommits | backend/internal/validationreport/s3.go:316-327 | A concrete bundle with a report one byte above 32 MiB: no run commits it. |
| Uploaders.Uploader.Verify | backend/internal/validationreport/s3.go:335-365 | Accepts exactly an object with the right digest, lock attributes and content; otherwise names the problem. |
| Uploaders.Uploader.PutImmutable | backend/internal/validationreport/s3.go:329-405 | Leaves what is there, or puts the object as requested; its trace is a run of the machine; undisturbed it succeeds exactly if the object fits the read limit. |
| Uploaders.ArchiveBundleS3 | backend/internal/validationreport/s3.go:407-485 | Whatever happens to its requests: no content changes, the marker is present only with everything else, success is reported only with all objects in place and with a summary that shows the lock mode and legal hold asked for; undisturbed it succeeds exactly if all objects fit. |
| Uploaders.BundleOrder | backend/internal/validationreport/s3.go:426-461 | The order of the puts: artifacts, checksums, what signatures and timestamps there are, manifest.json, READY.json. |
| Uploaders.Summarize | backend/internal/validationreport/s3.go:462-482 | The loop over the objects finds the one lock mode all have, if they have one, whether all are on hold, and the earliest retention date. |
| Ewma.AverageIsExact | backend/internal/perfmodel/model.go:9-23 | The result is the weighted mean rounded down if and only if the weighted sum fits in int64. |
| Ewma.PercentMeaning | backend/internal/perfmodel/model.go:9-23 | The weight of a new sample is its percentage, with values below 1 and above 100 read as 1 and 100. |
| Ewma.LearnedStaysInRange | backend/cmd/soak-qualify/main.go:32-39 | Whatever samples between lo and hi arrive, the learned value stays between lo and hi, as long as 100 * hi fits in int64. |
| Ewma.OnlyPositiveSamplesCount | backend/internal/perfmodel/model.go:10-15 | Samples that are not positive are ignored and the first positive one starts the average. |
| Ewma.OneStep | backend/internal/perfmodel/model.go:9-23 | Without overflow, towards a constant input the value strictly descends from above without passing it; from below it climbs without passing it and stays if and only if alpha * (c - value) < 100. |
| Ewma.ReachedFromAbove | backend/internal/perfmodel/model.go:9-23 | From above a constant input is reached exactly. |
| Ewma.SettlesFromBelow | backend/internal/perfmodel/model.go:9-23 | From below the value settles where alpha * (c - value) < 100. |
| Ewma.ReachedIff | backend/internal/perfmodel/model.go:9-23 | Without overflow a constant rate is reached after some number of steps if and only if the average starts at or above it, or only the newest sample counts; from below it is never reached. |
| Ewma.ShortOfHundred | backend/internal/perfmodel/model.go:9-23 | A concrete case: at 25 percent an average of 97 never moves towards a rate of 100. |
| Ewma.LargeRatesOverflow | backend/internal/perfmodel/model.go:9-23 | A concrete pair of large equal samples whose average is negative: the range is kept only without overflow. |

## Left out

- Worker.Next: a chunk is fenced by worker id, as in the source, so cursor monotonicity is claimed only for runs in which no worker claims a chunk twice (`Ownership.ReclaimedCursorGoesBack` shows that it fails otherwise); never-skip and the counter result hold for all runs.
- Worker.TargetKey: the target is a map from key columns to images; other target writers, WriteBatch row counts and byte counters are not modelled.
- Pipeline.Step: byte counters, rate pacing and the length of pauses are not modelled; a pause is a step that may be interrupted by cancellation.
- Pipeline.Env: the source table does not change while it is copied, and every key is distinct and non-empty.
- Runners.Runner: the goroutines are modelled as atomic stretches run in any order; the channel is a sequence.
- ChunkPlanner.PlanIntegerRangeByRows: the rounded-up floating-point quotient is a parameter; only its use is modelled.
- Transform.Text: trimming, case mapping, replacement and JSON syntax are arbitrary functions; rule matching by table and column is done before.
- Trust.Certificate: certificates carry normalized key documents and whether their signature checked; a key's bytes are represented by its fingerprint.
- TrustStores.TrustStore.VerifyManifestTrust: the comparison of the manifest's key bytes with the stored ones is not modelled; it can only fail for two keys with one SHA-256 fingerprint, which the lookup has compared before. A manifest key that cannot be read is left out.
- Yield.Split: how many pieces are wanted and which boundaries the connector finds are inputs; relocation of remainders to other workers is left out.
- ControlPlane.Answer: latencies, thresholds, loads and the level of the whole task are inputs, pauses and byte budgets are left out.
- FaultProxy.Next: timers, dialing and listening are not modelled; the read buffer has no fixed size.
- Checksums.Request: HASH, PARTITION and custom SQL slices are given as the rows of the slice.
- Checksums.CanonicalCell: the canonical text of a value is an arbitrary function of the column.
- ValidationArchives.EvidencePage: only the provider path; the fallback that filters after paging is left out because a page can come up short without being the last one.
- TaskArchives.Repository.EnsureValidationArchive: one rival at one point of the call; provider errors, the archive built from bare results when no chunk has evidence and the task record are parameters or left out; archive timestamps and table names are not part of the record.
- ReportArchive.CollisionFree: SHA-256 is taken to be free of collisions.
- Uploaders.Uploader: request signing and HTTP status codes are outcomes of a request; lock modes other than the three and retention dates at the zero time are not modelled.
- Chunks with HASH, PARTITION or custom SQL splits in a migration: they are read again from the start after a crash.
- adaptPendingChunks, relocation of remainders, scheduling, throttling decisions and the migration status table.
- CDC capture and apply, spools, ordered merge and the commit-uncertain protocol.
- HTTP handlers, RBAC, sessions, UI, engine configuration, environment parsing, PDF and HTML reports.
