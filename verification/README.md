# Verified models of the PlayPulse pipelines

PlayPulse collects Play Store data and phone network captures: a crawler publishes app
statistics and reviews to Kafka, a network analyzer measures TCP behaviour in capture files,
a storage consumer writes all three kinds of event to PostgreSQL, and a sentiment job labels
the stored reviews. This project models the parts of those programs whose correctness is not
visible in any single function, and proves what they promise. `dafny verify dfyconfig.toml`
checks everything.

## The three cores

**TCP stream analyzer** (`Intervals`, `TcpTrace`, `TcpAnalyzer`, `TcpProperties`, `TcpShift`).
The analyzer keeps, per flow direction, a merged interval list, a frontier, the highest peer
ACK, a 32-bit base and a table of pending SYNs. `TcpTrace` says what the seven metrics mean
without any of that: sets of bytes over the whole packet history, the first missing byte, the
latest unanswered SYN. The class `TcpAnalyzer` is the code, field by field; its invariant ties
every field to the history, so the report it returns is the declarative one for every capture.
On top of the history come run-level theorems: acknowledgments never decrease, the order of
arrival does not matter once a base is known, islands never outnumber out-of-order segments,
handshake entries are conserved, and renumbering a direction changes no metric exactly when
the ACKs seen before its first segment agree.

**Storage consumer protocol** (`Events`, `Batching`, `Repository`, `BatchWrite`, `Protocol`,
`EffectivelyOnce`, `NoLoss`, `IdReuse`, `Redelivery`, `Turns`, `Worker`, `ConsumerProcess`). Any
number of workers poll, write a batch and its dead letters in one transaction, and commit offsets
afterwards, while transactions abort or commit unnoticed, commits fail, workers crash, and
partitions move with a slow former owner still writing. The headline: with a fixed registry, the
tables after any run equal one in-order pass over each partition's prefix up to the highest offset
written, and with a changing registry nothing below a committed offset is lost, if and only if no id
is ever given to a second package. What follows a failed commit is settled exactly: no redelivery
without an assignment. The loop of `worker.py` is a class that acts among other workers, rebalances
and the labeller, from any state a run has reached; its every effect is a step of that transition
system, its contract says which, and when it raises.

**Token bucket** (`RateLimiter`). Real arithmetic, one atomic step per critical section: the
rate bound between any two steps, refills that compose, an exact balance, and no starvation.

## The smaller cores

Residual retry with the publish attempt (`Retry`), concurrent migration runners under an
advisory lock (`Migrator`, `MigratorRuns`), the supervisor's threads and exit code (`Supervisor`), the registry
cache (`ApplicationResolver`), the keyset-paged sentiment job (`Sentiment`), and the capture
file name printer and parser (`CaptureFilename`).

## Assumptions of the storage theorems

They are the predicates `EffectivelyOnce.Produced` and `BatchWrite.Injective`:

- messages with one conflict key are in one partition (producers key by package name,
  `crawler/kafka_producer.py:100-104`);
- messages with one `analysis_id` are redeliveries of one message. `app_stats` needs no such
  assumption, because its key contains the time that decides between duplicates: two messages
  with one key tie, and a tie keeps the first under both rules;
- nothing is assumed of reviews beyond their partition: the guard on the update lets the
  freshest message win, however often the others come back;
- the pipeline's decoder produces the kind of event its repository stores;
- package name to id is one-to-one, and for the exact theorem the registry does not change. While
  it changes, an id must keep its name (`NoLoss.OneName`): the key of `app_stats` holds the id, so
  figures of a second package under a reused id conflict with rows of the first and are skipped.
  `IdReuse.NeverLosesExactly` proves that this is exactly what no-loss needs;
- two spellings of one UUID are one `analysis_id`: the column is a UUID, the decoder checks the text
  without normalising it (`storage_consumer/core/decoders.py`), and the model compares texts.

A row's first-seen time is the time of the transaction that inserted it.

## Where the code and its documentation differ

The model follows the code.

- `storage_consumer/core/events.py:52-54` says de-duplication happens before the foreign key is
  resolved; the worker binds ids first and deduplicates afterwards.
- `storage_consumer/runtime/worker.py:239-245` says a batch whose commit failed is redelivered.
  The consumer keeps its in-memory position, so it is not: `FailedCommitSkips` gives a run, and
  `FailedCommitRedelivers` the exact condition: after a failed commit the worker can poll an
  uncommitted offset of its batch again if and only if the partition may be assigned to it.
  `RedeliveredExactly` says of every run whether it can, and `NextCommitCovers` that otherwise the next
  successful commit passes the offset.
- `storage_consumer/runtime/supervisor.py:139-140` says no pipeline outlives another. An
  exception that `except Exception` does not catch, raised while a worker is being closed,
  skips the stop request. `EscapeLeavesSiblings` gives a run; `EndedThreadStopsTheRest` is the exact
  condition: once a thread has ended, the others go on if and only if nobody outside asked for a
  stop and every ended thread ended by such an exception, from a worker it had built.
- `network_analyzer/analysis/tcp_analyzer.py:167-171` compares ACKs in absolute sequence space
  when the base is not known yet, so the numbering can show. `SequenceSpaceInvariance` says
  exactly when it does.
- `network_analyzer/core/filename_parser.py:91-101` builds names for every date, but a year
  before 1000 is printed without padding and does not parse; `BuildThenParse` is the exact
  condition. What `%Y` prints there depends on the C library and the Python release: this is
  glibc's behaviour, and where the year is padded every year parses.
- `crawler/retry_policy.py:141-143` guards against an attempt that leaves items without an
  error. With the publish attempt it is reached if and only if there are items and
  `max_retries` is negative.

## Model

| member | source | states |
|---|---|---|
| Intervals.FullyCovered | network_analyzer/analysis/tcp_analyzer.py:262-276 | the scan over the sorted list answers exactly whether the range is a subset of the covered bytes |
| Intervals.Overlaps | network_analyzer/analysis/tcp_analyzer.py:279-288 | the scan answers exactly whether a non-empty range meets the covered bytes |
| Intervals.MergeInterval | network_analyzer/analysis/tcp_analyzer.py:291-314 | the list stays sorted, non-empty and separated by gaps, and covers exactly the old bytes and the new range |
| Intervals.MergeCanonical | network_analyzer/analysis/tcp_analyzer.py:291-314 | merging any range into a canonical list gives a canonical list |
| Intervals.MergeBytes | network_analyzer/analysis/tcp_analyzer.py:291-314 | merging adds exactly the bytes of the range, whatever it absorbs |
| Intervals.CanonicalFormUnique | network_analyzer/analysis/tcp_analyzer.py:291-314 | two canonical lists covering the same bytes are the same list |
| Intervals.CountBeyondIsRuns | network_analyzer/analysis/tcp_analyzer.py:246-253 | the intervals that start beyond a frontier are as many as the maximal runs of covered bytes beyond it |
| Intervals.RunsAfterAdding | network_analyzer/analysis/tcp_analyzer.py:213-253 | a new range moves the frontier forward, adds at most one run beyond it, and none if it meets old bytes or starts at or before the frontier |
| TcpAnalysis.GapJudgement | network_analyzer/analysis/tcp_analyzer.py:230-237 | comparing with the moving frontier decides whether some byte between the first data byte and the segment is missing |
| TcpAnalysis.ControlJudgement | network_analyzer/analysis/tcp_analyzer.py:191-206 | looking a SYN or FIN marker up decides whether a segment of that direction, number and kind came before |
| TcpAnalysis.DataSeenBefore | network_analyzer/analysis/tcp_analyzer.py:218-228 | a segment whose bytes were all seen moves neither bytes nor frontier, and is spurious exactly when the peer had acknowledged through its end |
| TcpAnalysis.NewDataJudgement | network_analyzer/analysis/tcp_analyzer.py:228-237 | among segments with unseen bytes, overlap is a retransmission and a gap before it is out of order |
| TcpAnalysis.AckStep | network_analyzer/analysis/tcp_analyzer.py:147-176 | the stored absolute ACK, read relative to the base, follows the history's acknowledgment packet by packet |
| TcpAnalysis.PeerAckIsHighest | network_analyzer/analysis/tcp_analyzer.py:147-176 | that acknowledgment is the largest relative number among the ACKs seen since the base and the largest one before it, and is one of them |
| TcpAnalysis.OpenSnoc | network_analyzer/analysis/tcp_analyzer.py:123-137 | a SYN opens its key unless it is open, an answering SYN-ACK closes it, and the remembered time is that of the SYN that opened it |
| TcpAnalysis.ClosedMeansAnswered | network_analyzer/analysis/tcp_analyzer.py:123-137 | every SYN whose key is not pending has been answered since |
| TcpAnalysis.TcpAnalyzer.constructor | network_analyzer/analysis/tcp_analyzer.py:46-58 | a new analyzer reflects the empty history |
| TcpAnalysis.TcpAnalyzer.Observe | network_analyzer/analysis/tcp_analyzer.py:60-73 | after one more packet every field reflects the history with that packet |
| TcpAnalysis.TcpAnalyzer.ObserveHandshake | network_analyzer/analysis/tcp_analyzer.py:102-145 | pending SYNs and RTT samples stay those of the history, with repeated SYNs keeping the first time and negative samples dropped |
| TcpAnalysis.TcpAnalyzer.NotePeerAck | network_analyzer/analysis/tcp_analyzer.py:147-176 | the stored ACKs stay the highest relative ACK of each direction, anchored once its base is known |
| TcpAnalysis.TcpAnalyzer.ObserveRetransmission | network_analyzer/analysis/tcp_analyzer.py:178-211 | bases, bytes, frontiers, markers and the three counters stay those of the history, for data, control and bare segments |
| TcpAnalysis.TcpAnalyzer.ObserveDataSegment | network_analyzer/analysis/tcp_analyzer.py:213-237 | exactly the counter named by the set-based judgement goes up by one |
| TcpAnalysis.TcpAnalyzer.PeerHasAckedThrough | network_analyzer/analysis/tcp_analyzer.py:239-244 | true exactly when the history's highest relative ACK reaches the given end |
| TcpAnalysis.TcpAnalyzer.AdvanceNextExpected | network_analyzer/analysis/tcp_analyzer.py:246-253 | one scan moves the frontier to the first missing byte at or after it, and touches no other direction |
| TcpAnalysis.TcpAnalyzer.RelativeSeq | network_analyzer/analysis/tcp_analyzer.py:255-259 | the first segment of a direction fixes its base, and later ones are measured from it modulo 2^32 |
| TcpAnalysis.TcpAnalyzer.Result | network_analyzer/analysis/tcp_analyzer.py:75-89 | the report equals the declarative metrics of the packets observed |
| TcpProperties.AnalyzeCapture | network_analyzer/analysis/metrics_calculator.py:22-43 | for every packet sequence, the one-pass analyzer reports what the set-based definition says |
| TcpProperties.AckNeverDecreases | network_analyzer/analysis/tcp_analyzer.py:147-176 | once a direction has a base, no further traffic lowers its highest acknowledgment |
| TcpProperties.SpuriousStaysSpurious | network_analyzer/analysis/tcp_analyzer.py:213-228 | a resend judged spurious now is judged spurious after any further traffic |
| TcpProperties.ArrivalOrderIrrelevant | network_analyzer/analysis/tcp_analyzer.py:213-237 | with the base fixed, the interval list depends only on which data segments of the direction follow, not on their order or repeats, nor on any other packet |
| TcpProperties.IslandStep | network_analyzer/analysis/tcp_analyzer.py:230-253 | one data segment adds at most one interval beyond the frontier, and only if it is counted out of order |
| TcpProperties.IslandsNeverExceedOutOfOrder | network_analyzer/analysis/tcp_analyzer.py:213-253 | in every reachable state the intervals beyond the frontiers, summed over directions, are at most the out-of-order count |
| TcpProperties.HandshakeConservation | network_analyzer/analysis/tcp_analyzer.py:123-145 | SYN entries ever created are those pending, plus the samples, plus the discarded negative samples |
| TcpProperties.SampleSources | network_analyzer/analysis/tcp_analyzer.py:128-145 | every sample is the non-negative time from the earliest unanswered SYN to the SYN-ACK that answers it, in order |
| TcpProperties.OneSamplePerSyn | network_analyzer/analysis/tcp_analyzer.py:129-131 | a SYN measured once is never measured again by a later SYN-ACK |
| TcpShift.ShiftInvariance | network_analyzer/analysis/tcp_analyzer.py:147-176 | adding a constant modulo 2^32 to a direction's numbers and the ACKs answering it changes no metric, if the ACKs before its first segment agree |
| TcpShift.DisagreementShows | network_analyzer/analysis/tcp_analyzer.py:167-171 | if two such ACKs differ, a continuation and a shift exist for which a metric changes |
| TcpShift.SequenceSpaceInvariance | network_analyzer/analysis/tcp_analyzer.py:167-176 | the numbering of a direction can never show if and only if the ACKs before its base all agree |
| Events.RowLosesNothing | storage_consumer/persistence/review_repository.py:52-67 | the projected row gives the event back: no field is lost or put in another's column |
| Events.ColumnsKeepObservedAt | storage_consumer/core/events.py:91-100 | the time the conflict guard compares is the one deduplication compares |
| Batching.DecodeBatch | storage_consumer/core/batching.py:43-66 | every record is decoded or rejected with its reason, in order, and none is dropped |
| Batching.BindApplicationIds | storage_consumer/core/batching.py:81-118 | every decoded record is bound to its id or rejected as unknown, in order |
| Batching.DedupeKeepsWinners | storage_consumer/core/batching.py:121-152 | what is kept has distinct keys, covers every key, and is for each key the earliest among its freshest records |
| Batching.DedupeByKey | storage_consumer/core/batching.py:121-152 | the dictionary loop keeps those records in first-seen order |
| Repository.StatementAccepts | storage_consumer/persistence/repository.py:71-103 | a statement over distinct keys is accepted and writes what one statement per row would |
| Repository.UpsertIsStream | storage_consumer/persistence/repository.py:87-93 | splitting into pages does not show |
| Repository.StatementAborts | storage_consumer/persistence/repository.py:74-77 | a page aborts if and only if it is of reviews and a row new to the table, or newer than the row stored, comes again |
| Repository.RepeatedReviewAborts | storage_consumer/persistence/repository.py:71-93 | a batch aborts if and only if some page, meeting the table its predecessors left, repeats a row it has touched |
| Repository.CountsAddUp | storage_consumer/persistence/repository.py:95-103 | inserted, updated and skipped rows add up to the rows offered |
| Repository.StreamKeeps | storage_consumer/persistence/review_repository.py:39-50 | no write removes a row or touches its first-seen time or its sentiment |
| Repository.StreamedFold | storage_consumer/persistence/review_repository.py:39-50 | written one by one, reviews settle on the freshest record and the DO NOTHING tables on the first |
| Repository.KeptIsFreshest | storage_consumer/core/batching.py:121-152 | with one-to-one keys, the kept record is the freshest for its table row |
| Repository.BatchEqualsStream | storage_consumer/core/batching.py:121-152 | writing the deduplicated batch never aborts, and gives the table of writing record by record if and only if, for each row a DO NOTHING write would add, the first record carries what the freshest does |
| BatchWrite.LetterKeepsMessage | storage_consumer/persistence/dead_letter_repository.py:105-124 | a stored payload is the message or its prefix of the limit's length, and the reason says so exactly when it was cut |
| BatchWrite.RecordDeadMeaning | storage_consumer/persistence/dead_letter_repository.py:46-71 | recorded letters stay as they are, and new ones appear at exactly the coordinates rejected |
| BatchWrite.BatchIsCoherent | storage_consumer/persistence/network_metric_repository.py:37-40 | redeliveries alone make every batch coherent, and app statistics need not even that |
| BatchWrite.BatchFolds | storage_consumer/runtime/worker.py:156-192 | a batch's transaction does to every row what its records do one by one |
| BatchWrite.BatchNamesSuffice | storage_consumer/runtime/worker.py:168-173 | resolving only the names a batch mentions binds it as the whole registry would |
| Protocol.StepKeepsOrder | storage_consumer/runtime/worker.py:117-131 | every step keeps committed offsets and idle positions at or below what has been written, which only rises |
| Protocol.CommitPublishes | storage_consumer/runtime/worker.py:128-130 | a successful commit publishes the worker's positions, and everything below them has been written |
| Protocol.FiveFailuresStop | storage_consumer/runtime/worker.py:217-256 | in every run the counter is the current streak of failed commits, and no live worker has seen five |
| EffectivelyOnce.CatchUp | storage_consumer/runtime/worker.py:156-163 | rewriting any stretch that starts in the written prefix leaves a row as one pass over the longer prefix would |
| EffectivelyOnce.WriteKeepsExact | storage_consumer/runtime/worker.py:156-192 | a pending batch can always be written, by a slow former owner too, and leaves every row and letter exact |
| EffectivelyOnce.EffectivelyOnceTheorem | storage_consumer/runtime/worker.py:117-131 | after any run with a fixed registry, rows and dead letters equal one in-order pass over each partition up to the highest offset ever written |
| EffectivelyOnce.PollingDoesNotShow | storage_consumer/runtime/worker.py:117-131 | two runs that wrote up to the same offsets leave the same contents, however they polled, retried or crashed |
| EffectivelyOnce.PendingBatchIsWritable | storage_consumer/runtime/worker.py:156-192 | after any run, no transaction aborts because of what it writes |
| NoLoss.DedupedWrites | storage_consumer/core/batching.py:121-152 | whatever the registry holds, a deduplicated batch is never refused |
| NoLoss.BatchIsKept | storage_consumer/runtime/worker.py:168-181 | a written batch keeps each of its messages, as its own dead letter or as a row that a message with its conflict key, no older, put there; and loses none that was kept |
| NoLoss.NothingCommittedIsLost | storage_consumer/runtime/worker.py:127-130 | in every run with changing registries in which no id has two names, each offset below a committed one is kept |
| IdReuse.ReuseLoses | storage_consumer/persistence/app_stats_repository.py:12-54 | two packages with one id and one crawl time: both messages are committed and the second package's figures are nowhere |
| IdReuse.NeverLosesExactly | storage_consumer/persistence/app_stats_repository.py:12-54 | for a set of name and id pairs, no run over any log that uses only them loses a committed message if and only if no id has two names |
| Redelivery.FailedCommitRedelivers | storage_consumer/runtime/worker.py:226-245 | after a failed commit of a worker that stays live, some continuation has it poll an uncommitted offset of its batch again if and only if assigning it the partition is allowed |
| Redelivery.RedeliveredExactly | storage_consumer/runtime/worker.py:226-245 | in every run, a worker once past an offset can read it next if and only if its last start or assignment since gave it the partition with the offset uncommitted, and no poll has passed it again |
| Redelivery.NoAssignmentNoRedelivery | storage_consumer/runtime/worker.py:239-245 | once past an offset, over any continuation in which the worker is not assigned the partition, none of its polls returns the offset |
| Redelivery.AssignmentRedelivers | storage_consumer/runtime/worker.py:232-238 | an idle worker that is assigned the partition of an uncommitted offset can poll it at once |
| Redelivery.NextCommitCovers | storage_consumer/runtime/worker.py:217-230 | a commit that succeeds later, without reassignment, passes the offset whose own commit failed |
| Redelivery.FailedCommitSkips | storage_consumer/runtime/worker.py:239-245 | on any log with two messages: the first one's commit fails, the next poll starts behind it, and the next commit covers both |
| NoLoss.OwnedColumnsStay | storage_consumer/persistence/review_repository.py:34-50 | a row once inserted stays with its first-seen time, and only the sentiment job changes its label |
| WorkerLoop.Consumer.Poll | storage_consumer/runtime/worker.py:118-121 | a poll returns the offered records from each position, one slice a partition, and advances the positions past them |
| WorkerLoop.Worker.WriteBatch | storage_consumer/runtime/worker.py:156-192 | all of the batch reaches the tables or none of it, and the outcome counts decoded, deduplicated, inserted, updated, skipped and dead-lettered records so that they balance |
| WorkerLoop.Worker.TryWrite | storage_consumer/runtime/worker.py:97-102 | whatever others do first, one attempt is one step of the protocol, written, written unnoticed, or aborted, and an error of any other kind ends the worker |
| WorkerTurns.Process.AttemptedOutcome | storage_consumer/runtime/worker.py:97-102 | among any steps of others an attempt leaves the batch durable if it meets no fault and pending if it does: what the batch holds is never a reason to fail |
| WorkerLoop.Worker.WriteBatchWithRetry | storage_consumer/runtime/worker.py:97-102 | attempts are made up to the first without a fault, the batch is durable if and only if there is one, and otherwise the exception ends the worker |
| WorkerLoop.Worker.Commit | storage_consumer/runtime/worker.py:217-256 | it raises if and only if this is the fifth failure in a row, and success clears the count |
| WorkerLoop.Worker.RunLoop | storage_consumer/runtime/worker.py:104-133 | from any state and among any steps of others, rebalances at the polls included, the loop makes the run its script leads to, the objects stay in the state of that run, and a typed pipeline's loop raises exactly when `LoopRaisesExactly` says |
| WorkerTurns.Process.LoopRaisesExactly | storage_consumer/runtime/worker.py:104-133 | the loop ends by an exception if and only if some turn polls records and every attempt to write them meets a fault, or its commit is the fifth failure in a row of the run |
| WorkerTurns.Process.LoopContinues | storage_consumer/runtime/worker.py:117-131 | for every script the loop's history is a possible run of the protocol that continues the one it started from |
| WorkerLoop.BatchAccounting | storage_consumer/runtime/worker.py:183-192 | records = inserted + updated + skipped + deduplicated + dead-lettered, for every batch |
| ConsumerProcess.Serve | storage_consumer/runtime/worker.py:104-133 | a process started in the state any run has reached, reassigned at any poll while others act at any point, leaves the tables and committed offsets of the protocol run its script describes |
| ConsumerProcess.ServedOnce | storage_consumer/runtime/worker.py:117-131 | whatever the past and the script, what the process leaves is one pass over a written prefix that covers every committed offset |
| ConsumerProcess.ServedDurably | storage_consumer/runtime/worker.py:127-130 | with a registry that changes between attempts, and ids that keep their names, no committed message is lost |
| RateLimiting.NewRateLimiter | crawler/rate_limiter.py:13-24 | a limiter is built if and only if both arguments are positive, and starts full |
| RateLimiting.RateLimiter.TryAcquire | crawler/rate_limiter.py:35-52 | one critical section refills, then grants or computes a positive sleep |
| RateLimiting.RateLimiter.Acquire | crawler/rate_limiter.py:26-55 | a thread returns at its first granted turn and at no other |
| RateLimiting.AttemptValid | crawler/rate_limiter.py:35-52 | tokens stay within 0 and the capacity |
| RateLimiting.RateBound | crawler/rate_limiter.py:35-52 | over every run, grants between steps at s and t are at most max_requests + rate * (t - s) |
| RateLimiting.RefillsCompose | crawler/rate_limiter.py:37-44 | refilling at s and then at t is refilling at t |
| RateLimiting.RefusalsCostNothing | crawler/rate_limiter.py:37-55 | any number of refused attempts leaves what one attempt at the end would find |
| RateLimiting.ExactBalance | crawler/rate_limiter.py:37-49 | between refills that do not reach the capacity, tokens are the old tokens plus the inflow minus the grants |
| RateLimiting.RefusalMeansSpent | crawler/rate_limiter.py:37-52 | at a refusal, grants since the bucket was last full exceed max_requests + rate * elapsed - 1 |
| RateLimiting.EveryRefusalIsSpent | crawler/rate_limiter.py:13-52 | a bucket that starts full has, at every refusal, a last step that found it full, and that many grants since |
| RateLimiting.WokenIsGranted | crawler/rate_limiter.py:50-55 | a waiter that sleeps the computed time is granted if nobody else was in between |
| RateLimiting.NoStarvation | crawler/rate_limiter.py:50-55 | by the time any waiter wakes and tries again, someone has been granted |
| Retry.TotalDelayClosedForm | crawler/retry_policy.py:38-41 | k retries sleep base * (2^k - 1) in all |
| Retry.WithRetry | crawler/retry_policy.py:44-87 | calls go on while they fail and the budget lasts, and a negative budget makes none and ends in the assertion |
| Retry.AttemptConserves | crawler/kafka_producer.py:137-170 | in one attempt every message is confirmed, unsent or unconfirmed, exactly once |
| Retry.ErrorsMeanFailures | crawler/kafka_producer.py:146-170 | a phase reports an error exactly when it leaves a message behind |
| Retry.AwaitingEnqueued | crawler/kafka_producer.py:162-170 | awaiting the enqueued futures finds each confirmed or failed message of the attempt, in order |
| Retry.Topic.PublishAttempt | crawler/kafka_producer.py:137-170 | the two phases return the unsent and then the unconfirmed reviews, with the last error |
| Retry.AttemptsConserve | crawler/retry_policy.py:118-137 | for every pattern of failures and any number of attempts, confirmed plus pending is what was asked for, as a multiset |
| Retry.EarlierPending | crawler/retry_policy.py:118-123 | an attempt that leaves something had something to do, and so had every one before it |
| Retry.Topic.RunResidualRetry | crawler/retry_policy.py:90-143 | only the residual is retried, the last attempt had work, and the end is a return, the last attempt's error, or RuntimeError exactly for a negative budget |
| Retry.Topic.SendReviews | crawler/kafka_producer.py:97-135 | a return means every review was confirmed once; otherwise confirmed plus residual is the input |
| Migrator.DiscoverMigrations | storage_consumer/persistence/migrator.py:63-95 | the files in ascending version order, if and only if there are some, all well named and no version repeated |
| Migrator.CheckSeesPrefix | storage_consumer/persistence/migrator.py:211-216 | under the lock, a version is recorded exactly when it has been applied |
| Migrator.StepKeepsConsistent | storage_consumer/persistence/migrator.py:197-228 | every step of any replica keeps what took effect a prefix in ascending order, and equal to what is recorded |
| Migrator.MigrationsApplyOnce | storage_consumer/persistence/migrator.py:112-139 | over every interleaving with rollbacks and crashes no version takes effect twice, and a replica returns only when all are recorded |
| Migrator.ReportsAreDisjoint | storage_consumer/persistence/migrator.py:123-139 | over every interleaving, an applied version is reported by at most one replica, and each report is ascending |
| Migrator.OneReplicaAtATime | storage_consumer/persistence/migrator.py:209-210 | at most one replica is ever inside the locked transaction |
| Migrator.SchemaDatabase.ApplyOne | storage_consumer/persistence/migrator.py:197-228 | a migration is applied and recorded together exactly when no one has applied it, and a failure leaves nothing behind |
| Migrator.SchemaDatabase.ApplyPending | storage_consumer/persistence/migrator.py:112-139 | with other replicas advancing before each lock, it ends with every version recorded and returns exactly those it applied itself |
| MigratorRuns.ApplyPendingIsARun | storage_consumer/persistence/migrator.py:112-139 | for any progress of the others there is an interleaving in which the replica returns what this one-replica view returns and leaves the same schema |
| Migrator.OwnVersionsAscend | storage_consumer/persistence/migrator.py:123-139 | what a replica reports is ascending and was not applied before it started |
| Migrator.AloneAppliesTheRest | storage_consumer/persistence/migrator.py:123-139 | without competition it applies exactly the versions still missing |
| Supervisor.RunIsOk | storage_consumer/runtime/supervisor.py:107-141 | the invariant of threads, events and main thread holds in every interleaving, a stop between the check of the stop event and the recording of the failure included |
| Supervisor.UnrequestedStopIsFailure | storage_consumer/runtime/supervisor.py:117-148 | a stop nobody outside asked for means a failure was recorded, and the exit code is 1 |
| Supervisor.CleanExit | storage_consumer/runtime/supervisor.py:92-105 | exit 0 with all threads joined means every pipeline returned normally after stop was set |
| Supervisor.ExitNeedsStop | storage_consumer/runtime/supervisor.py:92-105 | the process only exits after a stop, and with 0 only after one from outside |
| Supervisor.RunStops | storage_consumer/runtime/supervisor.py:52-61 | in every run stop is set if and only if someone outside asked, or some thread reached its own request |
| Supervisor.EndedThreadStopsTheRest | storage_consumer/runtime/supervisor.py:131-141 | once a thread has ended, stop is unset if and only if nobody outside asked and every ended thread escaped while closing a worker it had built |
| Supervisor.EscapeLeavesSiblings | storage_consumer/runtime/supervisor.py:131-141 | a run in which a built worker fails, its closing escapes, and another pipeline goes on while the process waits |
| ApplicationResolver.Resolver.Resolve | storage_consumer/persistence/application_resolver.py:50-83 | fresh entries answer from the cache, everything else from one query, and misses are never cached |
| ApplicationResolver.Resolver.ResolveStable | storage_consumer/persistence/application_resolver.py:50-83 | with entries that never change or vanish, a resolve is a direct lookup, whatever came before |
| ApplicationResolver.Resolver.ResolveChanging | storage_consumer/persistence/application_resolver.py:50-83 | with a changing registry every answer was true within the last ttl, and every name left out is unknown now |
| ApplicationResolver.ResolveAll | storage_consumer/persistence/application_resolver.py:50-83 | over any history of calls and a growing registry each answer is a direct lookup, names registered after a miss included |
| ApplicationResolver.ResolveHistory | storage_consumer/persistence/application_resolver.py:50-83 | over any history of calls in clock order and any changing registry, each answer was true within the last ttl and leaves out only names unknown then |
| Sentiment.AllSpaceStripsEmpty | sentiment/core/classifier.py:75-77 | exactly the whitespace-only texts never reach the model |
| Sentiment.ClassifyBatch | sentiment/core/classifier.py:63-100 | each slot is the label of its own text, or empty if there is nothing to classify, and it fails if and only if some label is not recognised |
| Sentiment.FetchBatch | sentiment/persistence/review_repository.py:37-47 | the page is ascending, skips no eligible row, and is short only when nothing is left |
| Sentiment.UpdateMeaning | sentiment/persistence/review_repository.py:49-62 | exactly the listed rows change, each to its own label |
| Sentiment.PageThenRest | sentiment/runtime/sentiment_service.py:54-108 | labelling a page and then everything after it is labelling everything |
| Sentiment.SentimentService.RunBatchCycle | sentiment/runtime/sentiment_service.py:54-108 | one full page is visited and, unless dry-run, labelled; a page with an unrecognised label changes nothing |
| Sentiment.SentimentService.RunJob | sentiment/main.py:112-117 | the loop ends, visits each eligible row once, and leaves the pointwise-labelled table for every batch size, or the same table on a dry run; it succeeds if and only if every label is recognised |
| Sentiment.LabelledMeaning | sentiment/runtime/sentiment_service.py:76-80 | in that table whitespace-only rows are NEUTRAL, other eligible rows have their own label, and ineligible rows are untouched |
| CaptureFilename.SplitIsTheMatch | network_analyzer/core/filename_parser.py:30-35 | a stem matches the pattern in at most one way, and cutting from the end finds it |
| CaptureFilename.OneWord | network_analyzer/core/filename_parser.py:30-35 | no stem can be read both as an upload and as a download |
| CaptureFilename.StampReads | network_analyzer/core/filename_parser.py:91-101 | a printed four-digit-year time reads back to the second |
| CaptureFilename.ShortYearNoMatch | network_analyzer/core/filename_parser.py:91-101 | a year of fewer than four digits makes a name that nothing matches |
| CaptureFilename.BuildThenParse | network_analyzer/core/filename_parser.py:40-101 | parsing a built name returns the same package, scenario and clock time to the second, as UTC, if and only if the package fits the grammar and the year is at least 1000 |
| CaptureFilename.ReadStamps | network_analyzer/core/filename_parser.py:62-88 | printing what was read from an upper-case stamp gives the stamp |
| CaptureFilename.ParseThenBuild | network_analyzer/core/filename_parser.py:40-101 | rebuilding a parsed name gives that name if and only if it was canonical: lower-case scenario, upper-case T, a year of at least 1000, no final newline, suffix `.pcap` |
| CaptureFilename.BuiltIsCanonical | network_analyzer/core/filename_parser.py:91-101 | every built name that parses is canonical |

## Left out

- Kafka, PostgreSQL, HTTP, dpkt, Play Store and Hugging Face calls: abstract steps or functions (a log with offsets, an atomic transaction, a registry map, a label function of one text).
- Group generations: any live worker's commit may succeed, a former owner's included, which allows more runs than the broker does.
- Log retention, `auto_offset_reset` and offsets that move backwards by an operator's hand.
- A rebalance in the middle of a turn: positions are reassigned at a poll, while other workers act at any point.
- A process killed in the middle of a turn is a step of `Protocol`; the loop of `Worker` itself ends by an exception or a stop request.
- Serial ids, the dead letters' `occurred_at`, and `ON DELETE CASCADE` from the registry.
- `storage_consumer/core/decoders.py`: the decoder is a partial function from payload to event.
- The quoting of an unusual package name inside the unknown-package reason.
- A delivery that times out on the client and arrives anyway is counted as not delivered (crawler/kafka_producer.py lines 162-168).
- `_await_deliveries` and the app-statistics send, which are one call under `with_retry`.
- Sleeping itself: delays are returned or summed, and clock readings are inputs.
- Floating-point rounding: the token bucket, delays and round-trip times use reals.
- `network_analyzer/analysis/packet_reader.py` and `network_analyzer/analysis/volume_analyzer.py`: byte totals and field copies.
- ACK numbers below the captured base wrap to large relative values; the model keeps that and does not claim it means delivery.
- The migration file name pattern: a file is a version and a name, or misnamed; which misnamed file is reported first is not modelled.
- `_check_prerequisites`, `_ensure_migrations_table` and `missing_tables`: one query each.
- `ApplicationResolver.invalidate`: it empties the cache.
- Non-ASCII digits, which Python's `\d` also accepts, and everything of a path before its final component.
- Texts that are `None` in `classify_batch`: the job's query never returns one.
- Writes by others to `reviews` while the sentiment job runs.
- `app_api`, command lines, configuration, logging, heartbeat files, containers and scripts.
