# USAGE: a verified model of its economics, telemetry and text handling

USAGE turns observed AI usage into permanent "Usage Points". This project models
the code where a mistake would be permanent or invisible, in Dafny, and proves
what that code is meant to keep: the ledger pipeline, the telemetry uploader, the
streaming and document parsers with their printers, and three small tools that
rewrite state in place (the secret migration, the Codex configuration editor, the
price scaler).

Modules follow the source files:

| modules | what they model |
|---|---|
| `Allocation`, `Database`, `Settlement`, `Protocol`, `Allotments` | dividing a pool; the tables and store calls; finalize and settle as programs, and as any interleaving of store calls with stops anywhere |
| `Epochs`, `Dedupe`, `OneUnit`, `Scoring`, `Ingest`, `Provenance`, `IngestRun`, `Pipeline` | ingestion: epoch assignment, one unit per economic key, chunked inserts, proofs, derived tables; what one run writes; and histories of ingest, finalize and settle operations |
| `Calibration`, `SettleDaily` | the checked zero-pool close and the daily job |
| `Buffer`, `Uploader` | the bounded observation buffer and the uploader with its backoff |
| `Sse`, `StreamObserver` | the browser's stream parser and the gateway's observer |
| `Attachments`, `History` | composing messages with files; the trimmed conversation history |
| `MarkdownInline`, `MarkdownBlocks`, `MarkdownSyntax` | the chat Markdown parser |
| `Otlp`, `Observations` | telemetry flattening and the allowlist normalizer |
| `Migration`, `Codex`, `Price` | secrets to the vault; the managed block; catalogue prices |
| `Text`, `Sums`, `Sorting`, `Wrappers` | strings, sums, the stable sort, options and results |

Code that changes state is a class or a method with the loops of the original; its
contract equates the new state with a function of the old one (`...Outcome`,
`Deduped`, `Pushed`, `EventsOf`, `Run`), and the theorems are about those functions.
What such a function computes is stated a second time, apart from its definition: by
what one more element changes (`...OfOneMore`), by cases on the input's own fields
(`...Exactly`, `...Writes`), or by taking an accepted text apart and putting it
together again (`...Is`, `...Reads`).

`dafny verify dfyconfig.toml` checks everything.

## What the proofs turned up

These are places where a promise in a comment or document holds only under a
condition; each has a proof of exactly when.

- Economic dedupe compares natural keys joined by `|`. One compute is paid at most
  once exactly when the join tells the natural keys apart (`OneUnitExactlyWithoutClash`,
  and over whole histories `PipelinePaysOnceExactlyWithoutClash`); keys without `|` in
  user, provider and source do (`BarFreeKeysDoNotClash`). In the database the user is a
  uuid and the source an enumeration, so neither can hold a bar. The provider is an
  unconstrained text that the code fills from a catalogue of slugs, none of which has
  one; a bar there would be enough (`BarInProviderPaysTwice`).
- The rule makes an economic key's first event its unit. After a run a key has a unit
  exactly if it had one, or the first record of the batch that carries it is new and
  unmarked (`KeyHasUnitExactlyIf`). If that record is a replay of one stored without the key, the
  key is stored and held for good (`HeldKeyStaysHeld`, `ReplayLeavesKeyHeld`).
- A batch stores the first record of a natural key and writes the proof from the last
  record whose joined text is the same, so a reported event can get a routed proof:
  proofs are truthful exactly when these two agree in type for every natural key that is
  new (`ProofsAreTruthfulExactlyWhenTypesAgree`). They can differ because a reference is
  repeated (`RepeatedReferenceUpgradesProof`), or because two references join to one
  text (`BarInProviderUpgradesProof`).
- `finalizeEpoch` checks the state one call before it writes it. Without the trigger
  that freezes settled rows an epoch can go from settled back to finalizing; with it,
  never (`ForwardExactlyWhenFrozen`).
- A settled epoch is said to have its ledger credited exactly once
  (src/lib/domain/epoch.ts:24-25). It is credited whole or not at all: with settled rows
  frozen and no run of it on its way to the ledger, it is paid exactly if it has a ledger
  row, now and after anything that may happen later (`SettledIsPaidWholeOrNever`). A run
  that stops between the settled row and the credits leaves it owed the pool and unpaid
  for good (`StoppedSettlementStaysUnpaid`).
- `closeCalibrationEpoch` settles before it looks again: an approval whose score is not
  positive passes the pre-check, has its epoch settled and is then refused
  (`CloseCompletesExactlyWhen`; `ScorelessCloseSettlesAndRefuses` for a table). An id that
  is not `epoch-` and its own date would settle the epoch of another day
  (`MisnamedEpochIsRefused`), but no event that ingestion stored sits in such an epoch
  (`IngestKeepsDates`, `IngestedApprovalNamesItsDay`), so the pre-check keeps it out.
- The daily job reads its guards for the day as it was given and settles the date which
  that day is read as; they are one epoch exactly when the day is written as a date is
  (`SettlesTheDayExactlyIfWrittenSo`; `MissingDaySettlesAnother` for a day).
- The stream parser says a malformed event is skipped; a `data: null` line parses and
  then throws, and nothing else does (`ThrowsExactlyOnNull`, `NullCrashes`). The events
  found earlier in that call are lost, and the buffer goes on behind the line.
- A single log record with a numeric time beyond the last date makes the normalizer
  throw away the whole batch (`ThrowsExactlyOnLateDates`; `LateNumberLosesTheBatch` for a
  record).
- The secret migration repoints provider connections but not billing accounts, whose
  reference is set to null by the delete: a complete run leaves billing tokens
  standing exactly when none of them is pending (`BillingTokensSurviveExactlyIfNonePending`;
  `SharedSecretLeavesBillingBehind` for a table).
  A failed final delete is reported as migrated (`FailedDeleteIsReportedMigrated`).
- A Codex route whose label or address contains the end marker makes the next enable
  cut at the wrong place; any other route does not (`ReEnableIsExactWhenClean`;
  `MarkerAsLabelSpoilsReEnable` for a route).
- An attachment is recovered exactly unless its name has a line break or its extension
  a backtick (`ComposedIsReadBack`; `UnreadableNames` for two names).
- The allocator's bonus is kept per user id. On any rows the points sum to at least the
  pool once anybody scored, and to exactly the pool if and only if every row of a served
  user is itself served (`AllocationSumsToPool`): two rows of one user overspend a pool of
  one and not a pool of two (`RepeatedUserOverspends`). The score table's key leaves one
  row per user; then, however quotients are rounded, the points sum to the pool if and
  only if the floors leave between nothing and one point for each scoring user
  (`FloorsDecideTheSum`).

## Model

| member | source | states |
|---|---|---|
| `Allocation.AllocateEpochRewards` | src/lib/domain/epoch.ts:213-251 | the loop's shares are those of the largest-remainder function, in row order |
| `Allocation.HandOutLeftover` | src/lib/domain/epoch.ts:238-243 | the bonus loop serves exactly the first participants in remainder order, as many as points are left |
| `Allocation.AllocationSumsToPool` | src/lib/domain/epoch.ts:209-251 | for any rows the whole points sum to zero when nobody scored, else to at least the pool, and to exactly the pool if and only if every row of a served user is itself served |
| `Allocation.AnyFloorsSumToPoolExactlyIf` | src/lib/domain/epoch.ts:226-250 | for any rows, floors and order the points sum to the pool if and only if the rows of bonus users are as many as the points left over |
| `Allocation.FloorsDecideTheSum` | src/lib/domain/epoch.ts:209-251 | with one row per user, whatever the floors and the order of the bonus, the points sum to the pool if and only if the floors leave between nothing and one point per scoring user |
| `Allocation.DistributedEqualsPool` | src/lib/db/settlement.ts:130-131 | the distributed total of the returned shares is the pool |
| `Allocation.QuotaIsRespected` | src/lib/domain/epoch.ts:220-224 | everybody gets the exact share rounded down or up, and exactly it when it is whole |
| `Allocation.AllocationIsMonotone` | src/lib/domain/epoch.ts:229-236 | a higher score never earns fewer points |
| `Allocation.AllocationIgnoresRowOrder` | src/lib/domain/epoch.ts:213-251 | points do not depend on the order the score rows came back in |
| `Allocation.AllocatePaysWhatIsOwed` | src/lib/domain/epoch.ts:245-250 | each returned share is the participant's own floor plus bonus |
| `Allocation.LargestRemaindersComeFirst` | src/lib/domain/epoch.ts:229-243 | of two scoring users of whom one is rounded up and the other down, the first has the larger remainder, or an equal one and the higher score, or both equal and the smaller id |
| `Allocation.NetworkScoreOfOneMore` | src/lib/domain/epoch.ts:217-218 | the network score is the sum of the positive scores, row by row |
| `Allocation.RepeatedUserOverspends` | src/lib/domain/epoch.ts:238-249 | a repeated user for whom the shares exceed a pool of one and meet a pool of two |
| `Database.OneScorePerUser` | src/lib/db/supabase-settlement-store.ts:17-26 | the score table's key leaves one participant per user |
| `Database.EpochScoresOfOneMore` | src/lib/db/supabase-settlement-store.ts:17-26 | a day's participants are the rows of that day and version with positive points, with those points as their score |
| `Database.UpsertWritesRow` | src/lib/db/supabase-settlement-store.ts:38-63 | an upsert writes the whole row of its epoch, keeps a binding it is not given, and touches nothing else |
| `Database.UpsertRefusedExactlyIf` | supabase/migrations/0018_economic_unit.sql:231-264 | an upsert is refused if and only if the freeze is there and the row stands settled |
| `Database.InsertOneAllocation` | src/lib/db/supabase-settlement-store.ts:65-79 | one more share adds its allocation row exactly if the epoch had none for the user |
| `Database.InsertOneCredit` | src/lib/db/supabase-settlement-store.ts:80-98 | one more share adds its credit exactly if it is positive and its id is not in the ledger |
| `Database.MarkedExactly` | src/lib/db/supabase-settlement-store.ts:101-112 | exactly the eligible events of the users in the epoch become settled, in their status alone; every other event stays as it was |
| `Settlement.SettlementStore.FinalizeEpoch` | src/lib/db/settlement.ts:82-103 | result and tables after finalizing, including every refusal |
| `Settlement.SettlementStore.SettleEpoch` | src/lib/db/settlement.ts:112-162 | result and tables after settling, including every refusal |
| `Settlement.SettlementStore.CreditAllocations` | src/lib/db/supabase-settlement-store.ts:65-99 | allocations and positive ledger rows are added, ignoring ids already there; the count is that of new ledger rows |
| `Settlement.FinalizeWrites` | src/lib/db/settlement.ts:82-103 | when finalizing is refused, with which error, and what it writes otherwise: the row of its epoch as finalizing with the network score of the day's participants |
| `Settlement.SettleWrites` | src/lib/db/settlement.ts:112-128 | when settling is refused, with which error, and which tables and which epoch row it writes otherwise |
| `Settlement.SettlePays` | src/lib/db/settlement.ts:130-162 | a settlement allocates its own pool among the day's participants, records and credits those shares, and reports them |
| `Settlement.SettleMarks` | src/lib/db/settlement.ts:145-148 | a settlement settles exactly the eligible events of the day's participants in its epoch |
| `Settlement.AllocationIdCollisions` | src/lib/db/settlement.ts:69-71 | two epochs can share an allocation id exactly if one id is the other, a colon and more |
| `Settlement.AllocationIdIsInjective` | src/lib/db/settlement.ts:19-21 | among other epochs an allocation id names one epoch and one user |
| `Settlement.ColonFreeIdsAreApart` | src/lib/db/settlement.ts:69-71 | epoch ids without a colon never collide |
| `Protocol.LedgerIsSafe` | src/lib/db/settlement.ts:19-21 | under any interleaving and any stops the ledger holds each allocation id once, pays only what the closed scores determine, and at most the pool |
| `Allotments.CreditsFollowAllocations` | src/lib/db/settlement.ts:133-144 | from a fresh store, under any interleaving and any stops, an epoch has at most one allocation per user, of what is due, and no credit without the allocation of the same amount |
| `Protocol.FreshStoreIsSafe` | src/lib/db/settlement.ts:19-21 | the same for every history from a store in which nothing is recorded and nobody runs, with no assumption on its state; and every settlement past its ledger call has paid exactly the pool |
| `Protocol.PoolIsNotExceeded` | src/lib/db/supabase-settlement-store.ts:80-98 | any part of the one allocation stays within the pool |
| `Protocol.FinishedSettlementPaysPool` | src/lib/db/settlement.ts:133-162 | once a settle run is past its ledger call the epoch's rows sum to exactly the pool |
| `Protocol.FrozenHistoryMovesForward` | scripts/verify-0018.ts:65-82 | with settled rows frozen, states only move open, finalizing, settled, and settled rows never change |
| `Protocol.UnfrozenRowMovesBack` | src/lib/db/settlement.ts:88-101 | without the freeze a reachable run writes finalizing over settled |
| `Protocol.ForwardExactlyWhenFrozen` | supabase/migrations/0018_economic_unit.sql:231-264 | epochs only move forward under every interleaving if and only if settled rows are frozen |
| `Protocol.SettledRowIsWhatWasPaid` | src/lib/db/settlement.ts:124-128 | a settled row records the network score and pool its ledger rows were computed from |
| `Protocol.SettledIsPaidWholeOrNever` | src/lib/domain/epoch.ts:24-25 | with the freeze and nobody on the way to the ledger a settled epoch keeps its rows for ever, and they are the whole pool exactly if there is one |
| `Protocol.StoppedSettlementStaysUnpaid` | src/lib/db/settlement.ts:124-144 | a reachable settled epoch that is owed its pool and stays unpaid under every later history |
| `Protocol.AloneFinalizeIsSequential` | src/lib/db/settlement.ts:82-103 | three store calls with nobody in between are the sequential finalize |
| `Protocol.AloneSettleIsSequential` | src/lib/db/settlement.ts:112-162 | six store calls with nobody in between are the sequential settle |
| `Protocol.SequentialSettlementPaysPool` | src/lib/db/settlement.ts:112-162 | a settlement nobody interrupts is such a history, so afterwards its epoch's ledger rows sum to exactly the pool |
| `Epochs.WalkForward` | src/lib/domain/epoch.ts:125-154 | the loop assigns the occurrence epoch if open, else that of the first day, from the ingestion day to 400 days on, whose epoch is open; it refuses if and only if none is |
| `Epochs.BatchIsTaken` | src/lib/db/ingest.ts:180-197 | every record goes to the epoch of its day, or else to the first open one of the calendar, nothing else of it changing but for the pricing hold; a batch is refused if and only if some record finds its epoch closed and no day open |
| `Epochs.EpochDayOfId` | src/lib/domain/epoch.ts:72-80 | an epoch id gives its day back, and only that day has it |
| `Dedupe.LoadPrimaries` | src/lib/db/economic-dedupe.ts:67-73 | the map holds, for each key, the earliest stored event and nothing else |
| `Dedupe.ApplyEconomicDedupe` | src/lib/db/economic-dedupe.ts:59-94 | the two maps decide every record as the owner of its key would |
| `Dedupe.RewardGoesToTheFirst` | src/lib/db/economic-dedupe.ts:40-94 | a record keeps its reward exactly if its natural key is written like that of the earliest stored event with its economic key, or, when none is stored, of the first record of the batch; else it is held, worth nothing and names the stored unit |
| `OneUnit.InsertInChunks` | src/lib/db/ingest.ts:210-213 | inserting in chunks stores what one insert would |
| `OneUnit.RunKeepsOneUnit` | src/lib/db/economic-dedupe.ts:15-21 | a run changes no stored event, and every event but the first of its economic key is marked, held and worth nothing |
| `OneUnit.HistoryKeepsOneUnit` | src/lib/db/ingest.ts:199-213 | the same over any sequence of batches by any users |
| `OneUnit.OneUnitExactlyWithoutClash` | src/lib/db/economic-dedupe.ts:36-38 | the rule holds for all histories over a set of natural keys if and only if their joined texts differ |
| `OneUnit.BarFreeKeysDoNotClash` | src/lib/db/economic-dedupe.ts:36-38 | natural keys without a bar in the first three parts never clash |
| `OneUnit.ClashPaysTwice` | src/lib/db/economic-dedupe.ts:87-91 | two clashing keys let two runs pay one compute twice |
| `OneUnit.BarInProviderPaysTwice` | src/lib/db/economic-dedupe.ts:36-38 | for any user, source and reference a provider with a bar makes two such keys |
| `OneUnit.AtMostOneEarns` | src/lib/db/economic-dedupe.ts:40-57 | of two events with one economic key the later earns nothing, and only one is an unmarked unit |
| `OneUnit.KeyHasUnitExactlyIf` | src/lib/db/economic-dedupe.ts:15-21 | after a run a key has an unmarked event if and only if it had one or the batch's first record of it is unmarked and stored |
| `OneUnit.HeldKeyStaysHeld` | src/lib/db/economic-dedupe.ts:63-94 | a key that is stored without a unit gets none from any sequence of batches |
| `OneUnit.ReplayLeavesKeyHeld` | src/lib/db/economic-dedupe.ts:15-21 | a replay stored without its key leaves every event of the key held, whatever comes later |
| `Scoring.FillBuckets` | src/lib/domain/normalize.ts:64-82 | the bucket loop holds, per bucket, the sum over exactly its events |
| `Scoring.AggregateOfOneMore` | src/lib/domain/normalize.ts:49-82 | one more event adds its five totals to the bucket of its user, day, provider, model and verification, and to no other |
| `Scoring.ScoreOfOneMore` | src/lib/domain/scoring.ts:141-200 | one more record adds to exactly one of the weighted, excluded and pending sums: which one, and how much, by its verification, its hold and its status |
| `Scoring.PointsOfOneMore` | src/lib/db/ingest.ts:250-275 | exact scoring adds up the pico-USD of eligible records and rounds them half up for the points; any other version takes its points from the curve |
| `Scoring.EventsOfOneMore` | src/lib/db/ingest.ts:243-252 | an epoch is scored over the user's events assigned to it, in stored order |
| `Scoring.FindScoreExactly` | src/lib/db/supabase-settlement-store.ts:17-26 | a stored score is found if and only if a row has the user, the day and the version, and it is that row's |
| `Scoring.HeldEventsScoreNothing` | src/lib/domain/scoring.ts:141-200 | held or ineligible events add nothing to any score |
| `Scoring.UpsertThenFind` | src/lib/db/supabase-store.ts:186-201 | writing a score replaces the row of its key and no other |
| `Ingest.IngestStore.IngestRecords` | src/lib/db/ingest.ts:169-284 | summary and all tables after a run, including the refusal when no epoch is open |
| `Ingest.IngestStore.InsertChunks` | src/lib/db/ingest.ts:210-213 | the chunk loop stores the batch as if it had gone in at once and counts the new rows |
| `Ingest.IngestStore.Rederive` | src/lib/db/ingest.ts:232-277 | the days and epochs of the batch are aggregated and scored again, everything else kept |
| `Ingest.EpochIdsAreThoseOfTheBatch` | src/lib/db/ingest.ts:243-243 | the rescored epochs are exactly those of the batch |
| `IngestRun.RunReports` | src/lib/db/ingest.ts:169-284 | when a run is refused, what its summary counts, and which tables it may write |
| `IngestRun.RunWrites` | src/lib/db/ingest.ts:180-213 | every record is taken into its epoch, then decided on, and the whole batch stored before anything is derived |
| `IngestRun.BucketAfterRun` | src/lib/db/ingest.ts:232-241 | the user's buckets from the first to the last day of the batch become what the events say, a batch day's bucket without events goes, and every other bucket stays, on any tables |
| `IngestRun.ScoreAfterRun` | src/lib/db/ingest.ts:243-277 | the user's score in each epoch of the batch becomes that of the user's events in it; every other score stays, on any tables |
| `IngestRun.ProofAfterRun` | src/lib/db/ingest.ts:138-230 | each new event gets one unsigned proof, with source and type of the last record of the batch whose joined text is the same |
| `Provenance.ProofsFollowRows` | src/lib/db/ingest.ts:215-230 | one proof per inserted event, carrying the type of the last record with its reference |
| `OneUnit.FirstRowsAreStored` | src/lib/db/supabase-store.ts:43-61 | each new row is the first record of its natural key, and none is missing |
| `Provenance.ProofsAreTruthfulExactlyWhenTypesAgree` | src/lib/db/ingest.ts:215-230 | proofs carry the type of their event if and only if, for each natural key that is new, the record stored has the type of the last record with its joined text |
| `Provenance.RepeatedReferenceUpgradesProof` | src/lib/db/ingest.ts:217-227 | a batch that gives a reported event a routed proof |
| `Provenance.BarInProviderUpgradesProof` | src/lib/db/ingest.ts:128-130 | two different references with one joined text do the same without any repetition |
| `Pipeline.DerivedAggregatesAreExact` | src/lib/db/ingest.ts:232-241 | recomputing the batch's days gives the aggregation of all events |
| `Pipeline.IngestKeepsExact` | src/lib/db/ingest.ts:232-277 | after every run all aggregates and all open-epoch scores equal a derivation from scratch |
| `Pipeline.IngestAgainChangesNothing` | src/lib/db/ingest.ts:206-277 | the same batch again changes no event, proof, aggregate or open-epoch score |
| `Pipeline.IngestLeavesClosedEpochs` | src/lib/db/ingest.ts:180-197 | no run adds an event to a closed epoch or writes a score of its day |
| `Pipeline.IngestOnlyAddsEvents` | src/lib/db/ingest.ts:169-284 | epochs, allocations and ledger stand; events and proofs only grow |
| `Pipeline.IngestIsALegalRescore` | src/lib/db/settle-daily.ts:148-155 | an ingest run between settlement calls meets the assumption the interleaving theorem makes |
| `Pipeline.IngestKeepsDates` | src/lib/db/ingest.ts:180-197 | no run stores an event in an epoch whose id is not that of a date |
| `Pipeline.HistoryKeepsEverything` | src/lib/db/ingest.ts:169-284 | over any sequence of ingest, finalize and settle operations derived tables stay exact and closed epochs stand |
| `Pipeline.PipelinePaysOnceExactlyWithoutClash` | src/lib/db/ingest.ts:169-284 | over every history of ingests, finalizations and settlements from empty tables only the first event of an economic key earns, if and only if the joined texts of the natural keys differ |
| `Pipeline.SettledIsWhatWasFinalized` | src/lib/db/settlement.ts:73-81 | whatever happens in between, settling divides the finalized scores, and succeeds exactly if nobody settled before |
| `Calibration.CloseCalibrationEpoch` | src/lib/db/calibration-close.ts:168-196 | result and tables of the close, with every refusal before and after and the throw on an id that holds no date |
| `Calibration.CloseCompletesExactlyWhen` | src/lib/db/calibration-close.ts:163-196 | once the pre-check passes the close completes if and only if the score is positive and the id is that of its own date; then epoch and event are settled and nothing of value moved; a good id has its epoch settled either way, one that holds no date changes nothing |
| `Calibration.MisnamedEpochIsRefused` | src/lib/db/calibration-close.ts:180-194 | an id that is not its date's is refused after the fact: its own epoch is left alone, and exactly when the date's epoch ends settled |
| `Calibration.ScorelessCloseSettlesAndRefuses` | src/lib/db/calibration-close.ts:180-194 | tables whose approval passes the pre-check, gets its epoch settled and is refused |
| `Calibration.IngestedApprovalNamesItsDay` | src/lib/db/calibration-close.ts:105-116 | over events that ingestion stored the pre-check lets no such id through |
| `Calibration.ReadyFacts` | src/lib/db/calibration-close.ts:105-133 | what an empty list of precondition reasons means for the tables |
| `Calibration.ReadyExactlyIf` | src/lib/db/calibration-close.ts:105-133 | the pre-check passes if and only if event, proof, score, epoch and protocol are as approved |
| `Calibration.ReasonsExactly` | src/lib/db/calibration-close.ts:105-133 | each of its eighteen reasons is listed if and only if what it says is so |
| `Calibration.NothingChangedExactlyIf` | src/lib/db/calibration-close.ts:136-153 | the post-check passes if and only if the event is settled and worth what it was, the epoch closed and bound, and proof, score, allocations, ledger and balance stand |
| `Calibration.ChangesExactly` | src/lib/db/calibration-close.ts:136-153 | each of its fourteen reasons is listed if and only if what it says is so |
| `SettleDaily.SettleDailyEpoch` | src/lib/db/settle-daily.ts:109-226 | outcome and tables of the daily job up to the call that settles inside the database |
| `SettleDaily.DailyAnswer` | src/lib/db/settle-daily.ts:129-226 | what the job answers, case by case over clock, recorded state, governing rule, approvals and dates |
| `SettleDaily.DailyOutcomeIsHonest` | src/lib/db/settle-daily.ts:129-217 | on the fixed-pool path the epoch of the date ends settled with the pool that governs the day, the scoring and binding that govern the date, and the network score of its participants; allocations and ledger take that pool's shares; the report says paid, of the whole pool, exactly when somebody scored; every other row stands; another path writes nothing |
| `SettleDaily.SettlesTheDayExactlyIfWrittenSo` | src/lib/db/settle-daily.ts:172-183 | the epoch of the day that was asked for ends settled if and only if the day, read as a date, is written back as it was |
| `SettleDaily.MissingDaySettlesAnother` | src/lib/db/settle-daily.ts:172-183 | a schedule and a day for which another epoch is settled |
| `SettleDaily.SettlementIsSound` | src/lib/db/settle-daily.ts:190-202 | the unsound-settlement branch is unreachable |
| `SettleDaily.SecondRunSkips` | src/lib/db/settle-daily.ts:135-143 | running a finished day again skips it and changes nothing |
| `Buffer.BufferFile.Enqueue` | miner/src/telemetry/buffer.ts:74-84 | stored list after adding: stripped, fresh, newest 2000 |
| `Buffer.BufferFile.Acknowledge` | miner/src/telemetry/buffer.ts:92-96 | exactly the acknowledged ids leave; all others stay, once each and in order |
| `Buffer.BufferFile.Pending` | miner/src/telemetry/buffer.ts:87-89 | exactly what is fresh, once each and in stored order, without removing anything |
| `Buffer.EnqueueKeepsNewest` | miner/src/telemetry/buffer.ts:74-84 | what is stored is the newest two thousand of what is fresh among the stored and the cut ones |
| `Uploader.UploaderObject.Push` | miner/src/telemetry/uploader.ts:116-121 | failures, backoff and buffer after a push; what is sent or newly stored is cut from one that waited or was pushed |
| `Uploader.UploaderObject.Flush` | miner/src/telemetry/uploader.ts:123-125 | the same for a flush |
| `Uploader.PushMoves` | miner/src/telemetry/uploader.ts:75-121 | one push in full: its batch is what is fresh and what is new, sent and stored with id, time and every schema field as they were; what is reported and when to go out again follow from clock and outcome |
| `Uploader.WhatLeavesWasPushed` | miner/src/telemetry/observation.ts:232-239 | every observation sent, and every one newly stored, has the id, the time and the schema fields of one that waited or was pushed, and the schema named |
| `Uploader.QueueMoves` | miner/src/telemetry/uploader.ts:75-121 | what the ideal queue holds after a call: nothing after success, else the newest of what was fresh and what is cut from the new ones |
| `Uploader.PendingIsTheQueue` | miner/src/telemetry/buffer.ts:87-89 | the distinct pending observations are the ideal queue |
| `Uploader.PushRefines` | miner/src/telemetry/uploader.ts:75-121 | one push keeps the stored list "repeats, then the ideal bounded queue" |
| `Uploader.BufferRefinesQueue` | miner/src/telemetry/uploader.ts:75-125 | after any history the distinct pending observations equal an ideal queue that appends unseen ids, drops the stale, keeps the newest 2000 and empties on success |
| `Uploader.FreshUploaderIsTheQueue` | miner/src/telemetry/uploader.ts:66-125 | the same from a new uploader over an empty buffer, with no further assumption |
| `Uploader.FlushIsAnEmptyPush` | miner/src/telemetry/uploader.ts:122-125 | a flush is a push of nothing, so histories of pushes cover both |
| `Uploader.NothingIsLost` | miner/src/telemetry/buffer.ts:73-84 | every pushed id is acknowledged, pending, aged out or evicted |
| `Uploader.CallAccounts` | miner/src/telemetry/uploader.ts:75-112 | where the ids of one call go: only stale ones age out, only overflow evicts, and every evicted observation stands before every kept one |
| `Uploader.AcknowledgedWasSent` | miner/src/telemetry/uploader.ts:83-91 | only what was sent is acknowledged |
| `Uploader.OnlySchemaFieldsLeave` | miner/src/telemetry/uploader.ts:40-51 | nothing outside the schema is sent or kept |
| `Uploader.BudgetOfFresh` | miner/src/telemetry/uploader.ts:62-63 | how many uploads fit a window when each waits out its backoff, exactly |
| `Uploader.BackoffBound` | miner/src/telemetry/uploader.ts:62-112 | while uploads fail for T seconds at most 4 + floor(max(0, T - 80) / 300) are made |
| `Sse.SseParser.Push` | src/lib/chat/sse.ts:47-59 | events of the completed lines, in order, and the unfinished rest kept; a throw stops at the first line that throws and leaves what stands behind it |
| `Sse.SseParser.Flush` | src/lib/chat/sse.ts:62-67 | the rest is parsed as one last line |
| `Sse.LineSays` | src/lib/chat/sse.ts:70-112 | what one line says: nothing without a payload, the end, a skip for malformed JSON, a throw on null, else the event its frame announces, an error before usage before text |
| `Sse.ReadStream` | src/lib/chat/sse.ts:43-68 | pushing all chunks and flushing yields the events of the whole text |
| `Sse.ParseLineIgnoresLineEnds` | src/lib/chat/sse.ts:52-75 | dropping a carriage return, or skipping a blank rest, changes no event |
| `Sse.ChunksDoNotMatter` | src/lib/chat/sse.ts:10-12 | from any unfinished line, for every way of cutting the stream |
| `Sse.CutsAgree` | src/lib/chat/sse.ts:10-12 | two cuts of one stream give the same events |
| `Sse.ThrowsExactlyOnNull` | src/lib/chat/sse.ts:76-85 | parsing throws if and only if a line's payload decodes to `null` |
| `Sse.NullCrashes` | src/lib/chat/sse.ts:76-85 | one line such as `data:null` is enough |
| `StreamObserver.OpenRouterStreamObserver.Push` | src/lib/compute/openrouter-gateway.ts:179-203 | state after a chunk: complete lines absorbed, partial line kept |
| `StreamObserver.ObserveStream` | src/lib/compute/openrouter-gateway.ts:174-208 | the result depends only on the complete lines of the concatenation |
| `StreamObserver.LastWriterWins` | src/lib/compute/openrouter-gateway.ts:193-197 | each member is the one the last frame stating it stated |
| `StreamObserver.FrameExactly` | src/lib/compute/openrouter-gateway.ts:184-192 | a line has a frame if and only if its payload is not the end mark and decodes to one |
| `StreamObserver.ObservedExactly` | src/lib/compute/openrouter-gateway.ts:130-165 | the result reports what was remembered, with the provider from the model's name when none was stated |
| `StreamObserver.UnfinishedLineIsIgnored` | src/lib/compute/openrouter-gateway.ts:181-183 | a last line without its newline leaves no trace |
| `Attachments.FenceIsShortestSafe` | src/lib/chat/attachments.ts:110-119 | a run of three or more backticks occurs in a file if and only if it is shorter than the file's fence |
| `Attachments.ComposedIsReadBack` | src/lib/chat/attachments.ts:122-138 | a CommonMark fence reader recovers every file and the trimmed question if and only if names are one line and extensions hold no backtick |
| `Attachments.UnreadableNames` | src/lib/chat/attachments.ts:122-138 | two names, one with a line break and one with a backtick for extension, that are not recovered |
| `Attachments.FilesAreReadBack` | src/lib/chat/attachments.ts:125-129 | the same for the blocks alone, whatever text follows them |
| `Attachments.BudgetHolds` | src/lib/chat/attachments.ts:80-108 | however files are dropped and removed, count, single size and total size stay within the limits |
| `Attachments.DropExactly` | src/lib/chat/attachments.ts:80-108 | a dropped file is attached if and only if it is text, small enough, not blank and fits beside the others |
| `Attachments.ExtensionExactly` | src/lib/chat/attachments.ts:57-61 | the extension is what follows the last dot of the file name, lower-cased, unless that dot comes first |
| `Attachments.BaseNameExactly` | src/lib/chat/attachments.ts:57-61 | the file name is what follows the last slash or backslash |
| `History.TrimStored` | src/lib/chat/history.ts:77-92 | the dropping loop computes the trimmed history |
| `History.LongestPrefixThatFits` | src/lib/chat/history.ts:87-90 | what is kept fits or is empty, and no longer prefix fits |
| `History.TrimKeepsTheNewest` | src/lib/chat/history.ts:76-92 | all three limits hold; nothing dropped is newer than anything kept |
| `History.KeepsAsManyAsFit` | src/lib/chat/history.ts:76-92 | kept are the newest conversations with their last two hundred messages: thirty at most, and as many as four hundred thousand bytes hold |
| `History.TrimIsIdempotent` | src/lib/chat/history.ts:77-92 | trimming again changes nothing |
| `History.StoredReadsBack` | src/lib/chat/history.ts:94-111 | what is stored reads back as the trimmed history |
| `History.AnythingReadsWithinLimits` | src/lib/chat/history.ts:98-111 | whatever is stored, what is read fits the limits |
| `MarkdownInline.ParseInline` | src/lib/chat/markdown.ts:186-241 | the loop returns the parsed tree without its delimiters |
| `MarkdownInline.NothingIsLost` | src/lib/chat/markdown.ts:18-20 | for every input, printing the tree with the delimiters read gives the input back |
| `MarkdownInline.EveryLinkIsSafe` | src/lib/chat/markdown.ts:173-179 | every link at every depth of the parsed tree has an address `safeHref` accepts as it stands |
| `MarkdownInline.EveryAddressIsSafe` | src/lib/chat/markdown.ts:173-179 | every address a parsed text links to, at any depth, is one `safeHref` accepts as it stands |
| `MarkdownInline.ParseOfPrint` | src/lib/chat/markdown.ts:181-241 | every well-formed tree, printed and parsed, is itself |
| `MarkdownInline.SpanReadsBack` | src/lib/chat/markdown.ts:181-184 | a span whose inside cannot end it early is matched whole, whatever follows |
| `MarkdownInline.SpanAtExactly` | src/lib/chat/markdown.ts:181-233 | a span is read at the start of a text if and only if the text starts with its source, closed where it first can be, and doubled marks go before single ones |
| `MarkdownInline.SafeHrefExactly` | src/lib/chat/markdown.ts:173-179 | which addresses are accepted |
| `MarkdownInline.ParseReads` | src/lib/chat/markdown.ts:198-240 | a text is read as the text before its first span, the span with its inside read, and the rest |
| `MarkdownBlocks.ParseMarkdown` | src/lib/chat/markdown.ts:45-162 | the loop over lines returns the blocks of the block function |
| `MarkdownBlocks.ParseBlock` | src/lib/chat/markdown.ts:58-159 | each branch takes the lines its block is made of, at least one |
| `MarkdownBlocks.CollectItems` | src/lib/chat/markdown.ts:109-131 | list items with the lines wrapped under them |
| `MarkdownBlocks.BlocksPartitionLines` | src/lib/chat/markdown.ts:45-162 | every non-blank line is in exactly one block's segment, in order, and each block says what its own lines say, list start and code language included |
| `MarkdownBlocks.BlockExtent` | src/lib/chat/markdown.ts:58-159 | where each block ends: no sooner and no later than its lines do |
| `MarkdownBlocks.ItemsExactly` | src/lib/chat/markdown.ts:105-131 | how long a list goes on, and which lines make up each item |
| `MarkdownBlocks.BreaksAreUnified` | src/lib/chat/markdown.ts:46-46 | a carriage return, with or without a line feed, is one line end |
| `MarkdownSyntax.CodeReadsBackExactlyIfInside` | src/lib/chat/markdown.ts:58-72 | fenced text is one code block with exactly that text if and only if none of its lines closes the fence |
| `MarkdownSyntax.UnclosedCodeReadsBackExactlyIfInside` | src/lib/chat/markdown.ts:68-70 | the same while the closing fence has not arrived |
| `MarkdownSyntax.OneLineBecomes` | src/lib/chat/markdown.ts:58-159 | a line by itself becomes the block its test asks for, with its own text |
| `MarkdownSyntax.HeadBecomes` | src/lib/chat/markdown.ts:96-107 | a line with a pipe above a divider becomes the head of a table |
| `MarkdownSyntax.HeadingIs` | src/lib/chat/markdown.ts:37-37 | what a heading line looks like, taken apart |
| `MarkdownSyntax.HeadingReads` | src/lib/chat/markdown.ts:37-37 | every line of that look is one, with that level and text |
| `MarkdownSyntax.BulletIs` | src/lib/chat/markdown.ts:39-39 | what a bullet line looks like, taken apart |
| `MarkdownSyntax.BulletReads` | src/lib/chat/markdown.ts:39-39 | every line of that look is one, with that text |
| `MarkdownSyntax.NumberedIs` | src/lib/chat/markdown.ts:40-40 | what a numbered line looks like, taken apart |
| `MarkdownSyntax.NumberedReads` | src/lib/chat/markdown.ts:40-40 | every line of that look is one, with that number and text |
| `MarkdownSyntax.QuoteIs` | src/lib/chat/markdown.ts:41-41 | what a quoted line looks like, taken apart |
| `MarkdownSyntax.QuoteReads` | src/lib/chat/markdown.ts:41-41 | every line of that look is one, with that text |
| `MarkdownSyntax.RuleIs` | src/lib/chat/markdown.ts:42-42 | what a rule looks like, taken apart |
| `MarkdownSyntax.RuleReads` | src/lib/chat/markdown.ts:42-42 | every line of that look is one |
| `MarkdownSyntax.FencesExactly` | src/lib/chat/markdown.ts:38-38 | which lines open and close fenced code |
| `MarkdownSyntax.RowExactly` | src/lib/chat/markdown.ts:164-171 | the cells of a row are what stands between its pipes, trimmed |
| `MarkdownSyntax.DividerExactly` | src/lib/chat/markdown.ts:43-43 | a divider is a row of two or more cells of dashes, with a colon or none at either end |
| `MarkdownSyntax.EveryLinkOfAReplyIsSafe` | src/lib/chat/markdown.ts:45-179 | the same for every link in every block of a whole reply, headings, lists, tables and quotes included |
| `MarkdownSyntax.EveryAddressOfAReplyIsSafe` | src/lib/chat/markdown.ts:45-179 | the same said of the addresses themselves, in any block of any reply |
| `Otlp.FlattenOtlpLogs` | miner/src/telemetry/otlp.ts:94-154 | the nested loops with their early exit return the flat records of the envelope |
| `Otlp.GatherAttributes` | miner/src/telemetry/otlp.ts:121-143 | the attribute loop with its limit |
| `Otlp.FirstObjectsAreTaken` | miner/src/telemetry/otlp.ts:109-150 | one record for each of the first 500 objects, in order |
| `Otlp.AttributeIsLastSupplied` | miner/src/telemetry/otlp.ts:126-142 | an attribute is the scalar of the last entry among the first 128 valid keys that supplies it |
| `Otlp.ComplexExactly` | miner/src/telemetry/otlp.ts:72-76 | which values are complex |
| `Otlp.NanoExactly` | miner/src/telemetry/otlp.ts:78-88 | which times can be read, and as what |
| `Otlp.DroppedExactly` | miner/src/telemetry/otlp.ts:121-143 | one more entry drops a value if and only if its key is valid, it comes within the limit and its value is complex |
| `Otlp.KeysAreValid` | miner/src/telemetry/otlp.ts:121-143 | attributes have keys of one to 128 characters, never the prototype's |
| `Observations.NormalizeRecords` | miner/src/telemetry/observation.ts:157-221 | the loop's observations, or the throw at the first date out of range |
| `Observations.OneMoreRecord` | miner/src/telemetry/observation.ts:165-221 | one more record adds its observation exactly if it is considered, dated by itself or by the time of reading; a throw loses all |
| `Observations.IntegerExactly` | miner/src/telemetry/observation.ts:121-127 | which values are counts, and of what |
| `Observations.TextExactly` | miner/src/telemetry/observation.ts:129-134 | which values are texts, trimmed and cut |
| `Observations.UsdExactly` | miner/src/telemetry/observation.ts:136-139 | dollars in micro-dollars, rounded half up |
| `Observations.DateExactly` | miner/src/telemetry/observation.ts:141-146 | which times are dated, which take the time of reading and which throw |
| `Observations.InvisibleContentDoesNotLeave` | miner/src/telemetry/observation.ts:81-86 | envelopes agreeing on times, keys and visible values give the same observations, whatever their bodies and other values |
| `Observations.ThrowsExactlyOnLateDates` | miner/src/telemetry/observation.ts:141-146 | normalizing throws if and only if a considered record is dated beyond the last date |
| `Observations.LateNumberLosesTheBatch` | miner/src/telemetry/observation.ts:141-146 | a record with a numeric time that loses every record normalized with it |
| `Observations.DigitsAreNeverLate` | miner/src/telemetry/otlp.ts:78-84 | a time written as digits never is |
| `Migration.SecretTables.MigrateAll` | scripts/migrate-secrets-to-vault.ts:78-125 | tables and counts after a run under any script of step outcomes |
| `Migration.SecretTables.MigrateSecret` | scripts/migrate-secrets-to-vault.ts:82-124 | one secret under any script |
| `Migration.RowWrites` | scripts/migrate-secrets-to-vault.ts:82-120 | the four tables after one secret, in terms of which steps took effect: connections move only to a copy that was read back, and the old secret goes only after they moved |
| `Migration.RowReports` | scripts/migrate-secrets-to-vault.ts:82-124 | when a secret is reported migrated, when failed, and when the run stops |
| `Migration.RowKeepsConnections` | scripts/migrate-secrets-to-vault.ts:9-12 | whatever befalls the steps, every connection keeps its credential, and a reported failure keeps the old secret |
| `Migration.RunKeepsConnections` | scripts/migrate-secrets-to-vault.ts:82-124 | the same for a run stopped anywhere |
| `Migration.RerunsKeepConnections` | scripts/migrate-secrets-to-vault.ts:6-7 | the same over any number of runs |
| `Migration.CompletedRunLeavesNothing` | scripts/migrate-secrets-to-vault.ts:6-7 | a run whose steps all work leaves nothing pending, and the next changes nothing |
| `Migration.FailedDeleteIsReportedMigrated` | scripts/migrate-secrets-to-vault.ts:114-118 | an unseen delete error counts as migrated while the secret is still pending |
| `Migration.BillingTokensSurviveExactlyIfNonePending` | supabase/migrations/0029_provider_billing_evidence.sql:47-51 | a complete run leaves all billing tokens if and only if none of them is pending |
| `Migration.SharedSecretLeavesBillingBehind` | supabase/migrations/0029_provider_billing_evidence.sql:47-51 | tables whose complete run moves the connection and empties the billing account |
| `Codex.CodexAdapter.EnableMining` | miner/src/tools/codex.ts:206-236 | refused without effect exactly for a foreign provider without force; else file and rollback copy |
| `Codex.CodexAdapter.DisableMining` | miner/src/tools/codex.ts:238-269 | file after disabling, with and without a rollback copy |
| `Codex.BlockReads` | miner/src/tools/codex.ts:75-89 | where label and address stand in the block |
| `Codex.CutExactly` | miner/src/tools/codex.ts:91-96 | what is cut out: from the first opening marker to the end of the first closing one |
| `Codex.ForeignIsFirst` | miner/src/tools/codex.ts:98-103 | the foreign provider is that of the first line outside the block where a setting stands |
| `Codex.NoForeignProvider` | miner/src/tools/codex.ts:98-103 | without such a line there is none |
| `Codex.SettingIs` | miner/src/tools/codex.ts:98-103 | what a setting looks like, taken apart |
| `Codex.SettingIsRead` | miner/src/tools/codex.ts:98-103 | every text of that look is one, with that value |
| `Codex.BreaksCollapse` | miner/src/tools/codex.ts:95-95 | three or more line breaks in a row become two, and nothing else changes |
| `Codex.CodexAdapter.EnableTimesThenDisable` | miner/src/tools/codex.ts:206-256 | one enable and disable restore any file exactly, absent ones included; n enables and a disable restore what the first n - 1 made |
| `Codex.EnablesLeaveOneBlock` | miner/src/tools/codex.ts:222-224 | any number of enables leaves one block below the user's text, of which only trailing space and surplus blank lines are gone |
| `Codex.ReEnableIsExactWhenClean` | miner/src/tools/codex.ts:91-96 | a second enable replaces the first block exactly if and only if its route does not carry the end marker |
| `Codex.MarkerAsLabelSpoilsReEnable` | miner/src/tools/codex.ts:91-96 | a route whose label is the end marker, after which a second enable is not exact |
| `Codex.EndInside` | miner/src/tools/codex.ts:75-89 | the end marker occurs inside a block if and only if label or address bring it |
| `Codex.DisableWithoutCopy` | miner/src/tools/codex.ts:265-268 | without a copy the user's text and one line break remain |
| `Codex.OwnBlockIsNotForeign` | miner/src/tools/codex.ts:98-103 | our block never counts as a foreign provider and never hides one |
| `Codex.CollapseIsIdempotent` | miner/src/tools/codex.ts:95-95 | collapsing blank lines twice is collapsing once |
| `Price.PriceIsHalfUp` | scripts/generate-pricing-snapshot.ts:33-48 | the price is the decimal's value times 10^12 rounded half up |
| `Price.ExactUpToTwelveDigits` | scripts/generate-pricing-snapshot.ts:39-41 | exact with at most twelve fraction digits |
| `Price.PriceIsMonotone` | scripts/generate-pricing-snapshot.ts:33-48 | no greater value has a greater price |
| `Price.ZerosDoNotMatter` | scripts/generate-pricing-snapshot.ts:37-39 | a zero before the whole part or after the fraction changes nothing |
| `Price.RefusedExactlyIfNotDecimal` | scripts/generate-pricing-snapshot.ts:34-35 | a text is refused if and only if it spells no decimal |

## Left out

- `Allocation.AllocateEpochRewards`: scores are whole ten-thousandths and quotients exact fractions; the original divides doubles, and rounding inside its shares and remainders is not modelled.
- `Allocation.QuotaIsRespected`: holds for exact quotients, for the same reason.
- The aggregate bucket's text key is a tuple in the model; the square-root score curve and pricing are parameters.
- `Epochs.WalkForward`: days are numbers and writing one down is a parameter, so the arithmetic of months and leap years is not modelled; the other ingestion members take the list of days to look at.
- Concurrent ingest runs and several processes sharing one buffer file: only sequential runs are modelled there; the source relies on a database index for the former.
- `SettleDaily.SettleDailyEpoch`: what `settleThroughDatabase` and the SQL function behind it write and report for baseline-linear epochs is not part of this model; a run is followed up to that call.
- `SettleDaily.DailyOutcomeIsHonest`: says when a run is left to the database, not what happens there.
- `Calibration.CloseCalibrationEpoch`: reading a day as a date and writing it back is a parameter, which gives nothing where the original throws.
- `Protocol.LedgerIsSafe`: assumes one pool, scoring version and kind for each epoch, fixed by the plan whoever runs, and that the scores of an epoch that stopped collecting stand while runs interleave; `Pipeline.IngestIsALegalRescore` discharges this for ingest runs that happen between store calls, not for ones that overlap them.
- Liveness of settlement: nothing is claimed of a run that is between the settled row and the credits; what is final is said of epochs none of whose runs is.
- `Ingest.IngestStore.IngestRecords`: proof overrides, connection bookkeeping, row field mapping and legacy column defaults are left out; they are copied fields without a rule of their own.
- Paging of queries and ties in creation time: rows are listed in insertion order.
- The network, the file system, encryption, hashing, JSON decoding and the clock appear as parameters or step outcomes; file errors inside the buffer do not.
- Characters: strings are sequences of characters rather than UTF-16 units, and the lower-casing of extensions is a parameter that makes no line break.
- `Attachments.ComposedIsReadBack`: a lone carriage return is not read as a line ending, and which files count as text is a parameter of the budget theorem.
- `Otlp.AttributeIsLastSupplied`: number texts are read by a parameter, and numbers are exact reals.
- `Observations.InvisibleContentDoesNotLeave`: the digest, date format and fallback clock are parameters equal in both runs.
- `Price.PriceIsHalfUp`: the final conversion to a double, exact below 2^53, is not modelled.
- `History.StoredReadsBack`: encoding and parsing are parameters that give the trimmed history back; message members other than four are left out.
- The observer's usage block is one value: the selection of its token details and the decimal text of its cost are left out.
- `looksLikeDocument`, `toWireMessages`, `titleFor`, `formatSize`, `inspectRouting`'s reported address, dry runs and printed lines: each is settled by reading its branches.
- User interface, route picking, redirect rules, simulations and reconciliation of aggregate imports: easy members, or code whose rules lie elsewhere.
