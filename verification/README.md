# FraudStream verification model

FraudStream enriches a stream of card transactions, scores them with rules, and keeps alerts, decisions and replay
results in buffered sinks. This project models the stateful parts of that pipeline in Dafny and proves what they keep
over every run: that an evicting index answers like a scan of its whole log, that shadow rules do not influence
decisions, that buffered records are conserved whatever the writes do, and so on.

Conventions:

- Times are integer milliseconds and amounts are integers in units of 1/10000. Floor division by a positive constant is
  Dafny's division.
- A keyed operator is a step system. A run is a sequence of event arrivals and watermark advances; a watermark that does
  not advance is ignored; an advance fires every timer that has become due. `Run`, `Seen`, `Accepted` and similar
  functions give the state and the logs of a run; the classes keep the same state in fields, and their `Valid` says that
  the fields are what the run makes of them.
- Threads are step systems with one program counter per thread. A step is one queue operation or one locked section, and
  a step that is not enabled leaves the state unchanged, so every sequence of steps is an interleaving.
- Outcomes that the code cannot control (writes, polls, scoring, clocks) are parameters, and every theorem holds for all
  of them.
- A main property that the code meets only under a condition is stated as an equivalence with that condition, with a
  concrete run on the other side.

Files, by component:

| file | component |
|---|---|
| `Velocity.dfy`, `VelocityTheorems.dfy`, `VelocityOperator.dfy` | per-account minute buckets, timers, eviction |
| `Dedup.dfy`, `Device.dfy` | deduplication by transaction id, device profiles by API key |
| `Assembly.dfy`, `Pipeline.dfy`, `EnrichmentJob.dfy` | the enriched record, and the network of keyed operators |
| `Rules.dfy`, `RuleMeaning.dfy`, `Evaluator.dfy`, `Decisions.dfy` | rule families, the evaluators, alerts and decisions |
| `Verdicts.dfy` | what the network's records say, and what the shipped rules decide about them |
| `IcebergSink.dfy` | the buffered append sink |
| `ResultSink.dfy`, `ResultSinkClose.dfy`, `ResultSinkOrder.dfy` | the concurrent replay result sink, what its close leaves behind, and in which order |
| `AlertQueue.dfy` | the drop-oldest alert queue |
| `Replay.dfy`, `RuleStore.dfy` | the replay job and its Kafka source, the rule-mode API and its file |
| `Luhn.dfy`, `AmountCodec.dfy` | check digits (Annex B of ISO/IEC 7812-1), decimal amounts (Apache Avro specification) |

## What the proofs found

- The allowed lateness that eviction can absorb is exactly 41 000 ms, retention minus the widest window. From 41 001 ms
  on, a late event can be counted without a bucket that its window still covers; counts then miss ids, and a larger
  history can turn a FLAG into an ALLOW. The claim that a window holds at least its last m minutes survives one more
  millisecond, because a bucket that only grazes the window can go.
- A shadow rule whose evaluation raises (for example a count threshold over a text field) turns the whole evaluation into
  ALLOW without an alert. Shadow rules are without influence exactly when this does not happen to a transaction that the
  active rules would flag. Rules with numeric thresholds over velocity or amount fields, the shipped ones included, never
  raise on an assembled record.
- No assembled record carries the current-time key or the daily device count, and no device is ever marked as known
  fraud. So impossible-travel rules, the rapid new-device rule and the known-fraud rule never match on the enrichment
  job's output, whatever their thresholds.
- The device profile's idle timer clears unconditionally, so a device seen a millisecond ago can be forgotten, although
  the constant is described as an idle time-to-live.
- A buffered sink's flush reads the clock again, and restarts its second from there. The records of every batch arrived
  less than a second apart exactly when that reading never lags behind the arrival that caused the flush, or the buffer
  holds one record only.
- A background write of the replay sink that fails after `close` has taken the buffer leaves its batch in the buffer,
  unless some later flush takes it.
- A batch of the replay sink whose write raises goes behind what was sent meanwhile, and is written after it.
- `close` releases the Kafka producer without waiting for other callers of `flush`; a result that one of them holds at
  that moment is dropped silently. That needs a second caller of `flush`: with a sole one, as in this repository, where
  only `close` calls it, every result has gone to Kafka exactly once after a close with no later sends.
- Alerts can be lost exactly when two `start` calls race on a queue of bounded size.
- A failing permission change after a complete dump leaves the new mode on disk and the old one in memory.
- With an open-ended offset range, the high watermark may advance between counting and iterating, and progress can then
  exceed one hundred percent. It cannot exactly when nothing was counted, or the iteration's end is not beyond the
  counted one, or the iteration fails before its loop.
- For a negative power of two at a byte boundary, the encoded amount is one byte longer than needed. The service rejects
  amounts that are not positive before it encodes them, and for all others the length is the least.

Where code and documentation differ, the model follows the code. Velocity thresholds are strict although the README table
at the repository root writes "at least". The end offset of a Kafka range is documented as inclusive and treated as
exclusive. The rule id pattern admits one trailing newline, because its end anchor also matches before one.

## Model

| member | source | states |
|---|---|---|
| Velocity.UnevictedIsScan | pipelines/processing/operators/velocity.py:150-158 | the never-evicting index answers every window exactly as a direct scan of its log does |
| Velocity.ReachableInv | pipelines/processing/operators/velocity.py:72-148 | in every reachable state with lateness within the retention, kept buckets hold the log's full sums, missing ones lie below the horizon, and every timer is pending or has done its eviction |
| VelocityTheorems.EvictionIsInvisible | pipelines/processing/operators/velocity.py:72-148 | with lateness up to 41 s, each accepted event is answered as by the never-evicting index and as by a scan of the accepted log |
| VelocityTheorems.LateEventIsMiscounted | pipelines/processing/operators/velocity.py:33 | for every larger lateness a concrete run counts 2 events where the log has 3 |
| VelocityTheorems.SafeLatenessIsExact | pipelines/processing/operators/velocity.py:25-33 | every run is answered like a scan if and only if the lateness is at most 41 000 ms |
| VelocityTheorems.RunsSettle | pipelines/processing/operators/velocity.py:79-82 | an advancing watermark leaves no due timer, and below the retention no accepted event brings one back |
| VelocityTheorems.StaleBucketsCoincide | pipelines/processing/operators/velocity.py:142-146 | two live buckets with events past the retention are the same bucket, once due timers have fired |
| VelocityTheorems.ReentryKeepsTwoStaleBuckets | pipelines/processing/operators/velocity.py:142-146 | for any lateness beyond the retention a concrete run keeps two stale buckets |
| VelocityTheorems.OneStaleBucketIsExact | pipelines/processing/operators/velocity.py:79-148 | at most one stale live bucket in every settled run if and only if the lateness is within the retention |
| VelocityTheorems.LiveBucketBound | pipelines/processing/operators/velocity.py:128-146 | live buckets number at most (retention + lead)/60000 + 3 |
| VelocityTheorems.LiveBucketsAreAnchored | pipelines/processing/operators/velocity.py:129-148 | in every reachable state, for any lateness, each live bucket holds an accepted event whose idle timer is still pending |
| VelocityTheorems.IdleAccountIsEmpty | pipelines/processing/operators/velocity.py:129-148 | for any lateness, once due timers have fired and the watermark is seven days past every accepted event, no bucket is left |
| VelocityTheorems.WindowSandwich | pipelines/processing/operators/velocity.py:181-194 | with lateness up to 41 001 ms each window counts at least the last m minutes and at most the last m+1, sums likewise for non-negative amounts, and the windows are nested with count at least one |
| VelocityTheorems.SandwichIsExact | pipelines/processing/operators/velocity.py:25-33 | the same in every run if and only if the lateness is at most 41 001 ms |
| VelocityTheorems.TallyOfSubHistory | pipelines/processing/operators/velocity.py:186-193 | a sub-multiset of a history with non-negative amounts never counts or sums to more |
| VelocityOperator.ComputeVelocity | pipelines/processing/operators/velocity.py:181-194 | the emission loop yields one sum per window, independent of the order in which buckets are visited |
| VelocityOperator.SumFrom | pipelines/processing/operators/velocity.py:186-191 | the inner loop sums exactly the buckets at or after the cutoff |
| VelocityOperator.VelocityProcessFunction.constructor | pipelines/processing/operators/velocity.py:53-70 | a new operator has seen no step, and so has an empty log and state and no watermark |
| VelocityOperator.VelocityProcessFunction.ProcessElement | pipelines/processing/operators/velocity.py:72-140 | rejects exactly the events beyond the lateness and changes nothing then; otherwise extends the log and, with safe lateness, answers as a scan of it |
| VelocityOperator.VelocityProcessFunction.OnTimer | pipelines/processing/operators/velocity.py:142-148 | removes exactly the buckets below the timer's cutoff |
| VelocityOperator.VelocityProcessFunction.AdvanceWatermark | pipelines/processing/operators/velocity.py:128-148 | firing the due timers one by one, in any order, is the advance step, and settles the state |
| VelocityOperator.VelocityProcessFunction.ProcessElementPure | pipelines/processing/operators/velocity.py:150-158 | answers as a scan of everything it was ever given |
| Dedup.AbsorbsRedeliveriesExactly | pipelines/processing/operators/enricher.py:97-120 | with a clock that never decreases, the output is the first-occurrence subsequence if and only if every redelivery comes within the time-to-live |
| Dedup.LateRedeliveryLeaks | pipelines/processing/operators/enricher.py:100-120 | a redelivery after the time-to-live lets some duplicate through |
| Dedup.FirstOccurrencesAreDistinct | pipelines/processing/operators/enricher.py:107-120 | the first-occurrence subsequence has pairwise distinct ids |
| Dedup.TransactionDedup.constructor | pipelines/processing/operators/enricher.py:93-105 | a new operator has seen nothing |
| Dedup.TransactionDedup.ProcessElement | pipelines/processing/operators/enricher.py:107-120 | emits every new id, and within the time-to-live emits first occurrences only |
| Dedup.TransactionDedup.ProcessElementPure | pipelines/processing/operators/enricher.py:122-127 | returns true exactly on the first call with an id |
| Device.ProfileSummarisesLive | pipelines/processing/operators/device.py:77-99 | in every reachable state the profile is the count, first time, last time and last country of the events since the last clear |
| Device.EmittedFields | pipelines/processing/operators/device.py:77-112 | the emitted count and first time are those since the last clear, the previous fields are the preceding event's, and the record is new exactly on the first |
| Device.ActiveWithinAWeekIsKept | pipelines/processing/operators/device.py:100-115 | no clear while all the device's events are within seven days of the watermark |
| Device.TimersAreAwaited | pipelines/processing/operators/device.py:100-115 | the pending timers are exactly the idle deadlines that no effective advance has reached since their arrival |
| Device.ClearsExactly | pipelines/processing/operators/device.py:100-115 | in every run an effective advance clears if and only if it reaches such a deadline |
| Device.IdleDeviceIsForgotten | pipelines/processing/operators/device.py:114-115 | an advance to seven days past every event leaves no profile and no timer |
| Device.ActiveDeviceCanBeCleared | pipelines/processing/operators/device.py:114-115 | a concrete device seen one millisecond before the watermark is cleared |
| Device.DeviceProcessFunction.constructor | pipelines/processing/operators/device.py:51-66 | a new operator has no profile |
| Device.DeviceProcessFunction.ProcessElement | pipelines/processing/operators/device.py:68-112 | a missing or empty key gives null fields and changes nothing; otherwise the fields describe the live log before and after the event |
| Device.DeviceProcessFunction.OnTimer | pipelines/processing/operators/device.py:114-115 | clears whatever the timestamp |
| Device.DeviceProcessFunction.AdvanceWatermark | pipelines/processing/operators/device.py:100-115 | firing the due timers one by one clears the profile exactly when one was due |
| Assembly.ReadBack | pipelines/processing/operators/enricher.py:170-219 | for every key, whether an assembled record has it and with which value: the window of each velocity field, novelty as a count of one, every other field from its own source |
| Assembly.AssembleIsAssembled | pipelines/processing/operators/enricher.py:170-219 | every assembled record has numeric velocity and amount fields and lacks the daily device count and the current-time key |
| Assembly.ImpossibleTravelNeverMatches | pipelines/scoring/rules/families/impossible_travel.py:29-31 | no impossible-travel rule matches or raises on an assembled record |
| Assembly.RapidNewDeviceNeverMatches | pipelines/scoring/rules/families/new_device.py:46-57 | no rapid new-device rule matches or raises on an assembled record |
| Assembly.WellTypedNeverRaises | pipelines/scoring/rules/families/velocity.py:16-30 | a rule with numeric thresholds over velocity or amount fields never raises on an assembled record |
| Assembly.WellTypedRulesDoNotInterfere | pipelines/scoring/rules/evaluator.py:57-89 | well-typed rule sets never raise on assembled records, and their shadow rules never change the judgement |
| Assembly.ShippedRulesAreSafe | rules/rules.yaml:5-97 | the same for the shipped rules in any combination of modes |
| Assembly.EvaluateIsMonotone | pipelines/scoring/rules/families/velocity.py:16-30 | larger velocity fields never undo a match and never change whether a rule raises |
| Assembly.JudgeIsMonotone | pipelines/scoring/job_extension.py:182-200 | larger velocity fields never lower the decision or the score |
| Assembly.RaisingShadowRuleInterferes | pipelines/scoring/job_extension.py:55-75 | on every assembled record with a country and more than five transactions in the minute window, a count rule over the country in shadow mode turns the BLOCK of the first shipped rule into ALLOW |
| Assembly.DecisionsAreMonotoneInHistory | pipelines/scoring/job_extension.py:182-200 | with lateness up to 41 s a larger account history with non-negative amounts never lowers the decision or score of the same next transaction, through eviction, assembly, rules and mapping |
| Assembly.MonotonicityIsExact | pipelines/processing/operators/velocity.py:33-36 | the same for all histories, transactions and rules if and only if the lateness is at most 41 s |
| Pipeline.WatermarksAgree | pipelines/processing/job.py:177-198 | every key of the velocity and device operators sees the network's watermark |
| Pipeline.AcceptedLogsAgree | pipelines/processing/job.py:177-187 | an account's accepted transactions in the network are the accepted log of its single-key run |
| Pipeline.AcceptedTxnsAreDistinct | pipelines/processing/job.py:177-187 | within the time-to-live the accepted transactions of an account have pairwise distinct ids |
| Pipeline.WindowsAreTallies | pipelines/processing/operators/velocity.py:118-126 | a forwarded delivery's windows are tallies of the account's accepted transactions |
| Pipeline.CountsAreDistinctIds | pipelines/processing/job.py:177-187 | with lateness up to 41 s each count equals the number of distinct accepted ids of the account in the window's buckets, however often each was delivered |
| Pipeline.IdCountsAreExact | pipelines/processing/job.py:177-187 | the same for every trace with redeliveries within the time-to-live if and only if the lateness is at most 41 s |
| Pipeline.NetworkDecisionsAreMonotone | pipelines/processing/job.py:177-201 | of two network traces, the one that accepted more of the account never leads to a lower verdict on the same forwarded transaction with the same device fields |
| Verdicts.VelocityFieldsMeaning | pipelines/processing/operators/enricher.py:194-201 | on every record of the network, each velocity field is the number or the sum of the distinct transactions accepted for the account in its own minute and the 1, 5, 60 or 1440 before |
| Verdicts.DeviceFieldsMeaning | pipelines/processing/operators/enricher.py:206-213 | on every record of the network, the device fields are those of the live events of its key, and it is new exactly when there is a key and none is live |
| Verdicts.AmountFieldsMeaning | pipelines/processing/operators/enricher.py:177-214 | both amount fields are the transaction's amount |
| Verdicts.ShippedRulesMeaning | rules/rules.yaml:5-97 | exactly when each shipped rule matches what the network assembles, in counts, sums, novelty and network class |
| Verdicts.ShippedDecision | pipelines/scoring/job_extension.py:182-200 | exactly when the shipped rules BLOCK, FLAG and ALLOW a transaction of the network, with score and alert severity |
| Pipeline.NewDeviceIsFlaggedExactly | pipelines/processing/operators/enricher.py:208-213 | a forwarded delivery is flagged as from a new device exactly when no event of its key is live |
| Pipeline.KnownFraudNeverMatches | pipelines/processing/operators/device.py:83-99 | no known-fraud rule matches or raises on a record that the network assembles |
| EnrichmentJob.Job.constructor | pipelines/processing/job.py:177-201 | a new job has no keyed state |
| EnrichmentJob.Job.Process | pipelines/processing/job.py:177-201 | a delivery comes out enriched exactly when it is unique and not late, with the fields of its own account's and key's runs, and every other key is untouched |
| EnrichmentJob.Job.Pass | pipelines/processing/job.py:172-201 | each operator that the delivery reaches updates the entry of the delivery's own key and no other |
| EnrichmentJob.Job.StoreAndCount | pipelines/processing/operators/velocity.py:118-129 | the account's entry takes the arrival step and no other entry changes |
| EnrichmentJob.Job.UpdateProfile | pipelines/processing/operators/device.py:73-112 | the key's entry takes the arrival step and no other entry changes |
| EnrichmentJob.Job.AdvanceWatermark | pipelines/processing/operators/velocity.py:142-148 | an advance is the advance step of every key of both operators |
| Rules.ValidIdMeaning | pipelines/scoring/rules/models.py:127-139 | the accepted ids are those of the pattern, a final newline let through |
| Rules.ValidIdIsUntagged | pipelines/scoring/rules/models.py:127-139 | no id that matches the pattern ends in the shadow suffix |
| Rules.TaggedMeaning | pipelines/scoring/rules/evaluator.py:86-87 | a name counts as tagged exactly when it is some name followed by ":shadow" |
| RuleMeaning.ComparisonMeaning | pipelines/scoring/rules/families/velocity.py:16-30 | numbers compare as numbers, strings in dictionary order, booleans as 0 and 1, and anything else raises |
| RuleMeaning.TextOrder | pipelines/scoring/rules/families/velocity.py:24-25 | the string comparison is the dictionary order |
| RuleMeaning.VelocityMeaning | pipelines/scoring/rules/families/velocity.py:16-30 | a velocity rule matches when its field is strictly above its count, or else its amount, and raises exactly when the two cannot be compared |
| RuleMeaning.ImpossibleTravelMeaning | pipelines/scoring/rules/families/impossible_travel.py:22-40 | it matches two known visits in different countries at most the window apart in either direction, and nothing when one is unknown |
| RuleMeaning.HighAmountMeaning | pipelines/scoring/rules/families/new_device.py:35-43 | a new device and an amount strictly above the threshold |
| RuleMeaning.RapidMeaning | pipelines/scoring/rules/families/new_device.py:46-57 | a new device with at least the daily device count and at least the velocity count, the second threshold read only when the first is reached |
| RuleMeaning.NetworkMeaning | pipelines/scoring/rules/families/new_device.py:65-73 | a new device from the named network class |
| RuleMeaning.KnownFraudMeaning | pipelines/scoring/rules/families/new_device.py:60-62 | the device flag is true itself, not just a value that reads as true |
| Evaluator.Highest | pipelines/scoring/rules/evaluator.py:89 | none for no hit, and otherwise a severity of some hit that no hit exceeds |
| Evaluator.HitsOfMembers | pipelines/scoring/rules/evaluator.py:61-84 | the collected rules of a mode are exactly the enabled matching ones |
| Evaluator.HitsOfAppend | pipelines/scoring/rules/evaluator.py:61-84 | the collected rules of two lists in turn are those of the first, then those of the second |
| Evaluator.DisabledRulesAreInert | pipelines/scoring/rules/evaluator.py:39-40 | disabled rules neither match nor raise |
| Evaluator.Dispatch | pipelines/scoring/rules/evaluator.py:42-120 | the result lists active matches then tagged shadow matches, with the highest active severity, unless an enabled rule raises |
| Evaluator.CollectMatches | pipelines/scoring/rules/evaluator.py:57-84 | the loop completes exactly when no rule raises, and separates the matches by mode |
| Evaluator.SelectEnabled | pipelines/scoring/rules/evaluator.py:39-40 | keeps the enabled rules in order |
| Evaluator.MaxSeverity | pipelines/scoring/rules/evaluator.py:89 | the maximum of the collected severities is the highest of their rules |
| Evaluator.ShadowDispatch | pipelines/scoring/rules/evaluator.py:153-205 | evaluates exactly the enabled shadow rules |
| Evaluator.BridgeFlags | pipelines/processing/kafka_metrics_bridge.py:112-121 | counts exactly the untagged names, in order |
| Evaluator.TaggingIsInvertibleExactly | pipelines/scoring/rules/evaluator.py:86-87 | dropping tagged names recovers the active matches if and only if no active match already looks tagged |
| Evaluator.ReadingIsPointwise | pipelines/processing/kafka_metrics_bridge.py:112-121 | reading the list adds each untagged name, and each tagged one without its suffix, in order |
| Evaluator.MatchedNames | pipelines/scoring/rules/evaluator.py:86-87 | the list is the active matches' ids, then the shadow matches' ids with ":shadow", each in rule order |
| Evaluator.TaggingSplits | pipelines/scoring/rules/evaluator.py:86-87 | with valid ids the tagged list splits into the active matches and the shadow evaluator's matches, in order |
| Decisions.EvaluateTransaction | pipelines/scoring/job_extension.py:35-75 | alert and decision agree with the judgement and carry the transaction's own ids, names and time; a raising evaluation gives ALLOW, score 0, no alert and no triggers |
| Decisions.JudgeMeaning | pipelines/scoring/job_extension.py:172-217 | BLOCK, FLAG and ALLOW, the score and the alert severity in terms of which active rules fire |
| Decisions.JudgeByFiring | pipelines/scoring/job_extension.py:172-217 | the whole judgement from the severities at which an active rule fires |
| Decisions.RuleOrderIsIrrelevant | pipelines/scoring/rules/evaluator.py:61-89 | permuting the rules changes neither decision, score and alert severity nor which names are matched how often, only the order of the names |
| Decisions.NonInterferenceIsExact | pipelines/scoring/rules/evaluator.py:57-89 | shadow rules leave decision, score and alert alone if and only if it is not so that one raises, no active rule raises and an active rule matches |
| Decisions.ShadowRulesDoNotInterfere | pipelines/scoring/rules/evaluator.py:57-89 | adding, removing, editing or permuting shadow rules that do not raise changes neither decision, score and alert severity nor the active matches; tagged names may change |
| Decisions.DemotionNeverRaises | pipelines/scoring/rules/evaluator.py:76-84 | demoting any rule never raises the decision or the score |
| IcebergSink.Deduplicate | pipelines/shared/iceberg_sink_base.py:165-174 | the loop computes the first-wins deduplication |
| IcebergSink.FirstsMeaning | pipelines/shared/iceberg_sink_base.py:165-174 | the kept positions are increasing and are exactly the first occurrences of each id |
| IcebergSink.DedupKeepsFirsts | pipelines/shared/iceberg_sink_base.py:165-174 | deduplication keeps exactly the records at those positions, in order |
| IcebergSink.DedupIsFirstWins | pipelines/shared/iceberg_sink_base.py:165-174 | what is kept are the first records of each transaction id, a missing one reading as empty, in order |
| IcebergSink.DedupKeysAreDistinct | pipelines/shared/iceberg_sink_base.py:165-174 | the kept ids are pairwise distinct |
| IcebergSink.FlushConserves | pipelines/shared/iceberg_sink_base.py:118-163 | a flush moves the buffer into one reported batch and loses nothing, whatever the write does |
| IcebergSink.TriggersAreExact | pipelines/shared/iceberg_sink_base.py:94-125 | exactly when an invocation flushes, by time and by size, what each flush takes, and when the second starts anew |
| IcebergSink.InvokeConserves | pipelines/shared/iceberg_sink_base.py:94-125 | after an invocation, whatever each clock reading and each write gave, the records are the flushed batches followed by the buffer, each batch reported once |
| IcebergSink.PendingMakesShapedBatch | pipelines/shared/iceberg_sink_base.py:97-99 | records that share a batch arrived less than a second apart, plus the lag of the flush's clock reading if there is one |
| IcebergSink.FlushKeepsShape | pipelines/shared/iceberg_sink_base.py:118-163 | batches stay within the buffer size, and the overflow hook fires exactly on size-triggered flushes |
| IcebergSink.InvokeKeepsShape | pipelines/shared/iceberg_sink_base.py:94-125 | with a clock that never runs backwards, the buffer is below its size between calls and every batch keeps its shape, for any bound on the lag |
| IcebergSink.LagStretchesABatch | pipelines/shared/iceberg_sink_base.py:124 | for any positive lag and room for two records a concrete run from a new sink puts records a second or more apart into one batch |
| IcebergSink.ShortBatchesAreExact | pipelines/shared/iceberg_sink_base.py:97-125 | in every run with that bound on the lag, the records of every batch arrived less than a second apart if and only if the bound is zero or the buffer holds one record |
| IcebergSink.RunIsReported | pipelines/shared/iceberg_sink_base.py:118-163 | over every run each batch is reported as no table, success or dead letter exactly as its table and the end of its own write demand, with the reason of each error |
| IcebergSink.FailuresAreDeadLetters | pipelines/shared/iceberg_sink_base.py:146-156 | if all writes of a run end in one error, every batch is a dead letter with that error's reason |
| IcebergSink.CloseLeavesNothing | pipelines/shared/iceberg_sink_base.py:114-116 | after close every record is in a reported batch |
| IcebergSink.BatchesConserveRecords | pipelines/shared/iceberg_sink_base.py:118-186 | records flushed = rows appended + rows reported + rows discarded + duplicates dropped |
| IcebergSink.SinkConservation | pipelines/shared/iceberg_sink_base.py:94-186 | in every valid state, records invoked = those four + records buffered |
| IcebergSink.Sink.constructor | pipelines/shared/iceberg_sink_base.py:55-72 | a new sink is empty and in shape |
| IcebergSink.Sink.Open | pipelines/shared/iceberg_sink_base.py:74-86 | loading the table changes nothing else |
| IcebergSink.Sink.WriteBatch | pipelines/shared/iceberg_sink_base.py:126-153 | success, dead letter or no table as the table and the write demand, with the catalog hook exactly on unavailable catalogs |
| IcebergSink.Sink.Flush | pipelines/shared/iceberg_sink_base.py:118-163 | a non-empty buffer gets exactly one report and is always cleared; an empty one changes nothing |
| IcebergSink.Sink.Invoke | pipelines/shared/iceberg_sink_base.py:94-125 | appends one record with both triggers in order and a clock reading for each flush, keeping conservation and shape |
| IcebergSink.Sink.Close | pipelines/shared/iceberg_sink_base.py:114-116 | empties the buffer into the batches |
| ResultSink.StepConserves | pipelines/replay/result_sink.py:98-208 | every atomic step of every thread conserves each result on both ways |
| ResultSink.StepKeepsInv | pipelines/replay/result_sink.py:191-297 | every step keeps the relations between the closing phases, the queue, the buffer, the table and the producer |
| ResultSink.EveryInterleavingConserves | pipelines/replay/result_sink.py:98-208 | under every interleaving sent = buffer + in flight + written, and accepted = queue + held + handed over + dropped |
| ResultSinkClose.CloseHandsOverExactly | pipelines/replay/result_sink.py:269-297 | after a close with no later sends each result was handed to Kafka or dropped exactly once; all were handed over if and only if no thread held a result when the producer was released, and the dropped ones are as many as those threads |
| ResultSinkClose.SoleCallerHandsOverEverything | pipelines/replay/result_sink.py:269-297 | with a sole caller of flush, in every interleaving of senders, background flusher and closing thread, each result has gone to Kafka exactly once after a close with no later sends, and none was dropped |
| ResultSinkClose.HandOverIsExact | pipelines/replay/result_sink.py:269-297 | with a producer, every such close hands everything over if and only if nobody sends or there is a sole caller of flush |
| ResultSinkClose.StrandedExactly | pipelines/replay/result_sink.py:202-208 | a batch stays put back if and only if some step put it back after the closing thread took the buffer and no later step took the buffer |
| ResultSinkClose.CloseWritesExactly | pipelines/replay/result_sink.py:191-208 | after such a close, with no batch in flight, all results were written exactly once if and only if there were none, or a table is set and no step of the schedule put a batch back late and left it there |
| ResultSinkClose.LateFailureStrandsABatch | pipelines/replay/result_sink.py:202-208 | for any sink with a table, a producer, a sender and two callers of flush, an interleaving in which close joins the thread and a result stays unwritten |
| ResultSinkClose.ReleaseDropsAResult | pipelines/replay/result_sink.py:139-140 | for any sink with a producer, a sender and two callers of flush, an interleaving in which close writes everything that a table takes and the other caller drops its result |
| ResultSinkOrder.EnabledExactly | pipelines/replay/result_sink.py:88-131 | every step can take place exactly when its thread is there and what it waits for has happened; a put times out only on a full queue |
| ResultSinkOrder.QueueStaysBounded | pipelines/replay/result_sink.py:59 | in every interleaving the queue stays within its size |
| ResultSinkOrder.HandsOverInPutOrder | pipelines/replay/result_sink.py:113-131 | with a sole caller of flush and puts that do not time out, after a close with no later sends Kafka has the results in the order of their puts |
| ResultSinkOrder.HandsOverInSendOrder | pipelines/replay/result_sink.py:98-117 | with moreover a sole sender, in the order in which they were sent |
| ResultSinkOrder.WritesInSendOrder | pipelines/replay/result_sink.py:191-208 | when no write raises and batches do not overlap, after such a close the table has the rows in sending order |
| ResultSinkOrder.RetryReorders | pipelines/replay/result_sink.py:204-208 | for any sink with a table, an interleaving in which a batch whose write raised is written after a later result |
| AlertQueue.StopAndRestart | analytics/consumers/kafka_consumer.py:112-122 | a stopped consumer ends at its next poll and not before, and a later start spawns one and clears the stop |
| AlertQueue.PutWithRoom | analytics/consumers/kafka_consumer.py:189-194 | with room the alert goes straight to the end of the queue, and only a full queue makes the consumer drop |
| AlertQueue.ReaderTakesOldest | analytics/consumers/kafka_consumer.py:103 | a reader takes the oldest entry and touches nothing else |
| AlertQueue.StepKeepsInv | analytics/consumers/kafka_consumer.py:182-199 | every step keeps removed + queue + in hand = delivered, nothing lost, and the size bound |
| AlertQueue.SerialStartsLoseNothing | analytics/consumers/kafka_consumer.py:112-122 | the same in every reachable state when starts do not race, for any readers, stops and restarts |
| AlertQueue.NewestIsEnqueued | analytics/consumers/kafka_consumer.py:190-199 | an alert leaves the consumer's hand only into the queue, at its end |
| AlertQueue.RacingStartsCanLose | analytics/consumers/kafka_consumer.py:112-118 | with racing starts a run at any positive size loses the newest alert |
| AlertQueue.LossIsExact | analytics/consumers/kafka_consumer.py:103-118 | no schedule loses an alert if and only if starts cannot race or the queue is unbounded |
| Replay.IterEvents | pipelines/replay/source_adapters.py:291-350 | the generator yields the in-range prefix of the messages, and raises exactly when there is no consumer, the watermark query fails on an open end, or a reached poll raises |
| Replay.PollsMeaning | pipelines/replay/source_adapters.py:309-325 | delivered are the leading messages before the end, and the iteration raises exactly when the next poll does |
| Replay.ConsumerMeaning | pipelines/replay/source_adapters.py:297-307 | without a consumer the iteration raises, and a failed watermark query matters to an open end only |
| Replay.YieldedIsInRange | pipelines/replay/source_adapters.py:309-325 | with messages in order the yielded offsets increase strictly within the range, the end left out |
| Replay.EventCountBoundsExactly | pipelines/replay/source_adapters.py:269-325 | the count bounds the events of every message order if and only if the iteration's end is not beyond the counted one, or the iteration fails before its loop |
| Replay.CountIsAttained | pipelines/replay/source_adapters.py:269-289 | for every range that can be iterated, the count is reached when all its messages come |
| Replay.FixedEndNeverExceeds | pipelines/replay/source_adapters.py:275-289 | a fixed end is always bounded by its count |
| Replay.Job.constructor | pipelines/replay/replay_job.py:65-73 | a new job is pending |
| Replay.Job.Cancel | pipelines/replay/replay_job.py:320-323 | requests cancellation and nothing else |
| Replay.Job.Start | pipelines/replay/replay_job.py:98-132 | a pending job reaches exactly one terminal status, a running or finished one refuses and nothing changes; which status, and the final counters of each, for every source |
| Replay.Job.RunReplay | pipelines/replay/replay_job.py:153-203 | how the run ends, and the counters it publishes in each case |
| Replay.Job.ConsumeEvents | pipelines/replay/replay_job.py:161-196 | after every event processed <= stored <= processed + failed = consumed, the published count is the last multiple of one hundred, and the loop stops at the first cancelled event |
| Replay.Job.HandleEvent | pipelines/replay/replay_job.py:170-196 | a result is stored before anything that may still fail the event |
| Replay.ProgressIsExact | pipelines/replay/models.py:198-203 | over every message order and every way the events go, progress stays within one whenever it is read if and only if nothing was counted or the count bounds the events |
| Replay.ReplayKafka | pipelines/replay/replay_job.py:153-203 | a replay over any range ends as its source says; over a fixed range, or one that the count covers, handled events never exceed the total and progress stays within one, whenever it is read |
| Replay.ReplayEverything | pipelines/replay/models.py:198-203 | a run over all messages that is not cancelled and scores every event completes with every event processed, at progress one |
| Replay.ReplayGrowingTopic | pipelines/replay/source_adapters.py:269-307 | a run that counts one event and iterates over two completes with progress above one |
| RuleStore.LoadMeaning | pipelines/scoring/management_api.py:280-284 | loading keeps, for every id of the listing, the last rule with it |
| RuleStore.LoadOrder | pipelines/scoring/management_api.py:280-284 | a new id goes last, a known one keeps its place and takes the new rule |
| RuleStore.LoadInvertsDump | pipelines/scoring/management_api.py:264-296 | what was dumped loads back as it was |
| RuleStore.ResponseMeaning | pipelines/scoring/management_api.py:383-405 | not found for an unknown id, conflict in the wanted mode already, otherwise both modes or a server error by how the write ends |
| RuleStore.StepSyncExactly | pipelines/scoring/management_api.py:382-405 | after a request disk and memory agree if and only if it reached a write that succeeded, or they agreed before and it reached no write that tears |
| RuleStore.RunSyncExactly | pipelines/scoring/management_api.py:382-478 | over every run, reloading gives the rules in memory if and only if every write that tore was followed by one that succeeded |
| RuleStore.AtomicWritesStayInSync | pipelines/scoring/management_api.py:287-296 | with all-or-nothing writes the file never goes stale |
| RuleStore.LatePermissionErrorDiverges | pipelines/scoring/management_api.py:291-296 | an error after the dump leaves the file and the memory with different modes |
| RuleStore.OnlyTheNamedModeChanges | pipelines/scoring/management_api.py:383-405 | a request changes at most the named rule's mode |
| RuleStore.SuccessesAlternate | pipelines/scoring/management_api.py:389-397 | consecutive successes on one rule are a demotion and a promotion |
| RuleStore.Api.constructor | pipelines/scoring/management_api.py:264-284 | starts from the loaded file |
| RuleStore.Api.ChangeMode | pipelines/scoring/management_api.py:382-478 | answers and updates as the request handler, with in-memory rollback on a failed write |
| Luhn.LuhnValid | pipelines/ingestion/shared/pii_masker/validators.py:10-21 | the loop decides whether the weighted digit sum is a multiple of ten |
| Luhn.LuhnComplete | scripts/generate_transactions.py:86-98 | the completed string is valid, at every length |
| Luhn.WeightIsDigitSum | pipelines/ingestion/shared/pii_masker/validators.py:15-19 | a doubled digit contributes the sum of the decimal digits of its double |
| Luhn.TwoDigits | pipelines/ingestion/shared/pii_masker/validators.py:10-21 | of two digits the first is doubled and the second is not |
| Luhn.ZerosAreValid | pipelines/ingestion/shared/pii_masker/validators.py:10-21 | strings of zeros are valid at every length |
| Luhn.CheckDigitIsUnique | scripts/generate_transactions.py:97-98 | exactly one check digit makes a string valid |
| Luhn.SingleErrorIsDetected | pipelines/ingestion/shared/pii_masker/validators.py:10-21 | changing one digit of a valid string makes it invalid |
| Luhn.AdjacentSwapDetectedExactly | pipelines/ingestion/shared/pii_masker/validators.py:10-21 | swapping adjacent digits goes unnoticed if and only if they are equal or 0 and 9 |
| Luhn.StrippedMeaning | pipelines/ingestion/shared/pii_masker/validators.py:33 | separators, and nothing else, are taken out, in order |
| Luhn.ExtractPanParts | pipelines/ingestion/shared/pii_masker/validators.py:24-44 | each error exactly under its condition, otherwise the first six and last four digits |
| AmountCodec.LengthSuffices | pipelines/ingestion/api/producer.py:147 | the computed length always suffices |
| AmountCodec.LengthIsMinimalExactly | pipelines/ingestion/api/producer.py:147 | it is the least length if and only if the amount is not a negative byte boundary |
| AmountCodec.LengthIsMinimalForAccepted | pipelines/ingestion/api/producer.py:86-88 | for amounts that are not negative, as all accepted ones are, it is the least length |
| AmountCodec.BoundaryIsOneLonger | pipelines/ingestion/api/producer.py:147 | at a negative byte boundary it is one byte longer than needed |
| AmountCodec.DecodeInvertsEncode | pipelines/ingestion/api/producer.py:148 | decoding inverts encoding at every length that fits |
| AmountCodec.AmountRoundTrip | pipelines/ingestion/api/producer.py:143-148 | every integer amount is encoded and decodes to itself |
| AmountCodec.AmountBytes | pipelines/ingestion/api/producer.py:148 | the bytes of an amount that is not negative are its digits to base 256, most significant first |
| AmountCodec.EighteenDigitsFitEightBytes | pipelines/processing/shared/avro_serde.py:25-28 | an amount of at most eighteen digits takes at most eight bytes |

## Left out

- The 14-day processing-time expiry of the velocity and device state: modelled as never happening.
- Decimal context rounding, 64-bit wrap-around of timestamps and timers, and floating-point rounding of amounts before encoding: amounts and times are unbounded integers.
- Checkpoints, parallel operator instances and watermarks that differ between them: each operator's theorems hold for every watermark sequence, and the network shares one.
- ResultSink.EveryInterleavingConserves: the threads are modelled as steps over values rather than as objects updated in place; serialisation, the producer's own flush and its exceptions, and a second call of `close` are not modelled; a `produce` that raises counts as handed over.
- AlertQueue.SerialStartsLoseNothing: likewise steps over values; deserialisation failures and reconnects, which never touch the queue, are not modelled.
- IcebergSink.Sink.Flush: speaks of the reported outcome; a timed-out append may still complete in the table. Hooks are assumed not to raise, and records to be dictionaries.
- Rule conditions whose field name is not a string, NaN and infinite thresholds, and the decimal library's reading of threshold text, which enters as readable or not.
- Rule ids in requests, authentication, rate limits, tracing, metrics and logging around the modelled handlers.
- RuleStore.LoadInvertsDump: the YAML and JSON encodings of a single rule are taken to round-trip.
- RuleStore.Api.ChangeMode: writes fail as operating-system errors only. Any other exception, such as a rule that cannot be serialised, would skip the rollback and leave the new mode in memory.
- Malformed rule files at startup, which abort the service.
- Luhn.ExtractPanParts: characters enter as digits, separators or strays; Unicode digits outside 0-9 are not modelled.
- Replay sources other than Kafka, the summary statistics, and the content of a replay result beyond its event id.
- Kafka, Flink, Iceberg, Feast, PostgreSQL, DuckDB and the circuit-breaker library: their outcomes are parameters.
- Geolocation, IP truncation, dashboards, schema scripts, and Arrow or Avro schema tables.
