# brain-eval, modelled and verified in Dafny

brain-eval is a client-side benchmarking rig: it ingests conversations into a memory server, reads them
back with questions, and scores what comes back. This project models the parts of it that have guarantees
of their own, and proves them for all inputs, all runs and all schedules:

- **The evaluation run** (`RunPlan`, `Pool`, `PoolRuns`, `Scheduler`, `Runner`, `RunSchedule`,
  `ReportOrder`, `ReportContent`, `EvalRun`, `SpaceManifest`, `KeyOrder`). Grouping, serial minting, bounded-concurrent ingest
  and read-back and their merges. The pool is a state machine that starts an item when fewer than the given
  number are in flight or finishes any item that is; the report is shown not to depend on its choices, and its
  order and every line of it are given exactly.
- **Dates** (`Gregorian`, `Calendar`, `LocomoDate`, `Text`). The closed-form day count against a day-by-day
  walk of the proleptic Gregorian calendar (the leap rule of Appendix C of RFC 3339), and the prose date
  parser with 64-bit arithmetic.
- **Ranking metrics** (`Ranking`, `Retrieval`). DCG, nDCG, MRR and recall as rearrangement inequalities. The
  discount is a parameter: positive, strictly decreasing and 1 at position 0.
- **Statistics** (`SplitMix`, `Bootstrap`, `MetaJudge`, `Throughput`). The generator on 64-bit words, the
  bootstrap interval, Cohen's kappa and nearest-rank percentiles.
- **The write-drain barrier** (`Metrics`, `Drain`, `DrainRules`). A poll loop over an arbitrary history of scrapes, parsed
  from the Prometheus text format, with two exit rules and a cap.
- **Scoring** (`Verdicts`, `Judge`, `Synthesis`, `Scoring`). The heuristic judge, answer synthesis, their
  composition with recall, and the conservation laws of the aggregates.
- **Corpus pin and UTF-8 cut** (`Pin`, `PinFields`, `Utf8Cut`). The XOR fold over digests, what a digest covers,
  and truncation on a character boundary of UTF-8 as section 3 of RFC 3629 defines it.

`Sorting`, `Tallies`, `Reals`, `Words` and `Wrappers` hold what the others share. `dafny verify dfyconfig.toml` checks
everything.

Loops of the source are methods with loops, proved against functions; objects it mutates are classes, and its
buffers are arrays. `f64` is modelled by `real` throughout, so rounding, NaN and infinities are outside the
model; constants such as `f64::EPSILON` keep their exact values. Counters are unbounded where the source would
need more than 2^64 events to overflow them; casts and wrap-around are written out where they matter (dates,
the generator, the barrier's counters). The server, the admin plane, the clock, SHA-256, number parsing,
Unicode lowering and random ids are parameters that may behave in any way; where a result needs something of
them it is in the `requires`.

Where the code and its comments disagree, the model follows the code:

- `days_from_civil` is documented as valid for any date; it is exact only while the count fits 64 bits
  (`LocomoDate.MachineCountExact`), and beyond that a date can be accepted with a wrong time
  (`LocomoDate.WrappedYearIsAccepted`; `LocomoDate.ReadAsMeantExactly` says which).
- `cohens_kappa` compares with `EPSILON`, so "1.0 is perfect agreement" holds up to 2^52 pairs and no further
  (`MetaJudge.PerfectMeansAgreementUpTo`), and the `0.0` arm can be reached, first at 2^53 - 1 pairs
  (`MetaJudge.ZeroArmUnreachableUpTo`).
- `recall@K` of the report is described as a fraction of relevant memories; it counts questions with a hit
  (`Retrieval.RecallIsFractionExactly`).
- The recall probe's recall@K counts a hit anywhere in the returned list, which the server was asked to cut
  (`Retrieval.FoundIsRecallExactly`).
- The probe's comment supposes one relevant memory a query; with several, its nDCG can be below recall@1
  (`Retrieval.FirstWithinQualityExactly`).
- The public `ndcg_at_k` exceeds 1 when more of the top k is marked than there are relevant ids
  (`Retrieval.NdcgAtKBoundedExactly`).
- Accuracy is over graded questions, a dimension over all of its own (`Scoring.UngradedWeighOnDimensions`).
- `bootstrap_ci_with` says `0 < level < 1`; level 0 is accepted, and gives a point (`Bootstrap.LevelZeroIsMedian`).
- The pin's comment says a corpus with a duplicated pair is not told apart; the pin is blind to everything but
  the count and which hashed texts are odd in number (`Pin.BlindExactly`). The separators are a second blind spot:
  `PinFields.DeterminedExactly` says what the hashed bytes determine.
- `truncate` promises at most `max` bytes; the ellipsis comes on top of them (`Utf8Cut.TruncateOverruns`;
  `Utf8Cut.FitsExactly` says when the promise holds).
- Phase-1 failures are promised the place the benchmark gave them; they come before all other results, by
  conversation key. `ReportOrder.FullRunOrderExactly` says which reports are in instance order, and
  `ReportOrder.OutOfInstanceOrder` gives one that is not.

## Model

| member | source | states |
|---|---|---|
| `PoolRuns.RunKeeps` | src/bench/runner.rs:472-475 | over every run of the bounded pool: never more than `concurrency` groups in flight, no group lost or duplicated, each step uses up one unit of work |
| `PoolRuns.CanProgress` | src/bench/runner.rs:472-475 | no deadlock: with at least one slot an unfinished run can always take a step |
| `PoolRuns.DrainedRun` | src/bench/runner.rs:472-475 | every run ends after exactly two steps a group, with every outcome collected exactly once |
| `PoolRuns.OneSlotIsSequential` | src/bench/runner.rs:472-475 | with one slot the outcomes come in the order the groups were given |
| `Scheduler.Collect` | src/bench/runner.rs:690-693 | the scheduler loop, free at every choice: the collected outcomes are a rearrangement of all outcomes |
| `RunPlan.GroupInstances` | src/bench/runner.rs:206-213 | the grouping loop builds the map `Groups` describes |
| `RunPlan.GroupsPartition` | src/bench/runner.rs:206-213 | the groups partition the instances: each index is under its own conversation key and no other, in increasing order |
| `RunPlan.GroupsByConversation` | src/bench/runner.rs:206-213 | a group holds the instances with that conversation id and, of those without one, the one with that question id |
| `RunPlan.TokenCache.MintOrCached` | src/bench/runner.rs:1349-1360 | a space already minted costs no admin call; otherwise one call, cached only on success |
| `RunPlan.KeyMinter.Mint` | src/bench/runner.rs:290-299 | one admin-plane call: the counter moves by one and a granted space is recorded |
| `RunPlan.PlanConversations` | src/bench/runner.rs:337-386 | phase 0, conversation by conversation in key order, leaves plan, cache, call count and manifest as `PlanAll` describes |
| `RunPlan.CacheHolds` | src/bench/runner.rs:337-386 | for any admin plane: every planned space has its token in the cache, and no space is minted successfully twice after preflight |
| `RunPlan.GrantedAt` | src/bench/runner.rs:337-386 | when every mint is granted, conversation i of an ingesting run gets the i-th new space id |
| `RunPlan.PlanMintsOneEach` | src/bench/runner.rs:337-386 | an ingesting run whose new ids differ makes one mint a conversation, in key order, and uses exactly what that mint answers |
| `RunPlan.SavedMatchesPlanned` | src/bench/runner.rs:359-367 | what is persisted is exactly the spaces given out, conversation by conversation |
| `RunPlan.ReadOnlyFindsTheSameSpace` | src/bench/runner.rs:338-353 | a read-only run over the persisted manifest gives each recorded conversation the 16-byte space it was ingested under, or no space; an unrecorded one gets none |
| `EvalRun.IncrementalTracker.Record` | src/bench/runner.rs:1304-1330 | the progress counters move by one question and its score |
| `EvalRun.Accumulators.MergeIngest` | src/bench/runner.rs:486-511 | the phase-1 merge: established conversations pass on, the questions of the others are recorded as failed, in the order of the outcomes |
| `EvalRun.Accumulators.RecordFailed` | src/bench/runner.rs:1108-1122 | every question of a lost conversation is recorded once, in both result vectors and in the tracker |
| `EvalRun.Accumulators.MergeReadBack` | src/bench/runner.rs:694-722 | the phase-2 merge: ledger by conversation, questions back in instance order, appended to both result vectors |
| `EvalRun.RunPhases` | src/bench/runner.rs:400-722 | both concurrent phases and both merges give the canonical report, whatever order the conversations finish in |
| `EvalRun.Run` | src/bench/runner.rs:151-722 | a run either stops at the preflight mint, exactly when that mint is refused, or ends with the canonical report and the persisted spaces |
| `RunSchedule.PlanIsReady` | src/bench/runner.rs:337-386 | the plan phase 0 makes is in strict key order, with non-empty disjoint groups, and satisfies the cache invariant |
| `RunSchedule.IngestOrderRestored` | src/bench/runner.rs:477-480 | sorting the phase-1 outcomes by key restores plan order from any completion order |
| `RunSchedule.ReadBackForgetsOrder` | src/bench/runner.rs:694-711 | the read-back merge sees which groups finished, not in which order |
| `RunSchedule.ReportIgnoresSchedule` | src/bench/runner.rs:472-711 | for every ingest schedule and every read-back schedule, at any slot counts, results, records, ledger and counters are the same sequences |
| `RunSchedule.TokenIsCached` | src/bench/runner.rs:569-584 | every conversation that reaches phase 2 has its token cached, so the "no cached data-plane token" branch is unreachable |
| `ReportOrder.ReadsInInstanceOrder` | src/bench/runner.rs:1092-1094 | phase-2 results are in strictly increasing instance order |
| `ReportOrder.WhereAnInstanceLands` | src/bench/runner.rs:486-722 | an instance is reported in the first half exactly when its conversation was not established, and in the second exactly when it was and is answered: always in a full run, in a memory-list run when the read-back did not reach it |
| `ReportOrder.ReportedExactly` | src/bench/runner.rs:151-722 | in any run a question has a line exactly when its conversation failed or is answered, and then one; a full run has one for every instance |
| `ReportOrder.EveryInstanceOnce` | src/bench/runner.rs:151-722 | a full run reports every instance exactly once: first the instances of failed conversations, by conversation key and within one by instance, then all the others in increasing instance order |
| `ReportOrder.InstanceOrderExactly` | src/bench/runner.rs:477-545 | the report of any run is in instance order exactly when every reported instance before one of a failed conversation failed too, in a conversation with no larger key |
| `ReportOrder.FullRunOrderExactly` | src/bench/runner.rs:477-545 | the same over all instances of a full run |
| `ReportOrder.LateFailureComesFirst` | src/bench/runner.rs:477-545 | of two conversations in key order only the second is refused its connection: its question is reported first, whatever the rest of the server does |
| `ReportOrder.OutOfInstanceOrder` | src/bench/runner.rs:477-545 | such a run on conversations a and b: the order is [1, 0] |
| `ReportOrder.LinesFollowOrder` | src/bench/runner.rs:486-722 | line by line, both result vectors name the instance that order gives |
| `ReportContent.LinesAreAnswers` | src/bench/runner.rs:400-722 | every line, in terms of the server: a conversation that was given no space or refused its connection gives failed lines with that reason; one refused again at read-back gives retrieval failures; otherwise the line is what the server answered to that very question, asked with what the ingest of the conversation by its first instance came to, under the question's own id |
| `ReportContent.PlannedConversation` | src/bench/runner.rs:206-386 | each planned conversation holds exactly the instances of one key, its first one first, and is read back with the token minted for it |
| `ReportContent.LineExactly` | src/bench/runner.rs:657-669 | a question has a line unless the run only lists memories and its conversation was reached both times |
| `ReportContent.LedgerExactly` | src/bench/runner.rs:612-710 | the ledger: one entry for each conversation ingested and reached again, with what its ingest came to, in strict conversation order; none in a read-only run |
| `ReportContent.SomethingIngested` | src/bench/runner.rs:481-525 | there is something to wait for at the barrier exactly when some conversation connected |
| `ReportContent.CountersExactly` | src/bench/runner.rs:1304-1330 | the progress counters end at the number of lines and the sum of their scores |
| `KeyOrder.KeysInOrder` | src/bench/runner.rs:206-213 | walking the `BTreeMap` visits its keys once each, in strictly increasing byte order |
| `KeyOrder.KeyOrderIsLexicographic` | src/bench/runner.rs:206-213 | keys are ordered by the first character in which they differ, a proper beginning first |
| `SpaceManifest.HexRoundTrip` | src/bench/space_manifest.rs:89-107 | `unhex16(hex16(b))` is `b` for every 16-byte space id |
| `SpaceManifest.HexTextAt` | src/bench/space_manifest.rs:89-95 | each byte is written as the digit of its upper four bits and then that of its lower four |
| `SpaceManifest.CaseDoesNotMatter` | src/bench/space_manifest.rs:98-107 | upper-case digits read as lower-case ones |
| `SpaceManifest.PlusReadsAsZero` | src/bench/space_manifest.rs:98-107 | a plus sign before a digit reads as a zero |
| `SpaceManifest.ParseThenHex` | src/bench/space_manifest.rs:98-107 | hex to bytes to hex is the identity exactly on lower-case digits: upper case and a leading `+` are read but written back differently |
| `SpaceManifest.ReadButWrittenDifferently` | src/bench/space_manifest.rs:98-107 | two such texts: sixteen times AA, and sixteen times +1 |
| `SpaceManifest.Hex16` | src/bench/space_manifest.rs:89-95 | the buffer loop writes two lower-case digits a byte |
| `SpaceManifest.Unhex16` | src/bench/space_manifest.rs:98-107 | the slot-by-slot loop accepts exactly 32 characters whose pairs all parse |
| `SpaceManifest.Manifest.Record` | src/bench/space_manifest.rs:47-50 | records one conversation and leaves the others as they were |
| `SpaceManifest.Manifest.SpaceFor` | src/bench/space_manifest.rs:54-57 | finds the space recorded for a conversation, if it parses |
| `Calendar.EraIsFloor` | src/bench/datasets/locomo.rs:352 | the truncating division with its correction is the floor of `y / 400` |
| `Calendar.NextCountsOne` | src/bench/datasets/locomo.rs:350-359 | the next calendar day always counts exactly one more |
| `Calendar.CountMatchesCalendar` | src/bench/datasets/locomo.rs:350-359 | the closed form equals the day-by-day proleptic Gregorian count from 1 January 1970, in both directions |
| `Calendar.CountIsMonotone` | src/bench/datasets/locomo.rs:350-359 | later real dates count strictly more |
| `Calendar.CountIsBijective` | src/bench/datasets/locomo.rs:350-359 | the count is a bijection between real dates and integers, with the day-by-day walk as its inverse |
| `Calendar.IntermediateRanges` | src/bench/datasets/locomo.rs:353-357 | `yoe`, `doy` and `doe` stay in the commented ranges for every real date; for day numbers up to 31, exactly off the days of February that do not exist |
| `Calendar.OverflowRollsOver` | src/bench/datasets/locomo.rs:350-359 | a day number past the end of its month counts on into the next months |
| `LocomoDate.MachineCountExact` | src/bench/datasets/locomo.rs:350-359 | with 64-bit wrap-around, the count is the true day count exactly when the true count fits in an i64 |
| `LocomoDate.MachineCountExactBetween` | src/bench/datasets/locomo.rs:350-359 | for real dates that is exactly from 7 June -25252734927764585 to 27 July 25252734927768524 |
| `LocomoDate.AcceptedExactly` | src/bench/datasets/locomo.rs:294-323 | every well-formed text reads as its day count reduced to 64 bits, times 86400 * 10^9, exactly when its day number is in 1..31 and the reduced count in 0..106751, and is refused otherwise |
| `LocomoDate.ReadAsMeantExactly` | src/bench/datasets/locomo.rs:294-323 | a well-formed text reads as the date it stands for exactly when its day number is refused, its true count fits an i64, or its reduced count is refused |
| `LocomoDate.WrappedYearIsAccepted` | src/bench/datasets/locomo.rs:294-323 | the text of 1 January of the year 50505469855535080, which no time can represent, is accepted as day 313 of the epoch |
| `LocomoDate.AcceptedDatesOrdered` | src/bench/datasets/locomo.rs:294-323 | accepted real dates are ordered and at least one day apart |
| `LocomoDate.ClockPrefixIgnored` | src/bench/datasets/locomo.rs:295-299 | `p + " on " + d` parses as `d`, for every prefix `p` and every accepted `d` |
| `LocomoDate.WrittenDateParses` | src/bench/datasets/locomo.rs:300-345 | every real date from 1970 to the last representable day, written with any known month spelling, reads back as its midnight |
| `LocomoDate.MonthNames` | src/bench/datasets/locomo.rs:325-345 | in any case, the months are known exactly by their names, the first three letters of them, and sept |
| `LocomoDate.SpelledDateParses` | src/bench/datasets/locomo.rs:294-345 | so every real date up to the last representable day, with its month in any of those spellings and any commas after it, reads as its day count times 86400000000000 |
| `LocomoDate.AcceptedIsWellFormed` | src/bench/datasets/locomo.rs:294-323 | an accepted text has exactly three tokens: a day in 1..31, a spelling of a month, and a year |
| `LocomoDate.WrittenIs` | src/bench/datasets/locomo.rs:300-312 | a written date is its day, month and year with one space between |
| `Text.SignsParse` | src/bench/datasets/locomo.rs:305-309 | a plus sign before a number changes nothing; a minus sign is refused for a day and negates a year |
| `Text.SpacesExactly` | src/bench/datasets/locomo.rs:305 | white space is the 25 code points of Unicode |
| `Ranking.Rearrangement` | src/blackbox/scale/recall.rs:130-139 | no order of the gains has a larger DCG at k than the descending one, with equality exactly when the two agree above the cut |
| `Ranking.NdcgBounds` | src/blackbox/scale/recall.rs:142-152 | nDCG at k is in [0, 1], and 1 exactly when the ideal is non-zero and the order is ideal above the cut |
| `Ranking.DescendingIsPerfect` | src/blackbox/scale/recall.rs:142-152 | gains already in descending order score 1 unless the ideal is zero |
| `Ranking.SingleHitIsItsDiscount` | src/blackbox/scale/recall.rs:142-152 | with a single hit at rank r, nDCG is the discount at r, and 0 below the cut |
| `Ranking.UnsortedIsImperfect` | src/blackbox/scale/recall.rs:142-152 | a positive gain out of order above the cut keeps nDCG below 1 |
| `Ranking.RunRecallQuality` | src/blackbox/scale/recall.rs:185-223 | the accumulation loop computes the four means over the queries |
| `Ranking.ReciprocalExactly` | src/blackbox/scale/recall.rs:121-126 | a first hit behind r misses is worth exactly the inverse of r + 1, and no hit nothing |
| `Ranking.MrrIsSumOfInverses` | src/blackbox/scale/recall.rs:185-223 | MRR times the number of queries is the sum of those inverses |
| `Ranking.RecallsCount` | src/blackbox/scale/recall.rs:185-223 | recall@1 and recall@K times the number of queries count the queries with a hit in first place and in any |
| `Ranking.ProbeRankBounds` | src/blackbox/scale/recall.rs:185-223 | recall@1 <= MRR <= (recall@1 + recall@K) / 2 <= recall@K <= 1 over any answers |
| `Ranking.ProbeNdcgBounds` | src/blackbox/scale/recall.rs:185-223 | 0 <= mean nDCG <= recall@K; with at most one hit a query also recall@1 <= mean nDCG |
| `Retrieval.FirstWithinQualityExactly` | src/blackbox/scale/recall.rs:142-152 | per query, recall@1 is at most nDCG@K exactly when the first memory is no hit, or K is at least 1 and the top min(K, hits) are all hits |
| `Retrieval.MissBetweenHits` | src/blackbox/scale/recall.rs:142-152 | a miss between two hits: nDCG@3 is below recall@1 under every discount |
| `Retrieval.RecallWithinNdcg` | src/blackbox/scale/recall.rs:185-223 | for any set of answers, mean recall@1 is at most mean nDCG over every run made of them exactly when each of them is such an answer |
| `Retrieval.FoundIsRecallExactly` | src/blackbox/scale/recall.rs:198-216 | the reported recall@K, a hit at any rank, is never below the share of queries with a hit in the top K and equals it exactly when no first hit lies at rank K or further down |
| `Retrieval.LateHit` | src/blackbox/scale/recall.rs:198-216 | k misses and then a hit: 1 is reported and the share in the top k is 0 |
| `Retrieval.NdcgFormsAgree` | src/bench/score/retrieval.rs:211-235 | the string form of nDCG agrees with the probe form whenever something relevant was returned, and is 1 otherwise |
| `Retrieval.DcgIsSum` | src/blackbox/scale/recall.rs:130-139 | DCG of a ranking is the sum of the discounts of its hits in the top k |
| `Retrieval.NdcgTimesIdeal` | src/blackbox/scale/recall.rs:142-152 | nDCG times what as many hits at the top are worth is that sum |
| `Retrieval.NdcgIsOneExactly` | src/bench/score/retrieval.rs:103-142 | per question, NDCG@K is 1 exactly when nothing returned is relevant or the top min(K, relevant) are all relevant |
| `Retrieval.NdcgAtKBounded` | src/bench/score/retrieval.rs:211-235 | the public form is in [0, 1], for every discount, while no more of the top k is marked than there are relevant ids |
| `Retrieval.NdcgAtKBoundedExactly` | src/bench/score/retrieval.rs:211-235 | it is in [0, 1] for all discounts exactly then: otherwise a flat enough discount takes it above 1 |
| `Retrieval.DuplicatesExceedOne` | src/bench/score/retrieval.rs:211-235 | with the one relevant id returned twice every discount takes it above 1 |
| `Retrieval.MeanOver` | src/bench/score/retrieval.rs:70-100 | the skipping loop computes the mean over exactly the questions that count, and 0 over none |
| `Retrieval.PopulationNextExactly` | src/bench/score/retrieval.rs:70-100 | a question counts exactly when neither flag is set, something was returned and the lowered ground truth is not empty |
| `Retrieval.RelevanceExactly` | src/bench/score/retrieval.rs:82-92 | a memory is relevant exactly when its lowered text contains the lowered ground truth |
| `Retrieval.RecallCounts` | src/bench/score/retrieval.rs:70-100 | recall@K times the population counts the questions with a hit in the top K |
| `Retrieval.ComputeRetrievalStats` | src/bench/score/retrieval.rs:53-67 | the whole statistics record, absent exactly when no question returned a memory |
| `Retrieval.RecallGrowsWithK` | src/bench/score/retrieval.rs:70-100 | recall@1 <= recall@5 <= recall@10, each in [0, 1], for every run |
| `Retrieval.RecallIsFractionExactly` | src/bench/score/retrieval.rs:70-100 | recall@K is never below the mean fraction of relevant memories in the top K, and equals it exactly when every question has none or all of its relevant memories there |
| `Retrieval.HalfTheRelevant` | src/bench/score/retrieval.rs:70-100 | two relevant memories: recall@1 is 1 and the fraction one half |
| `Retrieval.MrrBetweenRecalls` | src/bench/score/retrieval.rs:145-192 | recall@1 <= MRR <= recall@K + (1 - recall@K) / (K + 1), for every run and K |
| `Retrieval.NdcgMeanInRange` | src/bench/score/retrieval.rs:103-142 | mean NDCG@K is in [0, 1] |
| `SplitMix.MixIsBijective` | src/bench/score/stats.rs:259-266 | the output mix is a bijection on 64-bit words, with an explicit inverse |
| `SplitMix.SplitMix64.NextU64` | src/bench/score/stats.rs:259-266 | one draw advances the state by the increment and returns the mixed state |
| `SplitMix.FirstDraw` | src/bench/score/stats.rs:259-266 | the first output for seed 0 is the published 0xe220a8397b1dcdaf |
| `SplitMix.StepsAreUnique` | src/bench/score/stats.rs:259-261 | every state is reached from every seed after exactly one number of steps modulo 2^64 |
| `SplitMix.WordIsZeroExactly` | src/bench/score/stats.rs:259-261 | a 64-bit counter returns to zero exactly at the multiples of 2^64 |
| `SplitMix.DrawsRepeatExactly` | src/bench/score/stats.rs:259-266 | two draws from one seed are equal exactly when they are a multiple of 2^64 draws apart |
| `SplitMix.SeedFromSample` | src/bench/score/stats.rs:237-246 | the seeding loop folds every element into the length-mixed basis |
| `SplitMix.KnownSeeds` | src/bench/score/stats.rs:237-246 | the seeds of the empty sample and of one zero |
| `SplitMix.AbsorbUndone` | src/bench/score/stats.rs:240-244 | each seeding step can be undone, for the running word and for the element |
| `SplitMix.OneChangeChangesSeed` | src/bench/score/stats.rs:237-246 | changing the bits of exactly one element always changes the seed |
| `Bootstrap.BootstrapCiWith` | src/bench/score/stats.rs:81-125 | the resampling loops, the sort and the two percentiles give the interval `IntervalFor` describes; `None` for an empty sample, no resamples or a level outside [0, 1) |
| `Bootstrap.IndexIsRemainder` | src/bench/score/stats.rs:107-109 | an index is what is left of the draw after whole multiples of the length |
| `Bootstrap.ResampleIsOfDraws` | src/bench/score/stats.rs:104-112 | the mean of resample j, times the length, is the sum of the elements at the draws from j times the length on, modulo the length |
| `Bootstrap.IntervalIs` | src/bench/score/stats.rs:81-125 | the point is the mean of the sample; the ends are the percentiles of the sorted resample means at (1 - level) / 2 and (1 + level) / 2 |
| `Bootstrap.NinetyFive` | src/bench/score/stats.rs:115-117 | at level 0.95 those are the percentiles at 0.025 and 0.975 |
| `Bootstrap.PercentileIsLinear` | src/bench/score/stats.rs:213-232 | the percentile at q stands q of the way along the sorted values, linearly between neighbours |
| `Bootstrap.ResampleMeanWithin` | src/bench/score/stats.rs:104-112 | every resample mean lies within the bounds of the sample |
| `Bootstrap.PercentileMonotone` | src/bench/score/stats.rs:213-232 | the interpolated percentile of sorted values does not fall as q grows |
| `Bootstrap.PercentileWithin` | src/bench/score/stats.rs:213-232 | the interpolated percentile stays within the bounds of the values |
| `Bootstrap.IntervalWithinSample` | src/bench/score/stats.rs:81-125 | min <= lower <= upper <= max, and the point too, for every sample, seed, level and count |
| `Bootstrap.ConstantSampleIsPoint` | src/bench/score/stats.rs:81-125 | a constant sample gives a point interval |
| `Bootstrap.HigherLevelWidens` | src/bench/score/stats.rs:115-117 | a higher level never narrows the interval on either side |
| `Bootstrap.LevelZeroIsMedian` | src/bench/score/stats.rs:81-125 | level 0 is accepted for every non-empty sample and count, and both ends of its interval are the median of the resample means |
| `MetaJudge.MetaEvaluate` | src/bench/score/meta_judge.rs:99-157 | the loop over labels computes the report over the graded pairs, absent exactly when there are none |
| `MetaJudge.CohensKappa` | src/bench/score/meta_judge.rs:162-197 | the nested loops over the confusion matrix compute kappa from its diagonal and marginals |
| `MetaJudge.MatrixDetermines` | src/bench/score/meta_judge.rs:110-136 | every counter and sum the loop keeps is a function of its confusion matrix |
| `MetaJudge.CellsCount` | src/bench/score/meta_judge.rs:117-124 | cell by cell, the matrix counts the pairs with that gold verdict and that judge verdict |
| `MetaJudge.RatesInMatrix` | src/bench/score/meta_judge.rs:140-157 | the two agreement rates and the bias in the counts of the matrix: the bias is what the judge gave beyond the gold labels |
| `MetaJudge.ReportForgetsOrder` | src/bench/score/meta_judge.rs:99-157 | reordering the pairs changes nothing in the report |
| `MetaJudge.SwapNegatesBias` | src/bench/score/meta_judge.rs:99-157 | swapping gold and judge keeps kappa, the rates and the absolute error, negates the bias and transposes the matrix |
| `MetaJudge.ErrorFromAgreement` | src/bench/score/meta_judge.rs:120-147 | mean absolute error is 1 - (exact + adjacent) / 2, bounds the bias, and exact <= adjacent |
| `MetaJudge.KappaInRange` | src/bench/score/meta_judge.rs:162-197 | kappa is in [-1, 1] for every confusion matrix |
| `MetaJudge.KappaInCounts` | src/bench/score/meta_judge.rs:162-197 | with S the sum of row times column: kappa times (n*n - S) is n times the diagonal minus S, unless n*n - S is below n*n / 2^52, when kappa is 1 or 0 by the same test on the diagonal |
| `MetaJudge.KappaSignExactly` | src/bench/score/meta_judge.rs:162-197 | so kappa is 0 exactly when agreement is what chance gives, and negative exactly when it is less |
| `MetaJudge.IndependentScoresZero` | src/bench/score/meta_judge.rs:162-197 | a judge whose grades do not depend on the gold ones scores 0 |
| `MetaJudge.KappaIsOneExactly` | src/bench/score/meta_judge.rs:187-196 | kappa is 1 exactly when all pairs agree or both rates are within `EPSILON` of 1 |
| `MetaJudge.GuardIsExact` | src/bench/score/meta_judge.rs:187-194 | up to 2^52 pairs the guard on chance agreement fires only under full agreement, and kappa is 1 exactly when all pairs agree |
| `MetaJudge.PerfectMeansAgreementUpTo` | src/bench/score/meta_judge.rs:187-196 | for n pairs, kappa 1 implies full agreement for every matrix exactly when n <= 2^52 |
| `MetaJudge.ZeroArmUnreachableUpTo` | src/bench/score/meta_judge.rs:187-194 | no matrix of at most n pairs takes the 0.0 arm exactly when n <= 2^53 - 2 |
| `MetaJudge.ZeroArmIsReachable` | src/bench/score/meta_judge.rs:187-194 | a matrix of 2^53 - 1 pairs on which the 0.0 arm is taken |
| `MetaJudge.KappaOverLabels` | src/bench/score/meta_judge.rs:99-157 | over any labels: kappa is in [-1, 1], and up to 2^52 graded pairs it is 1 exactly when every graded pair agrees |
| `Metrics.Parse` | src/client/metrics.rs:75-105 | the line loop collects the samples of the text, or panics on the first line that makes it |
| `Metrics.LineSkipped` | src/client/metrics.rs:75-105 | blank lines, comments and lines of one word say nothing |
| `Metrics.LineExactly` | src/client/metrics.rs:75-105 | any other line is split at its last whitespace: a panic when that takes several bytes, nothing without a number or a name, and a sample otherwise |
| `Metrics.NameAndLabelsExactly` | src/client/metrics.rs:75-105 | what stands left is split at its first brace into name and label body |
| `Metrics.ParseDistributes` | src/client/metrics.rs:75-105 | parsing distributes over blocks of whole lines |
| `Metrics.ParsePanicsExactly` | src/client/metrics.rs:82-85 | the scrape panics exactly when some line that is neither blank nor a comment ends its left side in a multi-byte whitespace |
| `Metrics.NoBreakSpacePanics` | src/client/metrics.rs:82-85 | such a line: a name, a no-break space and a value |
| `Metrics.RenderedComesBack` | src/client/metrics.rs:75-105 | well-formed samples without timestamps, rendered and parsed, come back unchanged and in order |
| `Metrics.Sum` | src/client/metrics.rs:110-120 | the sum of a family, absent exactly when the family is |
| `Metrics.SumWhere` | src/client/metrics.rs:127-137 | the sum of one label series, absent exactly when no sample of it exists |
| `Metrics.SeriesSumNext` | src/client/metrics.rs:110-137 | both sums, sample by sample: a sample adds its value when its family is the one asked for and its label body contains the text |
| `Metrics.PendingWriteWork` | src/client/drain.rs:92-100 | the loop over the drain workers adds up their series |
| `Metrics.PendingIsPerSample` | src/client/drain.rs:92-100 | queued work is absent exactly when no gauge sample names a drain worker, else the sum of value times the number of workers named |
| `Drain.PollUntil` | src/client/drain.rs:120-209 | the poll loop returns at the first poll whose loop variables say so, or at the cap, and always ends |
| `DrainRules.WaitForWriteFlush` | src/client/drain.rs:120-209 | over every history of scrapes, on the series themselves: flushed exactly when, before ten minutes, the last four scrapes with the queue gauge report an empty queue, the latest being one and a second having passed, or no scrape has the gauge and the last 241 agree on a positive wrapped sum of the two counters; at the first such poll, within 2400 polls, with the two counters of the last successful scrape each in its own field |
| `DrainRules.FiresExactly` | src/client/drain.rs:149-192 | the two rules on the readings are these rules on the scrapes |
| `DrainRules.PendingIsDepth` | src/client/drain.rs:92-100 | queued work adds every gauge sample once for each of the five workers its labels name |
| `Drain.ReturnsWhereRulesHold` | src/client/drain.rs:149-192 | the counters the loop keeps are equivalent to the rules on the history: the last four gauge readings zero, or 241 equal positive sums and no gauge ever |
| `Drain.RulesWait` | src/client/drain.rs:159-192 | the queue rule waits at least a second, the plateau rule at least sixty |
| `Drain.NoPlateauAfterGauge` | src/client/drain.rs:150-174 | once a gauge has been seen the plateau rule never fires |
| `Drain.FourEmptyScrapesSuffice` | src/client/drain.rs:132-171 | four empty readings end the wait whatever failed scrapes and scrapes without the gauge lie between them |
| `Judge.VerdictExactly` | src/bench/score/judge.rs:33-110 | the verdict in terms of the untrimmed answer: the decline phrases, the gold text, or at least half of the gold tokens |
| `Judge.DeclinesExactly` | src/bench/score/judge.rs:47-55 | the phrases that decline are these six |
| `Judge.TokensExactly` | src/bench/score/judge.rs:115-120 | the gold tokens are the whole words of at least three letters or digits, in order |
| `Judge.MatchedIsTally` | src/bench/score/judge.rs:91-94 | the matched tokens are counted one by one, each by whether it occurs in the answer |
| `Text.LowerExactly` | src/bench/score/judge.rs:69-70 | the 26 capitals go to their small letters and nothing else changes |
| `Judge.JudgedExactly` | src/bench/score/judge.rs:33-110 | the result carries the question id, and the score of its verdict: 1, 0.5 or 0 |
| `Judge.AppendingNeverWorsens` | src/bench/score/judge.rs:33-110 | appending text never worsens the verdict of a question that expects an answer |
| `Judge.AppendingToDecline` | src/bench/score/judge.rs:42-67 | for a question to be declined, appending worsens the verdict exactly when the answer was blank and the new one asserts something |
| `Synthesis.SynthesizeAnswer` | src/bench/synthesize.rs:31-56 | the buffer loop writes the numbered list of the first memories, or the fixed refusal |
| `Synthesis.AnswerExactly` | src/bench/synthesize.rs:31-56 | the answer is the fixed sentence for no memory, and otherwise the first max(1, cap) memories, each on a line behind its number |
| `Synthesis.RaisingCapExtends` | src/bench/synthesize.rs:45-56 | raising the cap only extends the answer |
| `Synthesis.RaisingCapNeverWorsens` | src/bench/synthesize.rs:31-56 | raising the cap never worsens the verdict, for any question type |
| `Synthesis.RecallHitIsCorrect` | src/bench/score/retrieval.rs:82-92 | over ASCII text, a recall@k hit with a cap of at least k is judged Correct |
| `Synthesis.CountedHitIsCorrect` | src/bench/score/retrieval.rs:70-100 | the same for a question the retrieval report counts as a hit |
| `Scoring.ComputeFullMetrics` | src/bench/score/metrics.rs:149-213 | overall accuracy and counts over the graded questions, dimensions over all, answer shapes |
| `Scoring.ComputeAnswerShape` | src/bench/score/metrics.rs:232-326 | the loop computes counts over every question and accuracies over the graded ones |
| `Scoring.ShapeCounts` | src/bench/score/metrics.rs:232-326 | one more question raises the count of its own shape by one, and the committed ones if it is an answer that does not decline |
| `Scoring.ShapesAddUp` | src/bench/score/metrics.rs:232-326 | the shapes partition the questions |
| `Scoring.ShapeAccuracies` | src/bench/score/metrics.rs:232-326 | each accuracy averages the graded questions of its own shape; precision is the share of graded committed answers that are right or partly right |
| `Scoring.AggregateDimensions` | src/bench/score/metrics.rs:328-359 | one entry per question type that occurs, summarising all its scores |
| `Scoring.TagsAreDistinct` | src/bench/core/instance.rs:84-95 | question types have distinct tags, so no dimension overwrites another |
| `Scoring.TagsExactly` | src/bench/core/instance.rs:84-95 | the tag of each question type |
| `Scoring.CountsAddUp` | src/bench/score/metrics.rs:168-174 | on any scores, correct + partial + incorrect is the number of scores; the subtraction never saturates |
| `Scoring.AccuracyIsConserved` | src/bench/score/metrics.rs:160-181 | with consistent scores the counts are those of the verdicts and accuracy is (correct + partial / 2) / graded |
| `Scoring.UngradedDoNotCount` | src/bench/score/metrics.rs:149-326 | runs with the same graded questions report the same accuracy, counts, shape accuracies and precision |
| `Scoring.InsertedUngraded` | src/bench/score/metrics.rs:149-326 | an ungraded question inserted anywhere leaves the graded questions as they were |
| `Scoring.DimensionsAddUp` | src/bench/score/metrics.rs:328-359 | over the eight question types, the dimensions count every question, and their accuracies weighted by count add up to the graded scores |
| `Scoring.AccuracyIsWeightedMean` | src/bench/score/metrics.rs:149-213 | accuracy is the weighted sum of the eight dimensions over the number graded; it is their count-weighted mean exactly when every question is graded or the graded scores add up to nothing |
| `Scoring.UngradedWeighOnDimensions` | src/bench/score/metrics.rs:328-359 | a dimension is never above the accuracy over its graded questions, and equals it exactly when all its questions are graded or its graded scores add up to nothing |
| `Scoring.OneUngraded` | src/bench/score/metrics.rs:328-359 | one right answer beside one never judged: the dimension is below the accuracy |
| `Pin.PinInstances` | src/bench/datasets/pin.rs:66-89 | the nested XOR loops, the outer hash and the hex loop give the pin |
| `Pin.OuterLayout` | src/bench/datasets/pin.rs:75-79 | the final hash input is the 32 bytes of the fold and eight of the count, lowest first |
| `Pin.CanonicalLayout` | src/bench/datasets/pin.rs:39-56 | the hashed bytes of an instance: id, question and answer, each ended by 0x1f, and then the turns |
| `Pin.TurnsLayout` | src/bench/datasets/pin.rs:39-56 | the turns: role and content, each ended by 0x1e |
| `Pin.FoldConcat` | src/bench/datasets/pin.rs:68-74 | the fold of a concatenation is the exclusive or of the folds |
| `Pin.FoldByParity` | src/bench/datasets/pin.rs:68-74 | the fold depends only on which digests occur an odd number of times |
| `Pin.FoldForgetsOrder` | src/bench/datasets/pin.rs:68-74 | in particular not on their order |
| `Pin.ReplacedChangesFold` | src/bench/datasets/pin.rs:68-74 | replacing one digest by another always changes the fold |
| `Pin.RefusalExactly` | src/bench/datasets/pin.rs:132-147 | a pin records name and count; a refusal names the expected count or hash and then the actual one, the count being looked at first |
| `Pin.VerifiesExactly` | src/bench/datasets/pin.rs:132-147 | a corpus verifies exactly when count and fold are those of the pinned one, if the two final hash inputs do not collide |
| `Pin.ReorderedVerifies` | src/bench/datasets/pin.rs:61-65 | any reordering of the pinned corpus verifies |
| `Pin.ReplacedIsRejected` | src/bench/datasets/pin.rs:132-147 | replacing one instance by one with another digest is a hash mismatch |
| `PinFields.CanonicalInjective` | src/bench/datasets/pin.rs:39-56 | the hashed bytes determine the instance among those with no 0x1f in id, question or answer and no 0x1e in a role or content |
| `PinFields.SeparatorsBlur` | src/bench/datasets/pin.rs:39-56 | every instance outside that class has the same hashed bytes as some other instance, made of UTF-8 text if the first is |
| `PinFields.DeterminedExactly` | src/bench/datasets/pin.rs:39-56 | among all instances, and just so among those of UTF-8 text, the hashed bytes determine one exactly when it is in that class and has no turn, or one turn without 0x1f in its role |
| `PinFields.EditIsCaughtExactly` | src/bench/datasets/pin.rs:132-147 | an edit of one instance is caught exactly when it changes the hashed bytes, if the hash inputs concerned do not collide |
| `PinFields.EditedIsRejected` | src/bench/datasets/pin.rs:132-147 | so every edit within the class above is a hash mismatch |
| `Pin.ParityVerifies` | src/bench/datasets/pin.rs:61-65 | a corpus of as many instances with the same digests odd in number has the same pin and verifies |
| `Pin.BlindExactly` | src/bench/datasets/pin.rs:61-74 | two corpora fold alike under every hash exactly when the same hashed texts occur an odd number of times in both |
| `Pin.PairsCancel` | src/bench/datasets/pin.rs:63-65 | two copies of any instance verify against two copies of any other |
| `Throughput.Percentile` | src/blackbox/scale/throughput.rs:652-661 | sorts the slice in place and returns the nearest-rank element |
| `Throughput.PercentileIsNearestRank` | src/blackbox/scale/throughput.rs:656-660 | the result is a sample; at least its rank of the samples are at most it, fewer lie strictly below |
| `Throughput.RankIsCeiling` | src/blackbox/scale/throughput.rs:657-659 | for q up to 1 the rank is max(1, ceil(n * q)) |
| `Throughput.PercentileMonotone` | src/blackbox/scale/throughput.rs:652-661 | the percentile does not fall as q grows |
| `Throughput.PercentileForgetsOrder` | src/blackbox/scale/throughput.rs:652-661 | the percentile depends only on the multiset of samples |
| `Throughput.WorkerStat.RecordErr` | src/blackbox/scale/throughput.rs:513-519 | a timeout and a failure go to different counters |
| `Throughput.WorkerLoop` | src/blackbox/scale/throughput.rs:523-553 | the worker loop tallies its attempts; a worker that cannot connect reports only that |
| `Throughput.StatBalances` | src/blackbox/scale/throughput.rs:539-549 | a worker keeps one latency per operation, and accounts for every attempt |
| `Throughput.AddUp` | src/blackbox/scale/throughput.rs:399-416 | the join loop adds up the tallies; a panicked worker is one error |
| `Throughput.JoinWorkers` | src/blackbox/scale/throughput.rs:399-437 | the numbers of the throughput report |
| `Throughput.ReportForgetsOrder` | src/blackbox/scale/throughput.rs:399-437 | ops, errors, timeouts, p50 and p99 do not depend on the order in which workers finish |
| `Throughput.JoinedBalances` | src/blackbox/scale/throughput.rs:399-549 | from the workers to the report: every attempt, failed connection and panic is counted once, as many latencies are collected as operations counted, and p50 <= p99 |
| `Throughput.ReportExactly` | src/blackbox/scale/throughput.rs:399-549 | ops, errors and timeouts count the completed attempts, the failures with panics and refused connections, and the timeouts; p50 and p99 are nearest-rank percentiles at 50 and 99 of a hundred |
| `Utf8Cut.ByteTestIsExact` | src/llm.rs:279-282 | testing one byte finds exactly the ends of characters of valid UTF-8 |
| `Utf8Cut.EncodedIsValid` | src/llm.rs:275-284 | the encoding of any Unicode characters is valid text |
| `Utf8Cut.ValidIsEncoded` | src/llm.rs:275-284 | and every valid text is such an encoding |
| `Utf8Cut.CutIsValidExactly` | src/llm.rs:283 | a prefix of valid UTF-8 is valid exactly when it is cut at the end of a character |
| `Utf8Cut.TruncateKeepsLongest` | src/llm.rs:275-284 | the longest valid prefix of at most max bytes is kept, at most three bytes short; the result is valid UTF-8 |
| `Utf8Cut.FindDown` | src/llm.rs:279-282 | the search down from max always finds a boundary, so its `unwrap_or(0)` is never needed, and no boundary lies between the result and max |
| `Utf8Cut.UnchangedExactly` | src/llm.rs:275-284 | the input comes back unchanged exactly when it fits, or ends in an ellipsis the cut falls into |
| `Utf8Cut.EllipsisIsEncoded` | src/llm.rs:283 | the ellipsis is the character U+2026 |
| `Utf8Cut.FitsExactly` | src/llm.rs:275-284 | the result has at most max bytes exactly when the input has, or when the bytes at max - 2, max - 1 and max all continue a character |
| `Utf8Cut.TruncateOverruns` | src/llm.rs:275-284 | two plain letters cut to one byte come back as four |

## Left out

- Network, docker, HTTP and SDK calls: the server is an arbitrary function of the space and the question.
- Concurrency inside one conversation's ingest: sessions are written in order, and only the aggregate is used.
- The aggregation inside `ingest_sessions`, plan traces, graph capture, memory extraction and memory-list checks.
- The drain barrier inside a run: the run records whether it would wait, given that a metrics address is set; the barrier itself is `Drain`.
- Files, JSON, environment variables, command line and rendering, including the incremental result file.
- Floating-point rounding: bounds and equalities are over the reals.
- The logarithm in the discount: any positive, strictly decreasing function that is 1 at 0.
- SHA-256: an arbitrary function to 32 bytes; results that need it not to collide say so for the two inputs concerned.
- Unicode lowering: an arbitrary function; the composition of recall and judge needs it only on ASCII text.
- `str::parse::<f64>`: an arbitrary partial function from tokens to numbers.
- DrainRules.WaitForWriteFlush: the scrapes of a history are parsed samples; a text on which `Metrics.Parse` panics would end the wait with that panic.
- Scoring.ComputeFullMetrics: the latency, token, retrieval, error and write-quality fields are not part of its result; retrieval statistics are `Retrieval`.
- Overflow of `u64` and `usize` counters.
- The reasoning text of a verdict, the latency, token, context-recall and write-quality aggregates, and the noise band.
- Exposition lines with a timestamp: the parser takes the timestamp for the value, so the round trip is over lines without one.
- `contamination_report`, the gates, targets and fail-stage counts: one branch each.
- The retry loop of the language-model client, prompts and replies.
- The compiled-in corpora and the expansion of a LoCoMo sample into instances.
- In-place sorting: `Sorting.SortInPlace` writes back the stable sort of the contents; the steps of the library sort are not modelled.
- Locals of one loop that the source keeps as separate variables are grouped in a value in `Scoring.ComputeAnswerShape`, and one iteration is a method of its own in `MetaJudge.MetaEvaluate`.
- `aggregate_dimensions` takes two lists it zips; here both come from one list of questions, as at its only call.
