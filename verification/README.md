# A verified model of the fleet orchestrator, its workloads and its bookkeeping

The system hands tiles of work to office machines that poll for them. An orchestrator keeps three tables (workers,
jobs, ledger), leases jobs for 20 seconds, pays credits for accepted results and writes a hash-chained audit log.
Workloads are cut into tiles, computed on any machine in any order, and merged. Around this stand a rate limiter, a
measurement identity that several observer processes agree on, an availability tracker and a usage profile.

The model has one module per concern, each in the file of the same name.

- **Splitting and merging.** `Partition` and `Apportion` (even and largest-remainder splits, the repair loop), `Optimize`,
  `Fractal`, `Synth`, `HashCrack`, `MonteCarlo` and `Risk` (executor and merge of each kind), `RiskAccuracy` (how near the
  reported risk is to the simulated returns), with `Jobkit` for what they share. The objective, the escape count, the synthetic record, the digest and the simulated return are arbitrary functions.
- **The lease-and-ledger protocol.** `Contracts` (data), `Scheduler` (capability and classification), `Protocol` (one step
  function per handler), `Lease`, `Credits`, `Assignment`, `Recovery` (its properties), `Handlers` (what each handler does, in
  table fields and numbers, and what follows over whole runs), and `Server`, a class whose handlers update the tables in place
  and are each proved to be the step of their name and to keep the invariant.
- **End to end.** `Launch` (the tiles of a launch), `Fleet` (any run that completes a launch pays its total, and with honest
  outputs gives the answer of one machine), `Summaries` (the answer that the workload page shows).
- **Audit.** `Hashing` (canonical JSON and UTF-8 read back as the list of strings they encode) and `Audit` (the chain and its verifier).
- **Small stateful algorithms.** `RateLimit`, `Identity`, `Availability`, `Profiler`, and `IsoTime`, which shows that comparing
  the stored timestamps as text is comparing instants.

Two grains of atomicity are used. In the coarse one a handler is one step (`Assignment`, `Recovery`). In the finer one the
part of a handler that runs under the write lock is a step of its own and takes the worker row that was read before it as
an arbitrary parameter, so that it may be stale or belong to a deleted worker (`Lease`, `Credits`, `Fleet`, `Summaries`, and
where a row says so).

Clock readings, random values, UUIDs, the order in which chunks finish, yields, and whether a proof hash matches are
parameters of the calls. SHA-256 is an uninterpreted function: nothing is assumed of it for all inputs, except where a row
below says never empty. What the audit theorems need of it concerns only the bytes hashed for the logs at hand (`Apart`,
`NoCollision`) and the hashes stored in them (`NoAnchor`). The square root is a function assumed to be one (`IsRoot`).

## What the proofs found

- `weighted_ranges` and `weighted_partition` promise an exact sum. Over computed shares this holds if and only if
  `0 <= leftover <= n`; a slice with a negative or oversized leftover silently loses or creates work. In double precision
  `weighted_ranges(2**54 + 2, [1.0])` loses a unit and `weighted_ranges(2**54 + 6, [1.0])` creates two. Rounding of less
  than one unit over all shares is enough to rule that out (`SumIsTotalIffLeftoverFits`, `RoundedSharesFit`).
- The rate limiter admits at most `2 * limit - 1` requests in any interval of one window's length, and that is attained for
  every limit and window.
- Tail risk at a level is ordered (CVaR at least VaR, stricter levels at least as large) for every histogram if and only if
  the bounds are not reversed, there is a single bin, or the level is at least 1; the orchestrator uses 0.95 and 0.99, and
  no builder rejects reversed bounds (`TailAboveEdgeIff`, `GrowsBetweenIff`).
- A Monte-Carlo tile is cut into chunks by the core count of the machine that runs it, and each chunk has its own random
  stream. So the paths drawn depend on the machine unless the chunk counts agree or both reach the number of paths
  (`PathsIgnoreCoresIff`); the fleet's report is exact for the paths drawn, `totalPaths` in all (`DistributedRisk`).
- Identity agreement survives every failed write of the shared file except one that fails after its whole line became
  visible and whose file is then removed, and is lost in some run with such a one (`AgreementIffFailuresAreEarly`).
- A log written only by `_emit` verifies if and only if no digest before the last one is the empty string.
- The deferral rule never asks whether a lighter peer can take the job. In every reachable state it waits for nobody exactly
  when every lighter peer is measurement-only or does not fit the job (`DeferralWaitsForNobodyIff`), and this does happen:
  four calls lead to a state in which the only ready worker is sent away for the sake of a measurement-only observer
  (`DeferralForNobody`). The delay is still bounded by 1.5 s.
- Approval and blacklisting at lease time hold in the coarse grain. In the finer grain they hold if and only if every late
  lease checks the worker again, which the code does not (`FineRunIsTrustedIff`, `StaleRowLeasesToBanned`).
- A saved profile bucket reloads unchanged if and only if it is within the sample cap, not dated before the epoch, and its
  minimum is not above its mean (`ReloadKeepsBucketIff`). Only an empty bucket can fail the last: the fresh one does, its
  minimum of 100 becoming 0 (`ReloadChangesFreshBucket`), which no later record shows (`ReloadOfEmptyIsInvisible`).

## Model

| member | source | states |
|---|---|---|
| Partition.EvenRanges | src/workloads/partition.py:14-34 | the two ValueErrors; otherwise contiguous ranges covering [0, total) whose sizes are the near-even ones, the extra units going to the leading ranges |
| Partition.ExactCover | src/workloads/partition.py:14-34 | in any cover every unit of work lies in one range and in no other |
| Partition.NonEmptyCovers | src/workloads/optimize.py:45-60 | dropping empty ranges, as every builder does, keeps the cover |
| Partition.SizesAddUp | src/workloads/partition.py:65-70 | the sizes of a cover add up to the whole work |
| Partition.EvenSizesAreNearEven | src/workloads/partition.py:14-34 | the even sizes add up to the total, differ by at most one, and never grow along the list |
| Partition.NearEvenIsUnique | src/workloads/partition.py:14-34 | and no other sizes of that number do |
| Partition.SumIsTotalIffLeftoverFits | src/workloads/partition.py:56-63 | for any computed shares, the apportioned sizes add up to the total if and only if the leftover lies between 0 and the number of shares (Python slice semantics included) |
| Partition.RoundedShareLosesAUnit | src/workloads/partition.py:56-63 | 2**54 + 2 units whose single share rounds to 2**54: the leftover does not fit and the sizes add up to one unit less |
| Partition.RoundedShareCreatesUnits | src/workloads/partition.py:56-63 | 2**54 + 6 units whose single share rounds to 2**54 + 8: the leftover is negative and the sizes add up to two units more |
| Partition.ExactLeftoverFits | src/workloads/partition.py:56-63 | with exact shares the leftover is at least 0 and below the number of shares |
| Partition.RoundedSharesFit | src/workloads/partition.py:56-63 | if each share is off by at most delta and n * delta < 1, the leftover fits and the sizes add up exactly |
| Partition.LargestRemainderQuota | src/workloads/partition.py:56-64 | with exact shares each size is within one of its share, and equals it when the share is whole |
| Partition.LargestRemainderOptimal | src/workloads/partition.py:56-64 | no other integer vector with the same sum has a smaller sum of squared deviations from the shares |
| Partition.TiesGoToTheFirst | src/workloads/partition.py:59-63 | of two equal remainders the one with the lower index is served first |
| Apportion.WeightedRanges | src/workloads/partition.py:37-70 | the ValueErrors in order; otherwise ranges laid end to end with the largest-remainder sizes, covering [0, total) if and only if the leftover fits |
| Apportion.CoverUnderRounding | src/workloads/partition.py:56-70 | for non-negative total and weights of positive sum, shares within delta of the exact ones and n * delta < 1 make the leftover fit, hence the ranges cover |
| Apportion.HandOut | src/workloads/partition.py:99-106 | the flooring and leftover loop computes the largest-remainder sizes |
| Apportion.LargestHolder | src/workloads/partition.py:116-116 | the donor is the largest count, the lowest index among equals |
| Apportion.Repair | src/workloads/partition.py:108-120 | the loop terminates, keeps the sum, raises only zero shares and only to one, borrows only from holders that stay among the largest, the lowest index first among equals, and leaves no zero once the sum reaches the number of shares |
| Apportion.RepairIsDetermined | src/workloads/partition.py:108-120 | once every share has its unit, that leaves exactly one outcome, donors among equals included |
| Apportion.RejectionIff | src/workloads/partition.py:46-54 | the guards let through exactly non-empty, non-negative weights with a positive sum and a non-negative total, and the first that fails names the error |
| Apportion.WeightedPartition | src/workloads/partition.py:73-121 | the ValueErrors; below n units the plain largest-remainder counts; otherwise their repair; the sum is exactly the total and every share at least 1 whenever the leftover fits |
| Apportion.ZeroSharesAreLightest | src/workloads/partition.py:80-84 | a share left at zero never has a larger weight than one that got something |
| Apportion.EqualWeightsSplitEvenly | src/workloads/partition.py:86-88 | equal weights give exactly the sizes of the even split |
| Apportion.EqualWeightsNeedNoRepair | src/workloads/partition.py:86-88 | and the repair loop then changes nothing |
| Optimize.OptimizeFindsLowestArgmax | src/jobkit/execute.py:296-340 | a complete slice reports its lowest-index argmax with that score and those parameters, and counts every candidate |
| Optimize.RunOptimize | src/jobkit/execute.py:296-340 | the loop returns the honest answer for the prefix it evaluated, stops at the first yield and only there |
| Optimize.AggregateOptimize | src/workloads/optimize.py:63-98 | the merge returns a tile that no usable tile beats (higher score, or same score and lower index), and the sum of the counts; without a usable tile the empty answer |
| Optimize.MergeOptimize | src/workloads/optimize.py:63-98 | for every cover and every arrival order the merge of honest tiles equals one machine over the whole range |
| Fractal.RunFractal | src/jobkit/execute.py:211-270 | the rows are a prefix of the band's rows, all of them unless it yielded |
| Fractal.AssembleTiles | src/workloads/fractal.py:86-112 | raises if and only if the height is negative or some painted row does not fit the canvas or has no ramp; otherwise the canvas is what painting each tile's rows at their absolute positions in turn leaves |
| Fractal.LastTileWins | src/workloads/fractal.py:102-112 | whatever the tiles, each pixel has the colour of the last one that has a value for it, and stays black if none has |
| Fractal.PixelOfImage | src/workloads/fractal.py:100-112 | pixel (y, x) of the image has the colour of its escape count, clipped to 0 and the iteration limit |
| Fractal.ShadeClips | src/workloads/fractal.py:111-112 | a count outside the ramp takes the colour of its nearer end |
| Fractal.MergeFractal | src/workloads/fractal.py:102-112 | for every cover and arrival order the canvas of honest bands is the image of one machine, and no row of theirs raises when the iteration limit is not negative |
| Synth.RunSynth | src/jobkit/execute.py:386-436 | the rows are a prefix of the slice's rows, all of them unless it yielded |
| Synth.SortIsStable | src/workloads/synth.py:66-80 | tiles with the same start index keep their incoming order |
| Synth.MergeSynth | src/workloads/synth.py:66-80 | the merged list is the tiles' rows concatenated in sorted order |
| Synth.RowIsItsRecord | src/jobkit/execute.py:386-436 | row k of a dataset is the record of index k, however it is cut |
| Synth.MergeSynthIsWhole | src/workloads/synth.py:66-80 | for every cover by non-empty ranges and every arrival order, the merged list is the row list of one machine |
| HashCrack.HashChunk | src/jobkit/execute.py:630-638 | either no nonce of the range hits and all were tried, or the first hit with its digest and the number tried up to it |
| HashCrack.HitBeginsWithTarget | src/jobkit/execute.py:630-638 | a hit is a digest whose first characters are the target |
| HashCrack.LowerTable | src/jobkit/execute.py:648-649 | a target is lowered letter by letter, and nothing else in it changes |
| HashCrack.ChunkTasks | src/jobkit/execute.py:655-668 | non-empty tasks covering the tile's nonces without gap or overlap |
| HashCrack.RunHashcrack | src/jobkit/execute.py:641-680 | a reported nonce is a true witness; if every chunk finished, found if and only if a hit exists, and all nonces are counted when there is none |
| HashCrack.AggregateHashcrack | src/workloads/hashcrack.py:56-69 | empty results are left out; of the others the first winner, the first non-empty target, the sum of hashes and the number |
| HashCrack.SearchIsComplete | src/workloads/hashcrack.py:30-69 | for every cover and arrival order of complete tiles: found if and only if the keyspace holds a hit, with a true witness; the keyspace is counted in full when there is none |
| MonteCarlo.McChunk | src/jobkit/execute.py:549-573 | count, sums, worst return and histogram of exactly the paths of the chunk's stream, the histogram counting each bin's interval (`HistogramCounts`) |
| MonteCarlo.StatsAppend | src/jobkit/execute.py:604-610 | statistics of concatenated path lists are the combined statistics |
| MonteCarlo.StatsAnyOrder | src/jobkit/execute.py:604-610 | statistics do not depend on the order of the paths |
| MonteCarlo.VarianceNonNegative | src/jobkit/execute.py:611-616 | the variance of any list of returns is non-negative, so the clamp never changes it |
| MonteCarlo.MomentsOfPaths | src/jobkit/execute.py:611-613 | mean times paths is the sum of the returns, variance times paths the sum of their squared distances from the mean |
| MonteCarlo.WorstIsLeast | src/jobkit/execute.py:569-570 | the worst return is the least one, or zero if none is negative |
| MonteCarlo.BucketIsBin | src/jobkit/execute.py:571-572 | with bounds in order a return is counted in exactly the bin whose edges it lies between |
| MonteCarlo.BinOfReturn | src/jobkit/execute.py:571-572 | within the bounds that is lo + i * width up to lo + (i + 1) * width; below them it is the first bin, from the upper bound on the last |
| MonteCarlo.ReversedBinsMirror | src/jobkit/execute.py:571-572 | reversed bounds bin a return as the negated bounds bin its negation; without a width everything is in the first bin |
| MonteCarlo.HistogramCounts | src/jobkit/execute.py:553-573 | each histogram entry is the number of paths whose return lies in that bin |
| MonteCarlo.StreamsDiffer | src/jobkit/execute.py:597-601 | two chunks share a random stream only if seed and chunk number agree, up to 1,000,003 chunks a tile |
| MonteCarlo.TileSimulatesItsPaths | src/jobkit/execute.py:593-602 | the chunks of a tile simulate exactly its number of paths |
| MonteCarlo.CompletionOrderIsIrrelevant | src/jobkit/execute.py:602-610 | all chunks finishing in any order give the same statistics |
| MonteCarlo.TileDrawsItsPaths | src/jobkit/execute.py:593-602 | whatever the core count and the completion order, a complete tile draws exactly its number of paths |
| MonteCarlo.PathsIgnoreCoresIff | src/jobkit/execute.py:593-602 | two core counts give a tile the same chunks, and the same total return in every world, if and only if the chunk counts are equal or both at least the number of paths; so for core counts up to min(2048, ceil(n/2000)), but not for two paths on one core and on two |
| MonteCarlo.RunMontecarlo | src/jobkit/execute.py:576-625 | the tile's summary is that of the paths of the chunks that finished, over the histogram of its bounds; an honest tile summary when all did |
| MonteCarlo.MergeParts | src/workloads/montecarlo.py:83-95 | the accumulation over usable tiles; the index error if and only if some usable histogram is longer than the first |
| MonteCarlo.MergeIsHomomorphism | src/workloads/montecarlo.py:83-98 | merged count, histogram, worst return and both weighted moments are the statistics of all the tiles' paths together |
| MonteCarlo.MergeMontecarlo | src/workloads/montecarlo.py:83-98 | in any arrival order the merge has the count, mean, variance, worst return and histogram of the concatenated paths, and the variance it takes the root of is non-negative |
| Risk.ReturnAt | src/workloads/montecarlo.py:100-107 | the least bin whose cumulative count reaches the rank, with its centre; the upper bound if there is none |
| Risk.RiskOf | src/workloads/montecarlo.py:110-119 | the loss at that bin and the mean loss of the bins up to it |
| Risk.RankIsReached | src/workloads/montecarlo.py:100-112 | the scan stops at a bin if and only if the level is non-negative or there are no paths |
| Risk.CvarReturnMonotone | src/workloads/montecarlo.py:113-116 | the tail mean never decreases as the tail takes in more bins |
| Risk.CvarAtLeastVar | src/workloads/montecarlo.py:109-119 | CVaR is at least VaR at each level |
| Risk.RiskMonotoneInLevel | src/workloads/montecarlo.py:109-119 | VaR and CVaR never decrease with the level |
| Risk.ReversedBoundsBreakCvar | src/workloads/montecarlo.py:78-81 | for any reversed bounds, at least two bins and any level from 0 up to but not 1, a histogram whose CVaR is below its VaR |
| Risk.TailAboveEdgeIff | src/workloads/montecarlo.py:78-119 | at a level, CVaR is at least VaR for every histogram if and only if the bounds are not reversed, there is one bin, or the level is at least 1 |
| Risk.GrowsBetweenIff | src/workloads/montecarlo.py:78-119 | from a level to a stricter one, VaR and CVaR never decrease for any histogram if and only if the same holds of the bounds, the bins or the lower level |
| Risk.OrderedIffBoundsAre | src/workloads/montecarlo.py:78-119 | both orders hold for every histogram at all levels if and only if the bounds are not reversed or there is one bin |
| Risk.AggregateMontecarlo | src/workloads/montecarlo.py:68-130 | the whole merge: no usable tile, the index error exactly for an overlong histogram, or moments, histogram and one risk line per level |
| Risk.FleetReport | src/workloads/montecarlo.py:68-130 | the merge of honest tiles with at least one path succeeds, and its report is that of one machine which drew all their paths: moments, histogram, and VaR and CVaR at each non-negative level |
| Risk.ExactReportIsOrdered | src/workloads/montecarlo.py:109-119 | in such a report CVaR is at least VaR and both grow with the level, when the bounds are in order |
| RiskAccuracy.SomeReturnAtRank | src/workloads/montecarlo.py:100-112 | at each level from 0 up to but not 1 some simulated return has fewer paths than the rank below it and at least that many at or below it |
| RiskAccuracy.ReportedRiskIsNear | src/workloads/montecarlo.py:100-119 | for returns within the bounds, reported VaR is within half a bin of the loss at that return, and CVaR within half a bin of the mean loss of the tail up to its bin |
| Hashing.EscapeIsPrefixCode | src/contracts/hashing.py:15-23 | JSON string escaping (section 7 of RFC 8259) of one character never begins that of another |
| Hashing.JsonListInjective | src/contracts/hashing.py:15-23 | the compact JSON of two lists of strings is equal only for equal lists |
| Hashing.Utf8RoundTrip | src/contracts/hashing.py:15-23 | the code point and the length are read back from the bytes of a character |
| Hashing.CanonicalBytesInjective | src/contracts/hashing.py:15-23 | two lists of strings of any lengths never share their canonical bytes |
| Hashing.CanonicalBytesReadBack | src/contracts/hashing.py:15-23 | decoding the canonical bytes as UTF-8 and reading them as a JSON array (sections 5 and 7 of RFC 8259) gives back the list |
| Audit.AuditLog.Emit | src/orchestrator/app.py:497-523 | appends one row that continues the chain, and changes no other |
| Audit.AuditLog.Verify | src/orchestrator/app.py:472-494 | ok if and only if every row re-derives; otherwise the id and the number of the first row that does not |
| Audit.EmittedLogsVerify | src/orchestrator/app.py:497-523 | a log that only `_emit` wrote verifies if and only if no digest before the last is empty; in particular with a digest that is never empty |
| Audit.EmittedIds | src/orchestrator/app.py:497-523 | the rows of an emitted log are numbered from 1 |
| Audit.GenesisIsZeros | src/orchestrator/app.py:440-441 | the anchor is 64 zeros |
| Audit.HashedBytesReadBack | src/orchestrator/app.py:444-469 | what is hashed for a row reads back as previous hash, time, kind, worker, job and detail, in this order, an absent one as empty |
| Audit.SameHashSameFields | src/orchestrator/app.py:444-469 | equal event hashes mean equal previous hash and fields, null and empty identified, if and only if the two byte strings do not collide |
| Audit.LastHashAndLengthFixLog | src/orchestrator/app.py:472-494 | two verifying logs of the same length and last hash agree row by row if and only if the bytes hashed for no two rows of the same number collide |
| Audit.LastHashFixesLog | src/orchestrator/app.py:472-494 | the last hash alone fixes the log if no bytes hashed for the one collide with bytes hashed for the other and neither stores the genesis anchor as a hash |
| Audit.PrefixVerifies | src/orchestrator/app.py:472-494 | the limit of the guarantee: a log cut off at the end still verifies |
| Audit.EditIsLocated | src/orchestrator/app.py:472-494 | an edited row is the first broken one if and only if its bytes before and after the edit do not collide |
| Audit.DeletionIsLocated | src/orchestrator/app.py:472-494 | after rows are deleted from the middle, the row that follows them is the first broken one if and only if it does not follow the same hash as before; in particular if no bytes hashed for the log collide and no stored hash is the anchor |
| RateLimit.RateLimiter.Check | src/orchestrator/ratelimit.py:29-47 | state and answer are the step of the specification, sweep included |
| RateLimit.RateLimiter.Sweep | src/orchestrator/ratelimit.py:49-52 | removes exactly the stale buckets |
| RateLimit.SweepIsInvisible | src/orchestrator/ratelimit.py:29-52 | for non-decreasing times every answer is that of a limiter that never sweeps |
| RateLimit.LessThanTwiceTheLimit | src/orchestrator/ratelimit.py:29-47 | each key gets at most max(2 * limit - 1, 0) admissions in any half-open interval of one window |
| RateLimit.BoundIsTight | src/orchestrator/ratelimit.py:29-47 | for every limit of at least 1 and every positive window, a run with 2 * limit - 1 admissions in one half-open interval of that length |
| RateLimit.FirstLimitAreAdmitted | src/orchestrator/ratelimit.py:29-52 | in a window of a key exactly the first limit requests on it are admitted, whatever other keys do and whenever the sweep runs |
| RateLimit.RetryCoversWindow | src/orchestrator/ratelimit.py:41-44 | the advertised wait exceeds the rest of the window by at most one second |
| RateLimit.RetryThenAdmitted | src/orchestrator/ratelimit.py:29-47 | waiting as told guarantees admission, whatever other keys do meanwhile |
| IsoTime.LaterDateLargerOrdinal | src/orchestrator/app.py:92-93 | a later calendar date has a larger day number |
| IsoTime.OrdinalsCountDays | src/orchestrator/app.py:92-93 | day numbers count one by one from 1 January of year 1 |
| IsoTime.FourCenturies | src/orchestrator/app.py:92-93 | 400 years have 146,097 days |
| IsoTime.IsoOrder | src/orchestrator/app.py:92-93 | the text order of two stored timestamps is the order of their calendar fields |
| IsoTime.TextOrderIsTimeOrder | src/orchestrator/app.py:315-329 | comparing stored UTC timestamps with four-digit years is comparing instants, although the fraction is omitted when it is zero |
| Identity.StepKeepsAgreement | src/worker/measurement_identity.py:48-122 | every step keeps the invariant unless a write fails after its whole line became visible and its file is removed; the agreed content stays, except that the removal after an earlier failure starts over |
| Identity.AllReturnTheSameId | src/worker/measurement_identity.py:28-122 | any interleaving of any number of processes, hard link or exclusive open, with any failed writes, whether the file is then removed or stays behind, as long as no file is removed after its whole line was visible: all that return without an alias return the same ID, the one in the file |
| Identity.AliasesTakeNoPart | src/worker/measurement_identity.py:48-56 | taking all steps of the processes with an alias out of any run leaves a run with the same file and the same outcome for every other process; they themselves return their trimmed alias or fail |
| Identity.AcceptedIsWhole | src/worker/measurement_identity.py:28-45 | a prefix of the line that a waiting reader accepts is the whole line |
| Identity.StripCuts | src/worker/measurement_identity.py:20-26 | trimming takes away all blanks at both ends and nothing else |
| Identity.BlanksAre | src/worker/measurement_identity.py:20-26 | the blanks one by one |
| Identity.ValidIdIff | src/worker/measurement_identity.py:11-26 | 8 to 64 characters of letters, digits, dots, underscores and hyphens, the first a letter or a digit |
| Identity.GivesUpAfterTwentyReads | src/worker/measurement_identity.py:28-45 | a reader that finds the file incomplete gives up with the twentieth read and not before |
| Identity.AgreementIffFailuresAreEarly | src/worker/measurement_identity.py:103-122 | from any absent file and any three processes: agreement holds in every run in which at least m characters are missing from each file that a failed write removes, if and only if m is positive |
| Identity.LateFailureBreaksAgreement | src/worker/measurement_identity.py:103-122 | the run behind the other half: a write that fails just after its whole line became visible, its file removed, and two processes return different IDs |
| Availability.AvailabilityTracker.Record | src/measurement/availability.py:96-140 | the new fields are those of the specification of one sample, which `AmountsAreExact`, `SampleCounts` and `AccountingIsExact` pin over any trace |
| Availability.AccountingIsExact | src/measurement/availability.py:96-140 | over any trace observed plus unavailable is the sum of the accounted steps, gaps the number of long ones, the sample count, the last and the earliest sample |
| Availability.AmountsAreExact | src/measurement/availability.py:96-140 | over any trace the observed time is the sum of the steps without a gap and of one expected interval per gap, the unavailable time the rest of the gaps; a gap is a step of at most 31 days longer than three intervals and than one by over 30 s |
| Availability.SampleCounts | src/measurement/availability.py:101-113 | samples count if they are finite and positive, with an expected interval of 30 s unless given, and at least a millisecond |
| Availability.RisingTraceSpan | src/measurement/availability.py:93-140 | for rising traces with steps of at most 31 days the span is exactly last minus first |
| Availability.OrderOfTimestampsIsIrrelevant | src/measurement/availability.py:226-240 | building a tracker from timestamps gives the same tracker for every order of them |
| Availability.TrackerFromTimestamps | src/measurement/availability.py:226-240 | the tracker built is the trace of the valid timestamps in ascending order |
| Availability.ReloadIsIdentityIffWithinCaps | src/measurement/availability.py:57-151 | a saved tracker reloads unchanged if and only if it is within the caps |
| Availability.LoadedIsClamped | src/measurement/availability.py:57-88 | loading moves each field of any dict into its caps and changes none that is within |
| Availability.ReloadChangesNothingLater | src/measurement/availability.py:57-151 | saving and reloading at any point within the caps changes nothing recorded later |
| Availability.DailyHoursSumTo24 | src/measurement/availability.py:154-184 | the observed hours are to 24, and the percentage to 100, what the observed time is to the span; with the unavailable ones they sum to 24 and 100 whenever the span is positive |
| Profiler.ExtremesBracketMean | src/worker/profiler.py:71-84 | the decaying extremes never cross the mean the sample has already moved |
| Profiler.MeansAreWeighted | src/worker/profiler.py:65-69 | over any observations at most 35 days apart each mean is the weighted mean of the samples of its kind, a sample weighing a twentieth, decayed by each later one, and the first the rest; each count is their number |
| Profiler.WeightsAddUp | src/worker/profiler.py:65-69 | those weights add up to 1 |
| Profiler.ExtremesRelax | src/worker/profiler.py:71-84 | a peak or trough moves a fiftieth of its distance to the new mean, unless the sample lies beyond |
| Profiler.StartsOver | src/worker/profiler.py:345-346 | after more than 35 days a bucket records as if it were new |
| Profiler.PercentIsClamped | src/worker/profiler.py:87-96 | a percentage is the number given, moved into 0 to 100, or the default |
| Profiler.OneSlotPerHour | src/worker/profiler.py:46-48 | every hour of the week has a bucket of its own |
| Profiler.FoldKeepsEnvelope | src/worker/profiler.py:328-369 | one record, stale reset included, keeps minimum, mean and maximum in order and within 0 to 100, and the counts below the total |
| Profiler.LoadedIsEnvelope | src/worker/profiler.py:99-141 | loading any dict, however malformed, yields an envelope |
| Profiler.LoadedFields | src/worker/profiler.py:99-141 | what each field is loaded as, and how the counts that old files lack are inferred |
| Profiler.ReloadKeepsBucketIff | src/worker/profiler.py:99-141 | a saved bucket, empty or not, reloads unchanged if and only if it is within the sample cap, not dated before the epoch and its minimum is not above its mean |
| Profiler.ReloadChangesFreshBucket | src/worker/profiler.py:99-141 | the fresh bucket fails that: it reloads with a minimum of 0 |
| Profiler.ReloadIsIdempotent | src/worker/profiler.py:99-141 | a bucket loaded from any dict, saved and loaded again, is unchanged |
| Profiler.ReloadOfEmptyIsInvisible | src/worker/profiler.py:99-141 | an empty bucket records the same whether or not it was saved and reloaded |
| Profiler.UsageProfiler.Load | src/worker/profiler.py:213-252 | an absent file changes nothing; an unreadable one empties every bucket; otherwise bucket by bucket, leaving those without a dict alone |
| Profiler.UsageProfiler.Record | src/worker/profiler.py:328-369 | folds the observation into the bucket of its hour of the week and changes no other |
| Profiler.EnvelopeHoldsForever | src/worker/profiler.py:99-141 | the envelope holds after any sequence of records, resets, reloads and loads of any file |
| Scheduler.MayRouteIffRanked | src/orchestrator/routing_policy.py:79-92 | a route exists if and only if classification and tier are known and the tier's rank is at least the classification's |
| Scheduler.ClearanceComposes | src/orchestrator/routing_policy.py:64-92 | what is routable at the tenant's ceiling is routable at any classification cleared under it |
| Protocol.OldestIsUnique | src/orchestrator/scheduler.py:46-48 | creation time and id single out one oldest job |
| Lease.FineStepKeeps | src/orchestrator/app.py:1103-1132 | every step of the finer grain keeps shapes, exclusive leases, the balanced ledger and the grant history; submissions never change, completion is final, ledger and history only grow |
| Lease.StepIsKept | src/orchestrator/app.py:1085-1389 | what each handler of the class ensures besides its step: from a sound state it reaches a sound one, changing the tables only as stated above |
| Lease.ReachableStatesAreSound | src/orchestrator/app.py:1103-1388 | in every state reachable in the finer grain: queued has no holder and no deadline, leased both, completed a holder, a result and no deadline; `failed` never occurs; no worker holds two leases; exactly one ledger row per completed job |
| Lease.OnlyHolderExtends | src/orchestrator/app.py:1184-1202 | a lease is extended only by its holder's heartbeat, and only before it expires |
| Lease.OnlyHolderCompletes | src/orchestrator/app.py:1293-1388 | an open job is completed by a step if and only if that is a timely, acceptable result of its holder; that output is stored and the holder is paid the job's charge |
| Lease.CompletedJobIsClosed | src/orchestrator/app.py:1297-1298 | after any further run a late or duplicate result for a completed job changes nothing at all |
| Lease.NobodyElseTouchesALease | src/orchestrator/app.py:1103-1388 | before its deadline a leased job is not changed by any step that is not by or about its holder |
| Handlers.ReapTakesTheExpired | src/orchestrator/app.py:319-329 | exactly the leases whose deadline lies before now go back to the queue; nothing else changes |
| Handlers.LateOrForeignResult | src/orchestrator/app.py:1293-1313 | a result that is not the holder's, late or too large changes nothing, except that a late one gives the job back |
| Handlers.UnfinishedResult | src/orchestrator/app.py:1314-1388 | a failed or yielded result, or one whose proof does not match, gives the job back and pays nothing |
| Handlers.WrongAnswer | src/orchestrator/app.py:1327-1350 | an answer to a challenge with the number n that is not n * n + 1 bans its poster and gives the job back; without a number it is an error that changes nothing |
| Handlers.AcceptedResult | src/orchestrator/app.py:1355-1376 | any other result in time completes the job with that output and pays its units, five times over for a GPU job |
| Handlers.BeatEffect | src/orchestrator/app.py:1142-1204 | a heartbeat reports its worker's usage and renews the lease it names, if it holds it, to 20 s from now, or gives it back if it has run out; an observer reports nothing and renews nothing |
| Handlers.OthersKeepTheLease | src/orchestrator/app.py:1085-1388 | until its deadline has passed a lease is untouched by every step, the holder's included, but its heartbeat, its result and its disconnection |
| Handlers.TimelyBeatsKeepTheLease | src/orchestrator/app.py:1184-1202 | in any run of the finer grain a worker whose heartbeats come less than 20 s apart never loses its lease |
| Handlers.EveryGrantSuits | src/orchestrator/scheduler.py:14-31 | every lease of any run of the finer grain went out on a row with the GPU, video memory, live free memory, processors and accelerators that the manifest requires, and on a tier that its classification allows |
| Handlers.PollRule | src/orchestrator/app.py:1085-1139 | a ready worker is granted a job if and only if it is the oldest that waits and suits it and is not, while under 1.5 s old, left to another approved worker, seen in the last 3 s, without a running lease and at least 15 points less busy |
| Handlers.PassedOverDoesNotSuit | src/orchestrator/scheduler.py:37-61 | a queued job that a ready worker passes over for a younger one, or for none when it is not fresh, does not suit it |
| Handlers.NotReadyPollsForNothing | src/orchestrator/app.py:1090-1109 | every other authenticated poll gets nothing, and an unapproved or banned worker's does not even reap |
| Handlers.GrantEffect | src/orchestrator/app.py:1117-1132 | a grant sets holder, a deadline in 20 s, one attempt more and the worker's last sign of life |
| Handlers.RegisterRefused | src/orchestrator/app.py:896-928 | the three refusals under device binding, each if and only if; they change nothing |
| Handlers.RegisterEffect | src/orchestrator/app.py:895-971 | every field of the row after an accepted registration, of a new worker and of a known one |
| Handlers.StrangersAreRefused | src/orchestrator/app.py:396-437 | whoever is not registered is refused without effect |
| Handlers.OnlyTheLastTokenWorks | src/orchestrator/app.py:396-437 | after a registration and any run without another or a disconnection, exactly the requests with that token and, with binding on, the bound certificate are let in; the others change nothing |
| Handlers.ApprovedIff | src/orchestrator/app.py:904-948 | a step leaves a worker approved if and only if it was, is approved by it, or registers without a gate |
| Handlers.UnapprovedGetsNothing | src/orchestrator/app.py:1095-1098 | in any run a worker that is never approved and registers behind the gate is granted nothing |
| Handlers.ApprovedForLife | src/orchestrator/app.py:904-948 | an approved worker stays so until disconnected |
| Handlers.TierRule | src/orchestrator/app.py:984-1002 | the tier after a step is the one IT sets, else the attested one if none is pinned, else the old one |
| Handlers.PinnedForLife | src/orchestrator/app.py:1220-1250 | over any run a pinned tier stays until IT sets another or the worker is disconnected |
| Handlers.UnraisedGetsPublicJobsOnly | src/orchestrator/routing_policy.py:64-92 | in any run a worker that neither IT nor an attestation has raised is granted public jobs only |
| Handlers.BannedIff | src/orchestrator/app.py:1327-1350 | a step leaves a worker banned if and only if it was, or it is a wrong answer of that worker in time |
| Handlers.HonestIsNeverBanned | src/orchestrator/app.py:1327-1350 | over any run a worker that answers every challenge right is never banned |
| Handlers.DisconnectEffect | src/orchestrator/app.py:1253-1274 | the row is gone, exactly its leases are back in the queue, and its credits stay |
| Handlers.SubmitEffect | src/orchestrator/submit.py:16-55 | one queued row with the submitted fields and no attempts, or the refusal |
| Handlers.AdministrationEffect | src/orchestrator/app.py:1207-1250 | unknown workers and tiers are refused without effect; otherwise one row changes, in approval, tier and pin alone |
| Credits.CreditsAreConserved | src/orchestrator/app.py:1358-1372 | the ledger total is the sum of the charges of the completed jobs; each worker's credits are those of the jobs it completed; any set of completed jobs was paid exactly its charges |
| Credits.TotalSplitsByWorker | src/orchestrator/app.py:1406-1438 | the total is the sum over the workers ever paid, departed ones included |
| Credits.ReachableCreditsAreConserved | src/orchestrator/app.py:1276-1389 | in every state reachable in the finer grain: the total, the sum of each worker, and the split of the total over the workers ever paid |
| Credits.EveryRowPaysUnits | src/orchestrator/app.py:1355-1372 | in every state reachable in the finer grain a ledger row pays the holder of a completed job its units, five times over if the manifest requires a GPU |
| Credits.LedgerIsInUnits | src/orchestrator/app.py:1355-1372 | and so the total, and each worker's sum, is the units of the completed jobs without a GPU plus five times those of the others |
| Assignment.PollGrantsOldestEligible | src/orchestrator/app.py:1085-1139 | a successful poll leases the oldest eligible job to an approved, trusted, fitting worker and changes nothing else but the reaped leases |
| Assignment.OnlyPollGrants | src/orchestrator/app.py:1085-1139 | nothing else grants a lease |
| Assignment.EveryGrantIsSafe | src/orchestrator/app.py:1095-1127 | over any run every lease ever granted went to an approved, not blacklisted, job-taking worker that matches and is cleared for the job, and no blacklisted worker holds one |
| Assignment.CreditsFollowSafeGrants | src/orchestrator/app.py:1358-1372 | every ledger row pays a worker that was safely granted that very job |
| Assignment.OnlyResultsPay | src/orchestrator/app.py:1277-1376 | the ledger grows only by an accepted result, by one row for its poster |
| Assignment.BannedEarnsNothing | src/orchestrator/app.py:1328-1350 | over any run a blacklisted worker holds no lease and gains no credit while its row lives |
| Assignment.FineStepKeepsTrustIff | src/orchestrator/app.py:1090-1127 | a step of the finer grain keeps safe grants and trusted holders if and only if, when it leases, the row it read is that of an approved, trusted, job-taking worker who is still registered and not blacklisted |
| Assignment.FineRunIsTrustedIff | src/orchestrator/app.py:1090-1127 | they hold in every state along a run of the finer grain if and only if every late lease met that condition |
| Assignment.StaleRowLeasesToBanned | src/orchestrator/app.py:1090-1127 | a run from the empty database that loses them: register, submit a challenge, poll, answer it wrongly, and a poll whose row was read before the answer leases it to the blacklisted worker |
| Assignment.BoundForLife | src/orchestrator/app.py:906-935 | with device binding on, a bound worker row keeps its certificate over any run until it is disconnected |
| Assignment.StepKeepsBinding | src/orchestrator/app.py:906-960 | and its token changes only by a registration that presents that very certificate |
| Recovery.StepKeepsClocked | src/orchestrator/app.py:1117-1127 | with a clock that never goes back, jobs lie in the past and leases end at least 20 s after creation |
| Recovery.PollRecovers | src/orchestrator/app.py:1099-1127 | a ready worker's poll always leases a job if a fitting job is at least 1.5 s old or its lease has expired, and one no younger than that |
| Recovery.EveryTimedRunRecovers | src/orchestrator/app.py:319-373 | the same in every state that such a run reaches |
| Recovery.DeferralOnlyDelaysFreshJobs | src/orchestrator/app.py:346-373 | if a ready worker gets nothing, every queued job that fits it is younger than 1.5 s |
| Recovery.CouldTakeIffUseful | src/orchestrator/app.py:1095-1127 | some later poll of an approved, trusted, free peer is granted the job, once the older jobs are gone, if and only if the peer takes jobs and fits it |
| Recovery.RunKeepsTokens | src/orchestrator/app.py:889-971 | no step of any run of the finer grain leaves a worker with an empty token |
| Recovery.DeferralWaitsForNobodyIff | src/orchestrator/app.py:346-373 | in every state reachable in the finer grain in which the rule defers: no lighter peer could take the job if and only if each of them is measurement-only or does not fit it |
| Recovery.DeferralForNobody | src/orchestrator/app.py:346-373 | a run from the empty database after which the only ready worker's poll for a fitting job is answered with nothing, and no lighter peer could take that job |
| Launch.SplitRanges | src/workloads/optimize.py:35-45 | refused exactly for a wrong number of weights or their own ValueErrors; otherwise one range per tile with the near-even or largest-remainder sizes, laid end to end, covering the work if and only if no weighted leftover is lost |
| Launch.BuildWorkloadJobs | src/orchestrator/app.py:124-164 | refused exactly for the builder's ValueErrors or those of the split, in that order; otherwise one spec per non-empty range of that split |
| Launch.ProblemIff | src/workloads/optimize.py:30-35 | a builder has no problem if and only if everything it counts is positive, and a search has a target |
| Launch.LaunchedTileSuits | src/workloads/optimize.py:45-60 | a launched tile has its kind and the size of its range as units, needs one processor and nothing else, and any known tier but the lowest may run it |
| Launch.SpecsAreTiles | src/workloads/montecarlo.py:44-66 | the specs are the tiles of the non-empty ranges in order, each with the number of its range |
| Launch.UnitsAddUp | src/workloads/optimize.py:45-60 | the units of a launch add up to its work and every spec has some |
| Launch.SeedsIncrease | src/workloads/montecarlo.py:40-65 | distinct tiles of a Monte-Carlo launch have distinct seeds |
| Launch.AllStreamsDiffer | src/workloads/montecarlo.py:40-65 | any two chunks of any two tiles of a Monte-Carlo launch share a random stream if and only if they are the same chunk of the same tile, whatever machine of up to 1,000,003 cores runs which tile |
| Fleet.RunPlaces | src/orchestrator/submit.py:16-55 | after any run the jobs of a workload are exactly those submitted for it, unchanged |
| Fleet.JobsAreSubmissions | src/orchestrator/submit.py:16-55 | the same from the empty database |
| Fleet.RunKeepsHonest | src/orchestrator/app.py:1358-1365 | if every accepted output is honest, every stored result of the workload is |
| Fleet.DistributedOptimize | src/workloads/optimize.py:63-98 | any run that completes a sweep with honest outputs merges to the answer of one machine |
| Fleet.DistributedFractal | src/workloads/fractal.py:86-112 | the same for the image, and assembling the collected bands raises nothing when the iteration limit is not negative |
| Fleet.DistributedSynth | src/workloads/synth.py:66-80 | the same for the row list |
| Fleet.DistributedSearch | src/workloads/hashcrack.py:56-69 | the same for the search: found if and only if the keyspace holds a solution, with a true witness |
| Fleet.DistributedRisk | src/workloads/montecarlo.py:68-130 | any run that completes a Monte-Carlo launch with honest outputs gives a report of exactly totalPaths paths, exact for the paths the machines drew, with CVaR at least VaR when the bounds are in order |
| Fleet.LaunchPaysItsTotal | src/orchestrator/app.py:1355-1372 | any run that completes a launch, of whatever kind and whatever its outputs say, has paid exactly its total units for it, however it was split, requeued or retried |
| Summaries.AggregateWorkload | src/orchestrator/app.py:280-312 | none without outputs and for fractal; for montecarlo, hashcrack, optimize and ai.synth what that kind's merge promises, an exception of the risk merge becoming none; nothing is promised of the language-model kinds |
| Summaries.OnlyCompletedCount | src/orchestrator/app.py:1581-1607 | the merge gets exactly the outputs of the completed rows, in the order of the rows |
| Summaries.OptimizeSummaryIsExact | src/orchestrator/app.py:1581-1607 | the summary shown for a completed sweep is the answer of one machine |
| Summaries.SynthSummaryIsExact | src/orchestrator/app.py:1581-1607 | and for a dataset its row count and first 500 rows |
| Summaries.HashSummaryIsExact | src/orchestrator/app.py:1581-1607 | and for a search the right answer |
| Summaries.RiskSummaryIsExact | src/orchestrator/app.py:1581-1607 | and for a Monte-Carlo launch the exact report of the paths the machines drew |
| Server.Orchestrator.Register | src/orchestrator/app.py:889-971 | the handler is the registration step: the refusals of device binding; approval is kept; a fresh row starts at the lowest tier |
| Server.Orchestrator.Authenticate | src/orchestrator/app.py:396-437 | true if and only if the token is the row's and non-empty and, with binding on, the certificate is the row's if it has one |
| Server.Orchestrator.Attest | src/orchestrator/app.py:984-1002 | a derived tier is stored unless IT pinned one |
| Server.Orchestrator.Submit | src/orchestrator/submit.py:16-55 | one queued row with the submitted fields, or the refusal of units that are not positive |
| Server.Orchestrator.LaunchWorkload | src/orchestrator/app.py:1561-1571 | one queued row per spec, in order, and no other row added or changed |
| Server.Orchestrator.Reap | src/orchestrator/app.py:319-329 | exactly the leases past their deadline go back to the queue |
| Server.Orchestrator.SelectRows | src/orchestrator/scheduler.py:46-48 | the selected rows once each, by creation time and then id |
| Server.Orchestrator.PickJobFor | src/orchestrator/scheduler.py:37-61 | the oldest queued job that the worker fits and is cleared for, or none if there is none; `Handlers.PassedOverDoesNotSuit` says what that is |
| Server.Orchestrator.DeferToLessLoaded | src/orchestrator/app.py:346-373 | true if and only if the job is fresh and a clearly lighter, live, free, approved peer exists |
| Server.Orchestrator.JobsNext | src/orchestrator/app.py:1085-1139 | the handler is the poll step, of which `Handlers.PollRule` and `GrantEffect` say in numbers what it does |
| Server.Orchestrator.LockedPoll | src/orchestrator/app.py:1103-1132 | its locked part is the fine-grained poll for any row |
| Server.Orchestrator.Heartbeat | src/orchestrator/app.py:1142-1204 | the handler is the heartbeat step, of which `Handlers.BeatEffect` says in fields what it does |
| Server.Orchestrator.Approve | src/orchestrator/app.py:1207-1217 | the handler is the approval step |
| Server.Orchestrator.SetTier | src/orchestrator/app.py:1220-1250 | the handler is the tier step |
| Server.Orchestrator.DisconnectWorker | src/orchestrator/app.py:1253-1274 | the handler is the disconnect step: leases requeued, row removed |
| Server.Orchestrator.Results | src/orchestrator/app.py:1277-1389 | the 400 of a mismatched job id, which changes nothing; otherwise the handler is the result step in all its branches, which the `Handlers` laws on results spell out |
| Server.Orchestrator.FleetCredits | src/orchestrator/app.py:1406-1438 | the credit columns and total are the sums the credit theorems are about |
| Server.Orchestrator.WorkloadDetail | src/orchestrator/app.py:1581-1607 | 404 if and only if the workload has no rows; otherwise its rows in order, the number completed and the merged summary |

## Left out

- HTTP routing, TLS (whether a client certificate was verified is a parameter of the call), SQL text, migrations, the dashboard, sandboxing, signing, the command line.
- The job kinds `ai.infer`, `ai.eval`, `ai.graph`, `render`, `data.transform`, and `ai.synth` with a language-model backend.
- Columns that no modelled decision reads: `updated_at`, `idle`, `on_ac`, device codes, registration times, profiles.
- The events that handlers emit: `Audit` takes any sequence of them; `assigned` events appear as the grant history.
- Floating point: numbers are exact reals, except that computed shares are arbitrary and `RoundedSharesFit` says what rounding they may carry.
- Credits are integers (units times 5 or 1); the source stores the same numbers as floats.
- Job ids are numbers: they stand for UUIDs in hex, whose fixed length makes text order numeric order.
- Times are microseconds: `IsoTime.TextOrderIsTimeOrder` is the reason this is the same as comparing the stored strings. Unparsable stored times are not modelled.
- Colours: the assembler is proved for an arbitrary ramp on the clamped count; drawing and PNG output are not modelled.
- Tile counts and capability weights: `launch_workload`'s choice of them is a parameter.
- Negative path counts, which no builder makes, and histograms without bins, on which every chunk raises, are not modelled.
- Risk lines are a list, one per level; the source keys them by the rounded percentage, so that two levels with the same percentage overwrite each other.
- Lost chunks: an executor whose pool drops a chunk reports an incomplete search; `HashCrack.RunHashcrack` promises completeness only when every chunk finished.
- RateLimit.LessThanTwiceTheLimit: assumes non-decreasing times; the source reads its clock before it takes the lock, so two threads may swap.
- Assignment.EveryGrantIsSafe: speaks of the coarse grain; `FineRunIsTrustedIff` says when the finer grain keeps it.
- Profiler.UsageProfiler.Load: the copy that is kept of an unreadable file is not modelled.
- Summaries.AggregateWorkload: promises nothing for `ai.eval`, `ai.graph`, `ai.infer` and `ai.batch_infer`, whose merges are not part of this model.
- The identity protocol is a step relation rather than a class, since its subject is the interleaving of processes; file permissions and directory syncing are not modelled.
- The profiler's buckets are values in an array; the source's bucket objects are never aliased.
- Aliasing of JSON values and the ranges' list objects is not modelled: they are values.
