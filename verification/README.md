# Writer gate model

A Dafny model of a deterministic load generator, the runner that pushes its events through a
concurrent pipeline, the independent verifier that recomputes the result, and the planner that fits
REST polling into connection and token budgets. `dafny verify dfyconfig.toml` checks all of it.

## What is modelled

- **Workload oracle** (`Workload`, `Allocation`, `Spacing`, `Schedule`, `PlanSchedule`, `Texts`,
  `Identities`): records are spread over identities, a capped burst is taken from each identity, the
  rest is spaced around a reserved second, and everything is streamed in (due, event id) order. The
  reference is a sort of one row per ordinal; every closed form and every streaming loop is proved
  equal to it, and merging the schedules of the exchanges is proved to give the schedule of the plan.
- **REST planner** (`Fractions`, `Capacity`, `Reservation`, `Intervals`, `Planner`): exact fractions
  in lowest terms, capacity admission, connection reservation, interval stretching, and the retry
  loop with its termination measure.
- **Pipeline** (`Spool`, `Cuts`, `Chunks`, `SpoolFiles`, `Pipeline`, `Progress`, `Checks`): the spool builder as a
  class, the spool writer, the chunk reader as a loop over bytes in arbitrary pieces, and the four
  concurrent stages as a step relation in which any stage may move at any time and an abort may come at
  any time; the stages are safe, cannot get stuck and can only move so often, and their checks hold back
  chunks that are out of place. `WorkloadRun` joins the
  oracle, the spool and the pipeline: what a finished run traces is what the workload plans.
- **Evidence** (`Framing`, `TraceMerge`, `Buckets`, `Join`, `Publication`): newline framing, the merge
  of sorted partitions, per-second buckets, the exact join of accepted and durable rows as a class over
  two tables, and the no-replace publication of two pairs of documents by racing, crashing verifiers.
- **Aggregation** (`Histogram`, `Rounds`, `Regression`, `Resources`, `Sampling`): nearest-rank quantiles and their
  merge, the validator of worker rounds, the least-squares trend, the checks of resource samples and the
  resource summary.
- `Arithmetic` and `Ordering` hold what the others share.

Digests, event ids and canonical encodings are abstract functions that tell different inputs apart;
event ids are compared as numbers. Decompression is an arbitrary cut of a plain byte sequence into
pieces, and row encodings are any codec that decodes what it encodes, one line a row. Clocks, evaluations
and what a read decodes to are parameters of a step.

## What turned out not to hold

- The interval pre-check of the planner is sound but not exact: it refuses some stretched intervals
  whose rounded-up value fits. `Fractions.PreCheckOverRejects` says exactly which, and
  `Intervals.RefusesPlanExactly` when a whole endpoint is refused although its stretched intervals are a
  plan. `Intervals.OverRejectedPlan` gives the inputs: every flexible demand below the maximum has such rates.
- Reading a spool partition can depend on where its bytes are cut. `Cuts.PassesEveryCut` says exactly which
  contents pass under every cut, `Cuts.PassesSomeReads` which pass under some reads, and
  `Cuts.LongLinesDependOnReads` which pass or fail with the reads. The writer's bound keeps every line on
  the safe side (`SpoolFiles.ReplaySecond`).
- A run in which every row is accepted, on time and in the window can still lose its burst flag.
  `Buckets.CleanRunLosesBurstExactly` says for which plans, `Buckets.BurstValidExactly` for which traces,
  and `Buckets.SpillLosesTheBurst` gives the trace for every workload with a given control stream on all
  five exchanges; `Buckets.SlowControlIsInAWorkload` gives such workloads for all seconds of the bursts.
- When overlapping resource rounds are allowed, rounds that pass every check can still be refused by
  the summary's own validator (`Sampling.OverlapCanBeRefused`); `Resources.SummaryValidExactly`
  states when, and rounds that do not overlap are always accepted.

## Model

| member | source | states |
|---|---|---|
| Workload.CeilRecordsIsLeast | src/crypto_collector/benchmarks/oracle.py:692-702 | the record count is the least integer that reaches the exact mean rate over the duration |
| Allocation.OrdinalHasOwner | src/crypto_collector/benchmarks/oracle.py:945-961 | every ordinal belongs to one identity and local sequence, inside that identity's run of ordinals |
| Allocation.OwnerHasOrdinal | src/crypto_collector/benchmarks/oracle.py:945-961 | every identity and local sequence below its allocation comes back from its ordinal: the correspondence is one to one |
| Allocation.TouchedIdentities | src/crypto_collector/benchmarks/oracle.py:316-319 | exactly the first min(N, M) identities receive a record |
| Allocation.SelectionsPartition | src/crypto_collector/benchmarks/oracle.py:1027-1093 | every ordinal of any range is in exactly one of the burst and the smooth selection, once, and nothing else is in either |
| Allocation.ClosedFormCounts | src/crypto_collector/benchmarks/oracle.py:1052-1061 | the closed-form burst and smooth counts before an identity equal the counts obtained by walking the ordinals |
| Allocation.DistributedBurstTotal | src/crypto_collector/benchmarks/oracle.py:320-327 | the per-identity quotas select exactly the scheduled burst, for the control stream too, so the checks after the loops never fire |
| Allocation.BurstOrdinalsForSpan | src/crypto_collector/benchmarks/oracle.py:1027-1038 | the nested loops yield exactly the burst ordinals of an identity span, in order |
| Allocation.IndexedSmoothOrdinalsForSpan | src/crypto_collector/benchmarks/oracle.py:1064-1081 | the loops yield exactly the span's smooth ordinals with their rank in the whole stream, started from the closed form |
| Spacing.SmoothDueBounds | src/crypto_collector/benchmarks/oracle.py:1275-1290 | no smooth event is due in the burst second and every deadline lies inside the run |
| Spacing.SmoothDueMono | src/crypto_collector/benchmarks/oracle.py:1275-1311 | due times never decrease with the smooth rank, so flushing a tie group whenever the due time changes yields a sorted stream |
| Spacing.SpacingIsEven | src/crypto_collector/benchmarks/oracle.py:1275-1290 | every window outside the burst second holds the floor or the ceiling of its share of the smooth events |
| Spacing.SmoothDueIsFloor | src/crypto_collector/benchmarks/oracle.py:1275-1290 | a smooth row is due at the floor of its share of the time outside the burst second and the last second, moved past the burst second |
| Schedule.PlanGivesStream | src/crypto_collector/benchmarks/oracle.py:241-350 | a validated stream plan gives a schedulable stream |
| Schedule.BurstScheduleForSpan | src/crypto_collector/benchmarks/oracle.py:1243-1261 | the sorted burst rows of a span are a sorted arrangement of the span's burst rows |
| Schedule.SmoothScheduleForSpan | src/crypto_collector/benchmarks/oracle.py:1270-1311 | sorting one tie group at a time yields a sorted arrangement of all smooth rows of the span |
| Schedule.StreamScheduleForSpan | src/crypto_collector/benchmarks/oracle.py:1320-1329 | merging both sides yields the full sort of the span's rows |
| PlanSchedule.SchedulesAreStrict | src/crypto_collector/benchmarks/oracle.py:1338-1359 | plan and exchange schedules are strictly increasing in (due, event id) |
| PlanSchedule.ScheduleHoldsRecords | src/crypto_collector/benchmarks/oracle.py:1243-1342 | the schedule holds exactly one row for each record of each identity of each stream: the first records of an identity, up to the quota, are due when the burst starts and the others at their place among the smooth records |
| PlanSchedule.ScheduleOrder | src/crypto_collector/benchmarks/oracle.py:1338-1342 | of two rows of the schedule the earlier one is due first, or has the smaller event id when both are due together |
| PlanSchedule.RowsDueInRun | src/crypto_collector/benchmarks/oracle.py:1275-1290 | every planned row of a plan with one duration is due in the run with its whole deadline inside it |
| PlanSchedule.MergedExchangesArePlan | src/crypto_collector/benchmarks/oracle.py:1338-1359 | merging the schedules of all exchanges gives the plan's schedule: same rows, same times, same order |
| PlanSchedule.GeneratePlanSchedule | src/crypto_collector/benchmarks/oracle.py:1338-1342 | the merge of the stream schedules is the sort of all planned rows |
| PlanSchedule.GenerateExchangeSchedule | src/crypto_collector/benchmarks/oracle.py:1345-1359 | the merge of one exchange's slices is the sort of the exchange's rows; an exchange outside the plan is refused |
| PlanSchedule.ExpectedExchangeRecordCount | src/crypto_collector/benchmarks/runner.py:1145-1176 | the closed-form count is the length of the exchange's schedule, and is refused exactly when the exchange is not in the plan or has no rows |
| PlanSchedule.ExchangeCountsCoverPlan | src/crypto_collector/benchmarks/runner.py:4122-4131 | the counts of all exchanges sum to the plan's record count |
| Identities.DigitsRoundTrip | src/crypto_collector/benchmarks/oracle.py:871-921 | an identity index is recovered from its mixed-radix digits |
| Identities.IndexRoundTrip | src/crypto_collector/benchmarks/oracle.py:871-921 | every choice of exchange, market, lane, symbol and logical stream comes from exactly its own index |
| Identities.FactsAtIndex | src/crypto_collector/benchmarks/oracle.py:871-921 | identities are numbered with logical streams varying fastest, then symbols, lanes, markets and exchanges |
| Identities.FactsInjective | src/crypto_collector/benchmarks/oracle.py:871-921 | different identity indices have different facts |
| Identities.SpanIsExchange | src/crypto_collector/benchmarks/oracle.py:1016-1024 | an identity belongs to an exchange exactly when it lies in the exchange's index span |
| Identities.CanonicalIdentityInjective | src/crypto_collector/benchmarks/oracle.py:101-150 | canonical identity texts of four-digit identities are equal only for equal facts |
| Identities.EventRecordInjective | src/crypto_collector/benchmarks/oracle.py:964-973 | the text that an event id digests determines group, facts and local sequence |
| Identities.WorkloadGivesValidPlan | src/crypto_collector/benchmarks/oracle.py:976-1001 | under an injective digest, the streams of a valid workload never share an event id, so every schedule theorem applies |
| Fractions.MakeIsLowest | src/crypto_collector/config/probe_contracts.py:2033-2130 | no fraction of the same value has a smaller denominator than the one that the arithmetic keeps |
| Fractions.LowestIsUnique | src/crypto_collector/config/probe_contracts.py:2131-2140 | a value has exactly one fraction in lowest terms, so the numerator and denominator that the pre-check reads are determined |
| Fractions.CeilingReaches | src/crypto_collector/config/probe_contracts.py:2173-2181 | the rounded interval is the least integer that reaches the exact one |
| Fractions.PreCheckIsSound | src/crypto_collector/config/probe_contracts.py:2131-2140 | an interval that passes the pre-check never exceeds the maximum after rounding, so the later guard is unreachable |
| Fractions.PreCheckOverRejects | src/crypto_collector/config/probe_contracts.py:2131-2140 | exactly which intervals the pre-check refuses although they fit after rounding |
| Fractions.PreCheckOverRejectsSomewhere | src/crypto_collector/config/probe_contracts.py:2131-2140 | such an interval exists for every denominator from three on and every maximum from two on |
| Capacity.Admit | src/crypto_collector/selection/capacity.py:305-375 | admission fails exactly when fixed candidates outnumber the slots, and otherwise refuses exactly the first removable candidates in eviction order, never a fixed one; both parts come in their own order |
| Capacity.WorstAreRefused | src/crypto_collector/selection/capacity.py:296-353 | a top-ranked candidate is refused only with all those of worse rank, a new listing only with every top-ranked one and every later listing, a fixed one never; ties go to the smaller key |
| Capacity.AdmissionIsOrdered | src/crypto_collector/selection/capacity.py:287-361 | refused candidates come top-ranked before new listings, worst rank and latest listing first; admitted ones fixed first, then earliest listing, then best rank |
| Capacity.ChunkHoldsPlaces | src/crypto_collector/selection/capacity.py:382-389 | the next group of a market holds exactly the candidates whose number of predecessors in admission order falls into it |
| Capacity.ChunkLessMeans | src/crypto_collector/selection/capacity.py:392-406 | one group comes before another exactly when, after equal ranks, it has a candidate that comes first or the other has ended |
| Capacity.FixedNeedsAreLeast | src/crypto_collector/selection/capacity.py:428-445 | the fixed candidates fit exactly when some shares within the connections hold them all, and no market then gets by with less than its need |
| Capacity.BestConnectionScope | src/crypto_collector/selection/capacity.py:392-406 | the market found still wants a connection, no other wanting market has a better next group, and ties go to the earlier market; none is found exactly when none wants one |
| Capacity.ShareConnections | src/crypto_collector/selection/capacity.py:409-509 | each connection in turn goes to the market with the best next group, until none is left or none is wanted |
| Capacity.HandedOutIsUnique | src/crypto_collector/selection/capacity.py:409-509 | the demands alone determine how many connections every market gets |
| Capacity.AdmitExchangeCapacity | src/crypto_collector/selection/capacity.py:409-509 | a refusal names the last market holding fixed candidates when these need too many connections, or the first market whose share turns away a fail-policy candidate; an admission excludes both, never exceeds the total and turns away exactly the first candidates in eviction order |
| Reservation.FirstAvailable | src/crypto_collector/config/probe_contracts.py:1765-1785 | the slot search finds the first egress with a connection left |
| Reservation.ReserveConnections | src/crypto_collector/config/probe_contracts.py:1755-1790 | each market gets exactly the requested number of slots, and the call fails exactly when total demand exceeds total healthy capacity |
| Reservation.ReservationsDisjoint | src/crypto_collector/config/probe_contracts.py:1755-1790 | no slot goes to two markets or twice to one |
| Reservation.PrefixHasNoGap | src/crypto_collector/config/probe_contracts.py:1755-1790 | the slots granted on an egress are its connections 0, 1, ... without a gap |
| Reservation.EarlierEgressesFirst | src/crypto_collector/config/probe_contracts.py:1755-1790 | a connection of a later egress is granted only when all those of every earlier one are |
| Reservation.ReportShardsDisjoint | src/crypto_collector/config/probe_contracts.py:1817-1826 | two reported shards, of one market or of two, never share a physical connection |
| Intervals.StretchIsLeast | src/crypto_collector/config/probe_contracts.py:2122-2126 | no smaller stretch of at least one lets the flexible demands fit |
| Intervals.StretchIsOverload | src/crypto_collector/config/probe_contracts.py:2111-2126 | the stretch is exactly the flexible demands' rate over what the fail-policy demands leave, and one when there is no overload |
| Intervals.WeightIsRound | src/crypto_collector/config/probe_contracts.py:2071-2082 | a demand costs the tokens of every job of every instrument |
| Intervals.DemandShare | src/crypto_collector/config/probe_contracts.py:2173-2190 | at its rounded interval a demand takes at most its stretched share of the rate |
| Intervals.EndpointWithinBudget | src/crypto_collector/config/probe_contracts.py:2033-2206 | the token rate over all effective intervals never exceeds the endpoint's available rate |
| Intervals.RestReductionCandidate | src/crypto_collector/config/probe_contracts.py:1843-1871 | the instrument chosen is polled and evictable and goes before every other such instrument in eviction order |
| Intervals.WorstGivesWay | src/crypto_collector/config/probe_contracts.py:1843-1871 | a new listing gives way only when no top-ranked instrument may, of one kind the worse ranked or later listed does, then the one of the market first by name, then the one of the smaller key |
| Intervals.FirstMayGo | src/crypto_collector/config/probe_contracts.py:1851-1865 | what gives way is polled there, known, not fixed and not under a fail policy |
| Intervals.NobodyGivesWay | src/crypto_collector/config/probe_contracts.py:1851-1865 | when none may go, every known instrument polled there is fixed or under a fail policy |
| Intervals.ReduceRestOrFail | src/crypto_collector/config/probe_contracts.py:1874-1931 | the evictable polled instrument that goes first is rejected, and the failing markets are failed only when none is evictable |
| Intervals.StretchedIsPlan | src/crypto_collector/config/probe_contracts.py:2131-2206 | fail-policy demands keep their interval, none is polled faster than requested or slower than the maximum, and the rate fits |
| Intervals.AllocateEndpoint | src/crypto_collector/config/probe_contracts.py:2033-2206 | an endpoint gets its stretched intervals exactly when its rate suffices and no demand is over the maximum; otherwise the cause decides which demands give way, which instrument goes first, and which markets fail when none may go |
| Intervals.WhoGivesWay | src/crypto_collector/config/probe_contracts.py:2083-2118 | without any rate the overload falls on all demands; when the fail-policy demands need more than there is, on these alone; when they leave nothing, on the flexible ones alone; each with its reason, and the markets that fail are exactly theirs |
| Intervals.WhoGivesWayAtMaximum | src/crypto_collector/config/probe_contracts.py:2127-2172 | once the rate suffices it falls on the fail-policy demands asking for more than the maximum, else on the flexible ones when one of them is over it when stretched, of which exactly those fail; else every demand gets its stretched interval |
| Intervals.RefusesPlanExactly | src/crypto_collector/config/probe_contracts.py:2127-2206 | exactly when the planner refuses demands although their stretched intervals are a plan: all fit when rounded up and one lies just below the maximum |
| Intervals.OverRejectedPlan | src/crypto_collector/config/probe_contracts.py:2127-2206 | every flexible demand that asks for less than the maximum has rates at which it is refused although its stretched interval is a plan |
| Planner.BuildCohorts | src/crypto_collector/config/probe_contracts.py:1934-2032 | one cohort per setting, holding exactly the admitted instruments with that setting, once for every workload that asks for it; a market is reported as unmatched only when an admitted instrument has no work, and none is exactly when all have |
| Planner.CohortsPollOffered | src/crypto_collector/config/probe_contracts.py:1934-2032 | an instrument is in a cohort of an endpoint exactly when it is admitted and its market offers enabled work for it there |
| Planner.CohortHoldsItsOwn | src/crypto_collector/config/probe_contracts.py:1959-2010 | a cohort holds exactly the admitted instruments with enabled snapshots whose depth, interval and policy it has and whose market offers work of that depth with its endpoint, cost and jobs |
| Planner.WorkHasItsCohort | src/crypto_collector/config/probe_contracts.py:1959-2010 | every admitted instrument with enabled snapshots is in a cohort for each workload of its depth |
| Planner.AvailableRate | src/crypto_collector/config/probe_contracts.py:2033-2075 | the available rate is the sum of the endpoint's budgets over all quota groups, and is missing exactly when one of them is |
| Planner.AllocateIntervals | src/crypto_collector/config/probe_contracts.py:1934-2206 | a successful allocation plans every endpoint of every cohort inside its budget; a rejection and every failed market come with their cause at the first endpoint in name order that cannot be planned: no budget, or demands that do not fit; or with a market that offers no work |
| Planner.AdmissionAccounts | src/crypto_collector/config/probe_contracts.py:799-828 | each selected instrument is in exactly one of admitted, capacity-rejected and REST-rejected, and no fixed or fail-policy one is rejected |
| Planner.AccountedMeans | src/crypto_collector/config/probe_contracts.py:799-828 | a selected instrument is in exactly one of the three classes, and one that is not admitted is neither fixed nor under a fail policy |
| Planner.FixedNeedMeans | src/crypto_collector/selection/capacity.py:428-436 | a market needs connections for fixed candidates exactly when it has a fixed instrument that is not rejected |
| Planner.RefusesFailPolicyMeans | src/crypto_collector/selection/capacity.py:464-481 | a share turns away a fail-policy candidate exactly when an instrument under a fail policy, not rejected, is among the first to go at that share |
| Planner.PlanShardsDisjoint | src/crypto_collector/config/probe_contracts.py:1755-1826 | in a plan two shards of the reports never share a physical connection |
| Planner.AttemptPlan | src/crypto_collector/config/probe_contracts.py:1469-1578 | one pass finishes a complete plan, rejects the evictable instrument that goes first on an endpoint that does not fit, or drops markets that cannot be carried, lack work or budget, or have nothing left to give |
| Planner.ComposeExchange | src/crypto_collector/config/probe_contracts.py:1469-1578 | the retry loop always ends; every step it takes is justified; every market is planned or failed but not both, and the plan polls exactly the admitted instruments over connections granted once |
| Planner.MarketsInNameOrder | src/crypto_collector/config/probe_contracts.py:1490-1496 | the active markets are taken in the order of their names |
| Planner.FailuresHaveTheirSteps | src/crypto_collector/config/probe_contracts.py:1489-1566 | in every run each recorded failure has the code of the step that dropped its market, and each dropped market has a failure recorded |
| Framing.LinesAndTail | src/crypto_collector/benchmarks/artifacts.py:592-638 | the lines and the unfinished tail of any bytes are those bytes again |
| Framing.LinesEndOnce | src/crypto_collector/benchmarks/artifacts.py:592-638 | every line ends with the only newline in it |
| Framing.ReadJsonl | src/crypto_collector/benchmarks/artifacts.py:549-638 | for every cut of the bytes, success is decided by the content alone and yields its lines in order; a failure yields only a prefix |
| TraceMerge.ReadPartition | src/crypto_collector/benchmarks/artifacts.py:664-690 | a partition is accepted exactly when its keys strictly increase and its rows belong to it |
| TraceMerge.MergePartitions | src/crypto_collector/benchmarks/artifacts.py:710-790 | the merge succeeds exactly when no event id repeats and rows and bytes are as recorded and within the bounds, and is then the strictly sorted arrangement of all rows |
| Spool.SpoolAdvances | src/crypto_collector/benchmarks/runner.py:1095-1112 | taking or skipping a second keeps every row of the schedule in place |
| Spool.InSecondMeans | src/crypto_collector/benchmarks/runner.py:1095-1112 | the partition of a second holds exactly the rows due in it |
| Spool.SpoolBuilder.PrepareNext | src/crypto_collector/benchmarks/runner.py:1095-1112 | the next partition holds exactly the rows of its second; only a complete spool refuses |
| Spool.SpoolBuilder.Finish | src/crypto_collector/benchmarks/runner.py:1122-1134 | a finished spool's partitions concatenate to the schedule, and finishing fails exactly when rows are missing, late or absent |
| Spool.PrepareExchangeSpool | src/crypto_collector/benchmarks/runner.py:1179-1190 | the whole spool is built exactly when every row is due in the run and there is one |
| Chunks.GreedyIsUnique | src/crypto_collector/benchmarks/runner.py:640-757 | rows have exactly one greedy chunking |
| Chunks.GreedyIsFewest | src/crypto_collector/benchmarks/runner.py:690-745 | no other way to cut the rows into chunks of at most 1024 rows and 8 MiB of payload takes fewer chunks |
| Chunks.ReplayIsFewest | src/crypto_collector/benchmarks/runner.py:602-757 | a replay yields as few chunks as any such way to cut its rows |
| Chunks.TakeRow | src/crypto_collector/benchmarks/runner.py:690-745 | one row is added with every bound, the greedy rule and the held-back last chunk preserved |
| Chunks.ReplayPartition | src/crypto_collector/benchmarks/runner.py:602-757 | for every cut of the bytes, exactly when a replay succeeds; its chunks hold the rows in order, keep both bounds, and only the final one is marked last |
| Chunks.SameRowsSameChunks | src/crypto_collector/benchmarks/runner.py:448-477 | two successful replays of the same rows yield the same chunks |
| Cuts.PassesEveryCut | src/crypto_collector/benchmarks/runner.py:640-748 | a content passes the line check under every cut of its bytes exactly when no line is more than one byte over the bound, also when the cuts are limited to reads |
| Cuts.PassesSomeReads | src/crypto_collector/benchmarks/runner.py:640-748 | it passes under some reads exactly when no line is over the bound by more than one read |
| Cuts.LongLinesDependOnReads | src/crypto_collector/benchmarks/runner.py:640-748 | it passes under some reads and fails under others exactly when it has a line more than one byte over the bound and none more than one read over |
| SpoolFiles.WritePartition | src/crypto_collector/benchmarks/runner.py:953-1037 | the writer stops exactly at a line over its bound; otherwise the file holds the encoded rows in order, with their true facts |
| SpoolFiles.ReplaySecond | src/crypto_collector/benchmarks/runner.py:602-757 | a written second is replayed as exactly its rows under every cut of its bytes, unless a payload is over the reader's bound |
| SpoolFiles.WriteAndReplay | src/crypto_collector/benchmarks/runner.py:1095-1134 | the spool of a schedule is written and replayed exactly when all rows are due in the run, there is one, and lines and payloads keep their bounds; its chunks are then a valid run of exactly that schedule |
| Pipeline.StepKeeps | src/crypto_collector/benchmarks/runner.py:1881-2404 | every step of every stage, and an abort anywhere, keeps the pipeline invariant |
| Pipeline.RunIsSafe | src/crypto_collector/benchmarks/runner.py:1881-2404 | in every reachable state the traced rows and the rows in transit are a prefix of the schedule, the queues hold at most 3, 2 and 1 items, at most five spool files exist and no check, of order or of row counts, has failed |
| Pipeline.EndedRunTracesSchedule | src/crypto_collector/benchmarks/runner.py:2102-2134 | a run whose trace writer ended has traced the whole schedule, strictly increasing across seconds, and decoded and attempted exactly as many rows |
| Checks.UnrefusedRowsAscend | src/crypto_collector/benchmarks/runner.py:1990-2100 | whatever the chunks hold, as long as no check fails the traced rows increase strictly by due time and id within each second, and the chunk at hand is the one its second expects |
| Checks.UnrefusedReaderIsInPlace | src/crypto_collector/benchmarks/runner.py:1881-1960 | whatever the chunks hold, as long as no check fails the reader holds the chunk its partition expects, no finished partition is empty, and at its end it has decoded as many rows as the schedule has |
| Checks.UnrefusedRunIsComplete | src/crypto_collector/benchmarks/runner.py:2102-2134 | whatever the chunks hold, a run that ends without a failed check has attempted and traced as many rows as the schedule has |
| Pipeline.ReplayedSpoolIsValidRun | src/crypto_collector/benchmarks/runner.py:2187-2404 | chunks that hold the rows of every second of a finished spool are a valid run of its schedule |
| Progress.NeverStuck | src/crypto_collector/benchmarks/runner.py:1881-2404 | in every reachable state that is neither aborted nor finished some stage can move |
| Progress.MovesLessen | src/crypto_collector/benchmarks/runner.py:1881-2404 | every move of any stage lessens the work that is left, and nothing else changes it |
| Progress.EveryRunEnds | src/crypto_collector/benchmarks/runner.py:1881-2404 | every run takes at most a fixed number of moves, and one that was not aborted and can move no more has traced the whole schedule |
| WorkloadRun.PrepareExchangeRun | src/crypto_collector/benchmarks/runner.py:1179-1190 | for every valid workload and exchange, generation, spooling and replay give a valid pipeline run over exactly the exchange's schedule, unless it has no rows or a line or payload is over its bound |
| WorkloadRun.PlannedRowsAreTraced | src/crypto_collector/benchmarks/runner.py:1881-2404 | every such run that was not aborted and can move no more has traced exactly the rows planned for the exchange, in order |
| Buckets.ValidateTrace | src/crypto_collector/benchmarks/runtime_verifier.py:790-912 | the trace is accepted exactly when it repeats the planned facts in order and number, and every bucket then holds its reference counts |
| Buckets.BucketsByRows | src/crypto_collector/benchmarks/runtime_verifier.py:856-903 | each counter of a bucket counts the rows of its group with the times it stands for: due in its second, begun early, completed late, begun or completed outside the run, or accepted and completed in its second |
| Buckets.BucketsPassContract | src/crypto_collector/benchmarks/contracts.py:371-397 | every recomputed bucket satisfies the bucket contract |
| Buckets.RefusedBuckets | src/crypto_collector/benchmarks/contracts.py:371-397 | exactly which buckets the contract refuses |
| Buckets.BucketsConserve | src/crypto_collector/benchmarks/runtime_verifier.py:856-903 | summed over the run, each field counts every row and byte of the group exactly once |
| Buckets.ActualDecomposes | src/crypto_collector/benchmarks/runtime_verifier.py:894-903 | when nothing is early or late, a second's admissions are its own rows that complete in it and the spill of the second just before |
| Buckets.BurstSecondIsPlannedBurst | src/crypto_collector/benchmarks/runtime_verifier.py:1976-2046 | for every conforming trace the burst second schedules exactly the planned burst |
| Buckets.BurstSecondAdmissions | src/crypto_collector/benchmarks/runtime_verifier.py:894-903 | the burst second's actual admissions are its accepted rows and exactly the spilled accepted rows of the preceding second |
| Buckets.BurstValidExactly | src/crypto_collector/benchmarks/contracts.py:1186-1196 | for a conforming trace without early or late rows, the burst flag holds exactly when the whole burst is accepted and nothing spills into its second |
| Buckets.CleanRunLosesBurstExactly | src/crypto_collector/benchmarks/contracts.py:1186-1196 | a run in which every row is accepted, on time and in the window can lose the burst flag exactly when the plan has a smooth row of the stream strictly inside the second before the burst |
| Buckets.SpillLosesTheBurst | src/crypto_collector/benchmarks/contracts.py:1186-1196 | in every valid workload with a given control stream on all five exchanges, wherever its burst is but for the first second, there is a conforming trace, every row accepted, on time and in the window, whose recomputed buckets lose the flag |
| Buckets.SlowControlSpills | src/crypto_collector/benchmarks/oracle.py:1275-1290 | that stream has a smooth row strictly inside the second before its burst exactly when the burst is not in the first second |
| Buckets.SlowControlIsInAWorkload | src/crypto_collector/benchmarks/oracle.py:593-621 | whatever seconds are drawn for the bursts, there is a valid workload of all groups in declared order, on all five exchanges and with the markets each group declares, that has this control stream |
| Buckets.SummaryFlagsExactly | src/crypto_collector/benchmarks/runtime_verifier.py:1962-2046 | planned values match for every conforming trace, and admission values match exactly when every row of the stream is accepted, on time and in the window |
| Join.JoinDatabase.AddAccepted | src/crypto_collector/benchmarks/runner.py:1235-1257 | a row is inserted exactly when its identity is present and none of its three unique keys is taken; otherwise nothing changes |
| Join.JoinDatabase.AddDurable | src/crypto_collector/benchmarks/runner.py:1259-1286 | a row is inserted exactly when neither of its unique keys is taken; otherwise nothing changes |
| Join.NoDisagreementIsExactJoin | src/crypto_collector/benchmarks/runner.py:1290-1312 | the two outer joins report nothing exactly when the tables pair up |
| Join.JoinedMeans | src/crypto_collector/benchmarks/runner.py:1290-1380 | finalisation accepts exactly the tables with the same keys whose rows have the same worker, event, payload digest and size, one configuration per worker, and no ordinal negative or missing below another |
| Join.ExactJoinConserves | src/crypto_collector/benchmarks/runner.py:1290-1322 | an exact join has equal row counts, byte totals, per-worker keys and event sets |
| Join.EndsDecideContiguity | src/crypto_collector/benchmarks/runner.py:1370-1378 | unique ordinals are exactly 0, ..., n - 1 if and only if their minimum is 0 and their maximum n - 1 |
| Join.JoinDatabase.Finalize | src/crypto_collector/benchmarks/runner.py:1288-1396 | finalisation succeeds exactly when the tables hold the same keys with the same worker, event, payload digest and size, every worker has one configuration and contiguous ordinals, and returns their true facts |
| Join.JoinedRunIsWhole | src/crypto_collector/benchmarks/runner.py:1288-1396 | after it, the worker counts sum to the durable rows, bytes agree, and every ordinal of every worker is durable |
| Join.CompleteDurableSetExactly | src/crypto_collector/benchmarks/runtime_verifier.py:1932-1959 | the verifier's four counts hold exactly for one key set of the expected size; the fourth follows from the others |
| Publication.LinkKeeps | src/crypto_collector/benchmarks/provenance.py:849-900 | linking a completely written document keeps every published pair consistent |
| Publication.RunKeeps | src/crypto_collector/benchmarks/runtime_verifier.py:2350-2439 | over any run of racing and crashing verifiers the invariant holds and no published document changes |
| Publication.PublishedPairsHold | src/crypto_collector/benchmarks/provenance.py:1049-1164 | an index stands beside its receipt and binds its bytes; an acceptance stands beside the provenance receipt it names |
| Publication.CompletedPairIsUnique | src/crypto_collector/benchmarks/runtime_verifier.py:2816-2840 | any two verifiers that complete, at any points of a run, completed the same receipt and index |
| Publication.CompletedOutcomeIsOwn | src/crypto_collector/benchmarks/runtime_verifier.py:2816-2840 | a runtime verifier that completes evaluated exactly once and got the outcome its receipt records |
| Publication.ConflictNeverCompletes | src/crypto_collector/benchmarks/runtime_verifier.py:2826-2834 | once a receipt is published, a verifier whose evaluation gives another outcome never completes |
| Publication.FirstCompletes | src/crypto_collector/benchmarks/runtime_verifier.py:2840-2956 | the first verifier, alone in a fresh directory, publishes the receipt of its own outcome and time and completes the pair |
| Publication.CompletedAcceptanceIsUnique | src/crypto_collector/benchmarks/provenance.py:1130-1164 | the same for provenance receipt and acceptance |
| Publication.CompletedFactsAreOwn | src/crypto_collector/benchmarks/provenance.py:1090-1164 | a provenance verifier that completes inspected exactly once and got the facts its documents record, at a time between the archive and the clock |
| Publication.CompletionIsCertified | src/crypto_collector/benchmarks/runtime_verifier.py:2350-2439 | whatever a directory held before, a verifier that completes stands before a receipt of its own run, an index that binds it and the run index, or a provenance receipt naming an agreeing pair and its acceptance |
| Publication.ForeignDocumentsBlock | src/crypto_collector/benchmarks/runtime_verifier.py:2371-2417 | beside an index that was there without a receipt no receipt is ever published, and beside an acceptance that was there only the provenance receipt it names |
| Publication.IndexErrorsAreUnreachable | src/crypto_collector/benchmarks/runtime_verifier.py:2371-2417 | in a directory only verifiers write, an index without its receipt and a conflicting index are never met |
| Publication.RetryCompletes | src/crypto_collector/benchmarks/runtime_verifier.py:2873-2956 | wherever a verifier crashed after its receipt, a retry that recomputes the same outcome completes the pair |
| Publication.RetryCompletesAcceptance | src/crypto_collector/benchmarks/provenance.py:1049-1164 | wherever a verifier crashed after its provenance receipt, a retry that recomputes the same facts, with a clock not behind the recorded time, completes the acceptance that names it |
| Histogram.NearestRank | src/crypto_collector/benchmarks/aggregation.py:382-396 | the accumulating loop returns the nearest-rank bound and never falls through |
| Histogram.QuantileIsLeastCover | src/crypto_collector/benchmarks/contracts.py:621-637 | the quantile is the least bucket bound whose buckets hold the required share |
| Histogram.QuantilesMean | src/crypto_collector/benchmarks/contracts.py:640-675 | in a valid summary half, 95 and 99 percent of the samples lie up to the quantiles and not in fewer buckets, the quantiles ascend and the maximum lies with the last sample |
| Histogram.MergedConserves | src/crypto_collector/benchmarks/aggregation.py:417-420 | merging histograms conserves samples |
| Histogram.MergedQuantileBetween | src/crypto_collector/benchmarks/aggregation.py:417-454 | the merged quantile lies between the smallest and largest quantile of the nonempty workers |
| Histogram.MergedMaximumFits | src/crypto_collector/benchmarks/contracts.py:661-675 | the merged maximum lies in the highest nonempty bucket |
| Histogram.MaximumFitsExactly | src/crypto_collector/benchmarks/contracts.py:661-675 | which maxima the contract takes: there is one exactly when there is a sample, and it is within a bound exactly when no higher bucket holds a sample |
| Histogram.MergedSummaryIsValid | src/crypto_collector/benchmarks/contracts.py:640-675 | merged counts, recomputed quantiles and largest maximum always satisfy the summary contract |
| Rounds.ValidateWorkerRounds | src/crypto_collector/benchmarks/aggregation.py:257-379 | the loops accept exactly the runs in which every round passes every check, those of the snapshots' own validator included, and return each worker's samples |
| Rounds.AnyTwoRounds | src/crypto_collector/benchmarks/aggregation.py:172-226 | between any two rounds identity and configuration stay, counters, series, buckets and maxima never decrease, and equal times mean identical snapshots |
| Rounds.NothingFalls | src/crypto_collector/benchmarks/aggregation.py:172-226 | between any two rounds no counter, bucket or maximum of a worker falls, and every series goes on with no fewer samples |
| Rounds.SamplesInPlace | src/crypto_collector/benchmarks/aggregation.py:276-312 | every round has its place, only the last is final, and every sample repeats its round's facts and comes from the worker at its place |
| Rounds.SnapshotConserves | src/crypto_collector/storage/models.py:510-686 | in a valid snapshot what was accepted is durable, queued, buffered, in flight or uncertain, and what is durable has been sampled as often as its series say |
| Rounds.SnapshotStates | src/crypto_collector/storage/models.py:510-686 | admission is open while accepting and shut in every other state but rotation, a reason goes with a critical state, a closed worker is idle and empty, counts and bytes vanish together, and no series appears twice |
| Rounds.SeriesAddUp | src/crypto_collector/storage/models.py:510-686 | the buckets of the series add up to those of the worker, and its maximum is their greatest |
| Rounds.AcceptedRunIsClean | src/crypto_collector/benchmarks/aggregation.py:229-246 | no worker is critical in any round or closed before the last, the uncertain count is always zero, and everything accepted in any round is durable at the end |
| Rounds.EndsDrained | src/crypto_collector/benchmarks/aggregation.py:229-246 | an accepted run ends with every worker closed, idle and empty and all its records durable |
| Rounds.SomeRunsAreAccepted | src/crypto_collector/benchmarks/aggregation.py:257-379 | there are accepted runs of any length in which every worker holds an unpersisted record until the last round |
| Rounds.RoundsDoNotOverlap | src/crypto_collector/benchmarks/aggregation.py:363-369 | the intervals of any two rounds are disjoint and in order |
| Rounds.RequestsDoNotOverlap | src/crypto_collector/benchmarks/aggregation.py:363-369 | without overlap every request of a round is completed before any request of a later round starts |
| Rounds.AggregateIsValid | src/crypto_collector/benchmarks/contracts.py:721-746 | the aggregate of every accepted run satisfies its contract |
| Rounds.ConsistentAggregates | src/crypto_collector/benchmarks/contracts.py:721-746 | exactly which aggregates satisfy the contract |
| Rounds.AggregateSumsCounters | src/crypto_collector/benchmarks/aggregation.py:409-416 | each counter of the aggregate is the sum of the five workers' counters at the end |
| Rounds.AggregateMergesBuckets | src/crypto_collector/benchmarks/aggregation.py:417-420 | each bucket of the aggregate is the sum of the five workers' buckets at the end |
| Rounds.AggregateTakesPeaks | src/crypto_collector/benchmarks/aggregation.py:426-432 | the peak of a gauge is the greatest sum over the workers in any round |
| Rounds.AggregateTakesSlowestSync | src/crypto_collector/benchmarks/aggregation.py:461-463 | the slowest sync is the greatest that a worker reports at the end |
| Rounds.AggregateTakesOldest | src/crypto_collector/benchmarks/aggregation.py:433-438 | the oldest age is the greatest that any worker reports in any round, if any does |
| Regression.NumeratorIsPairs | src/crypto_collector/benchmarks/aggregation.py:525-527 | the numerator is the sum over all pairs of the products of their differences |
| Regression.DenominatorIsPairs | src/crypto_collector/benchmarks/aggregation.py:528 | the denominator is the sum of the squared differences over all pairs |
| Regression.OriginDoesNotMatter | src/crypto_collector/benchmarks/aggregation.py:521-528 | the slope does not depend on the time origin |
| Regression.TrendNeverRefused | src/crypto_collector/benchmarks/aggregation.py:529-546 | for strictly increasing times the denominator is positive, so the error is unreachable, and the trend is the clamped slope |
| Regression.GrowingMemoryNotClamped | src/crypto_collector/benchmarks/aggregation.py:531-532 | memory that never shrinks gives a slope that is not negative |
| Regression.SlopeBetweenNeighbours | src/crypto_collector/benchmarks/aggregation.py:525-546 | the slope lies between the slopes of two neighbouring pairs of rounds |
| Resources.SummaryValidExactly | src/crypto_collector/benchmarks/contracts.py:770-823 | exactly when the summary of checked rounds satisfies its validator; its regression is never refused |
| Resources.ConsistentSummaries | src/crypto_collector/benchmarks/contracts.py:770-823 | exactly which summaries satisfy the validator: the gap is positive from two rounds on, descriptor figures exist from one round after warm-up and a slope from two, and the growth is the rise of the greatest total above the first |
| Resources.SummarizeResources | src/crypto_collector/benchmarks/aggregation.py:549-696 | over the rounds' intervals and totals, the loop succeeds exactly when neighbouring rounds pass every check and the first request comes no later than the last completion, and returns the reference summary |
| Resources.SummaryOfAllRounds | src/crypto_collector/benchmarks/aggregation.py:658-684 | the summary runs from the first request of the first round to the last completion of the last, with the greatest gap and the greatest totals of any round |
| Resources.DescriptorsAfterWarmup | src/crypto_collector/benchmarks/aggregation.py:658-669 | the first descriptor total is that of the earliest round after warm-up, the final one that of the last round, and the growth is the greatest rise above the first |
| Resources.WarmUpEnds | src/crypto_collector/benchmarks/aggregation.py:661-661 | in rounds of increasing times those after warm-up are the last ones, from some place on |
| Resources.TrendAfterWarmup | src/crypto_collector/benchmarks/aggregation.py:658-684 | the trend is that of the rounds scheduled at or after the end of warm-up, and valid exactly when there are two |
| Sampling.SummarizeRounds | src/crypto_collector/benchmarks/aggregation.py:549-696 | exactly when a run's rounds are summarised: canonical processes in order, distinct and stable process ids, samples that repeat their round's facts, and the checks between rounds; the summary is that of their intervals and totals |
| Sampling.SummarisableMeans | src/crypto_collector/benchmarks/aggregation.py:575-651 | every sample of such rounds repeats its round's facts and keeps its process and id, which no other process of the round has; rounds are due in order and do not overlap unless allowed |
| Sampling.RowMeans | src/crypto_collector/benchmarks/aggregation.py:624-657 | a round lasts from its earliest request to its latest completion, and its totals are the sums over its six processes |
| Sampling.OverlapCanBeRefused | src/crypto_collector/benchmarks/aggregation.py:646-651 | two overlapping rounds of the six canonical processes, with distinct and stable ids, that pass every check but whose summary is refused |
| Resources.NonoverlappingRoundsSummarise | src/crypto_collector/benchmarks/aggregation.py:653-696 | rounds that do not overlap always give a valid summary |

## Left out

- Payload text and its padding; an event's payload size is any function of its id.
- The choice of the burst second from a hash; the model takes the burst second of a validated plan.
- SHA-256, SHAKE, compression, JSON and SQLite; only unique keys, joins and injective digests remain.
- File descriptors, fsync, permissions, symbolic links, process control and clocks.
- Time limits of the queues, the event-loop scheduling of the stages and the retry of a single full
  queue: a stage that cannot move takes no step.
- The packing of instruments into shards and their hashing; a shard is its egress and its index there.
- Planner.BuildCohorts: does not fix the order of the cohorts of one endpoint nor the order of keys
  inside a cohort, because the rate arithmetic does not depend on either.
- The text of failures and the detail fields of a REST rejection beyond its reason.
- Buckets.ValidateTrace: buckets are values in a map, so the verifier's mutable bucket objects and
  their aliasing are not modelled; event identity fields are folded into the compared facts.
- Join.JoinDatabase.Finalize: worker rows come as a map, not in text order, and the hours as a set.
- The formats of digests, names and enumerations: such fields are typed values here.
- Rounds.AggregateIsValid: the aggregate keeps the counters, the histogram, the peaks and the oldest
  age; fields that are copied without a check are left out.
- Regression.TrendNeverRefused: the slope is the exact fraction, before rounding to fifty digits.
- SpoolFiles.WriteAndReplay: a row's payload size is not tied to the length of its line, so the reader's
  bound on payloads stays a condition beside the writer's bound on lines.
- The writer of compressed trace and evidence files; of the writers only the spool's is modelled.
- Publication.RunKeeps: the target re-probe and the provenance evidence are opaque parameters of a step.
- Storage-health summaries, archive inventories, image reproduction and label checks: single-branch
  comparisons.
- Configuration loading, command line, capability registry and secret handling: wiring.
