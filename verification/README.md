# Durable state, exact rollups and fast rules of the fiscal platform backend

This project models the parts of the backend that keep state through crashes, roll a hierarchy
up, or replace a slow rule by a faster one, and proves what they promise. `dafny verify
dfyconfig.toml` checks everything. Names of entities, phases and states are the repository's own.

## What is modelled

**The ingestion job.** `JobProtocol` is a transition system around one row of `op.ingest_job`: any
number of executors, duplicate deliveries, queue callbacks, maintenance rounds and users act on it, one
committed transaction per event, and an executor may die between any two events. `JobInvariant` states
the invariant that makes `_retry_plan` complete: outside `executando`, either nothing was ever reported,
or a system error other than `pos_job` is recorded, or the items cover every unit and the failed ones
are exactly what is left. `JobRuns` proves results over whole runs, from the attempts built in
`JobTentativas`, and `JobRow` proves that the code's field-by-field updates are exactly those steps;
`JobRoteiro` says what one delivery leaves and `JobTotais`, over `JobDistintos`, what attempts and
totals mean. `FilaRq` is the Redis side: unique deliveries, tombstones and the maintenance round, which
`RodadaFila` reads as steps of the protocol. `JobForeign` says exactly what a failure written by someone
else can cost, from the runs built in `JobForeignRuns`. `Backfill` is the batch sibling with its
checkpoint file, which is truncated and rewritten in place, so a save may end, fail or be killed
half-way; `BackfillRun` is one run as a function, `BackfillInvariant` what its turns keep and
`BackfillDesfechos` what a run did in terms of its units and their outcomes.

**Chart of accounts and rollup.** `Pcasp` is the algebra of positional codes. `Rollup` is the fold that
posts each account to all its ancestors, `RollupCheck` the rows it leaves and the checker that
reconciles them, `RollupPeso` the weight of an account at a node and `RollupGap` what the checker finds
on those rows, `Contas` the materialised paths and the registration order, `Descricoes` which of the
sources names an account.

**History, limits and caches.** `Entregas` is the bitemporal table of deliveries and `ContextoNoTempo`
the accounting context read over it, `CoorteHistorico` the version table kept by two triggers, `Janela`
the sliding window behind the login brake, `ContextoCache` the LRU and TTL cache of accounting contexts,
`Escopo` the memoised tenant scope, `Desempenho` the rolling P95, `Periodo` the fiscal calendar,
`Hierarquia` drill-down and breadcrumbs.

Amounts are integers in cents; instants are integers or reals; dictionaries and lists that the code
mutates are fields and local variables of methods, proved against functions of the old state.

## What was found

- A request may list a year twice (`anos` is not deduplicated; entities are), and so may a replay its
  periods. Then a success can be planned again: "no success is redone" holds exactly when the job names
  no unit twice.
- The total of a new row counts entities times keys. For an aggregated source and for bcb, which have fewer units,
  and for a replay of no periods it is not the number of units; the first claim corrects it.
- The handler of a claim that raised, and the callbacks of an old delivery, write `falhou` without
  checking who owns the row. Two executors can meet later exactly when the write falls on a live one.
  A unit can later be missed, and a recorded success can later be dropped, exactly when that executor
  still has a unit to report or has reported a failure; without repeated units, exactly when some unit has
  no success yet. On any other state the write costs nothing. Reachability excludes exactly the writes
  on live executors.
- The backfill's checkpoint is truncated and then written. A kill or an error in between leaves a file that
  `load` cannot read: every saved key is lost and no later run starts. Whatever else fails, and whenever the
  process dies, the promise of the file (only committed keys, at most `save_every` of them missing) holds
  exactly when the last save that opened the file finished.
- A maintenance round looks at 10 000 waiting jobs: every waiting job is live after it exactly when
  those beyond that number already were.
- A code with a zero segment above a non-zero one lists an ancestor twice, and the fold adds its
  balance twice there. The general form is proved with multiplicities, and exactness holds for a code
  exactly when it has no such segment. The reconciliation then objects to its own rows: for given accounts
  it is silent whatever the amounts exactly when no code has such a segment and none is above another.
- A stored path is the parent's path plus the own label exactly when the parent is one level above.
- A DCA's description is meant to win over the glossary's. It does against every MSC, which passes the present
  description on; a later DCA that only implies the account puts the glossary's name back, and that is the
  one case in which the name is lost without another DCA naming the account.
- An UPDATE of a cohort leaves a tiling exactly when the clock moved past the open version; a repeated
  instant is refused by the unique constraint, a clock set back leaves versions that tile no history.
  A new version keeps codes unambiguous at every instant exactly when no version with its code is in force
  from its start on; one clock for all cohorts ensures it, a row inserted with an older timestamp may not.
- `as_of` orders deliveries by their instant alone. Two versions with the same instant leave the answer open:
  the version in force is then not the only answer, and pinning its instant holds through a later registration
  exactly when that one has another instant.
- `mais_recente` puts unreadable text last and therefore returns it: the answer can be read exactly when every
  text can.
- The login brake's waiting time always expires the oldest failure; it unblocks the key exactly when
  no more failures are queued than the limit, or the `limite`-th newest has left as well. The middleware,
  taken request by request, never queues more than the limit.
- The gate and the set of the tenant scope differ on one family: a seven-digit code of a monitored state
  that is in neither the portfolio nor the catalogue. Gate and set do agree on everything in those two
  tables even when other memoised values are stale, as long as the memoised portfolio is not.
- `breadcrumb_of` says that it excludes the node itself. On a cycle it lists the node too; it is there
  exactly when the node is its own ancestor.
- Going back as many periods as a year has equals the same period of the year before exactly while the
  years passed through keep four digits: year 999 is written `999`, which `parse` refuses. For the same
  reason going to the bimester and back closes exactly from the year 1000 on.

## Model

| member | source | states |
|---|---|---|
| IngestJob.UnitsOfRequest | src/app/workers/ingest_jobs.py:553-569 | bcb has one unit; any other job is the grid of its entities (`BR` alone when aggregated) and its keys, entity by entity: a replay's periods, or years, else periods, else `global` |
| IngestJob.GridMembers | src/app/workers/ingest_jobs.py:569 | the units of a grid are exactly the pairs of an entity and a key |
| IngestJob.ReplayExample | src/app/workers/ingest_jobs.py:554-569 | a replay of one period is that unit, though it has no years |
| IngestJob.NewTotalIff | src/app/modules/ingestion/jobs_service.py:345-404 | where each entity has its own deliveries, a new row's total is the number of its units exactly when it has a key or at most one entity |
| IngestJob.AggregatedTotalExample | src/app/modules/ingestion/jobs_service.py:390-404 | an aggregated source counts its entities, though they are one unit |
| IngestJob.AllUnitsNoDup | src/app/workers/ingest_jobs.py:553-569 | the job's units repeat exactly when an entity or a key repeats |
| IngestJob.OnlyKeysRepeat | src/app/modules/ingestion/jobs_service.py:64-83 | entities are stored without repeats, so units repeat exactly when a key does |
| IngestJob.RepeatedYearExample | src/app/workers/ingest_jobs.py:556-558 | a year asked for twice is two equal units |
| IngestJob.PendentesMembers | src/app/workers/ingest_jobs.py:583-596 | the pending units are the units without a success, no other |
| IngestJob.FalhosOfReport | src/app/workers/ingest_jobs.py:578-596 | failed items of a full report are exactly the pending units of the next plan, in order |
| JobInvariant.PlanCovers | src/app/workers/ingest_jobs.py:572-596 | whichever branch the plan takes on a resumable checkpoint, it keeps every success and runs every other unit |
| JobInvariant.InitialInv | src/app/modules/ingestion/jobs_service.py:390-408 | a new job satisfies the invariant behind the plan |
| JobInvariant.StepKeepsInv | src/app/workers/ingest_jobs.py:657-849 | every event (claim, unit commit, failure, crash, recovery, retry) keeps it |
| JobInvariant.RunKeepsInv | src/app/workers/ingest_jobs.py:657-849 | so does every run |
| JobInvariant.CompleteAtEnd | src/app/workers/ingest_jobs.py:776-801 | when the last unit has reported, the items cover every unit and the failed ones are exactly what is left |
| JobInvariant.FailedIsRetriable | src/app/modules/ingestion/jobs_service.py:592-603 | a failed job always has something to retry |
| JobInvariant.NoUnitLost | src/app/workers/ingest_jobs.py:572-601 | in every reachable waiting or failed state the next attempt runs every unit without a success and keeps every success |
| JobInvariant.PlanExact | src/app/workers/ingest_jobs.py:572-601 | without repeated units it runs exactly those, in the job's order |
| JobInvariant.NoSuccessRedone | src/app/workers/ingest_jobs.py:699-768 | the unit a live executor runs next has no recorded success |
| JobInvariant.ConcludedMeansAllDone | src/app/workers/ingest_jobs.py:780-801 | a concluded job has a success for every one of its units |
| JobInvariant.SuccessesAreMonotone | src/app/workers/ingest_jobs.py:699-801 | no run ever forgets a success |
| JobTotais.AttemptsAreClaims | src/app/modules/ingestion/jobs_repository.py:41-60 | in any run the attempts count the claims and the start is that of the last one |
| JobTotais.TotalIsJobSize | src/app/workers/ingest_jobs.py:675-681 | without repeated units no unit is reported twice in a reachable state, and the total of a running or concluded attempt is the number of units of the job |
| JobProtocol.PhaseOfAbort | src/app/workers/ingest_jobs.py:667-845 | the phase an exception leaves behind names the unit being run or just reported, or the preparation before any, or the end after all |
| JobRuns.ExclusionIffLease | src/app/workers/ingest_jobs.py:410-422 | two live executors are unreachable if and only if the lease is at least the job timeout |
| JobRuns.DeployedLeaseExcludes | src/app/workers/ingest_jobs.py:35-36 | the deployed timeout and grace satisfy that, and a live executor implies `executando` |
| JobRuns.ForeignFailureIffLive | src/app/workers/ingest_jobs.py:810-849 | a failure written by someone else lets two executors meet later if and only if the job has a live executor |
| JobForeign.ForeignFailureLosesIff | src/app/workers/ingest_jobs.py:810-849 | some continuation misses a unit, and some continuation drops a success, if and only if the write fell on a live executor with a unit to report or a failure reported |
| JobForeign.UnfinishedIffPending | src/app/workers/ingest_jobs.py:572-596 | without repeated units that is: a live executor, and some unit without a success |
| JobForeign.UnfinishedCanLose | src/app/workers/ingest_jobs.py:168-205 | how: retries and claims under the unfinished executor reach a row that looks fresh, and then one that hides every unit |
| JobForeign.DoneLosesNothing | src/app/workers/ingest_jobs.py:572-596 | once every unit succeeded and nothing is left to report, no continuation loses anything |
| JobRuns.ForeignFailureLosesUnits | src/app/workers/ingest_jobs.py:168-205 | the shortest case: one late unit commit after the write, and the next attempt skips a unit |
| JobRuns.RepeatedUnitIsRedone | src/app/workers/ingest_jobs.py:583-596 | a job that names a unit twice can reach a state that plans a success again |
| JobRuns.NothingRedoneIffNoDup | src/app/workers/ingest_jobs.py:572-596 | no reachable plan redoes a success if and only if no unit is named twice |
| JobRuns.BackToQueue | src/app/workers/ingest_jobs.py:410-456 | from any state of a job not cancelled nor concluded, some run brings it back to the queue |
| JobRuns.CanAlwaysConclude | src/app/workers/ingest_jobs.py:657-849 | no reachable state is a dead end: some run concludes the job with every unit done |
| JobRuns.StepKeepsCounters | src/app/workers/ingest_jobs.py:675-801 | counters equal the counts in the result, their sum stays within the total, progress never falls within an attempt and stays at 90 until the final commit |
| JobRuns.CountersAlwaysHold | alembic/versions/0029_sprint24_job_integrity.py:57-80 | the table's constraints hold in every reachable state |
| JobRow.IngestJobRow.MarkActiveFailure | src/app/workers/ingest_jobs.py:168-205 | writes exactly the protocol's callback step, and nothing once the status no longer matches |
| JobRow.IngestJobRow.QueueFailure | src/app/workers/ingest_jobs.py:334-363 | writes exactly the queue-failure step: only on a job still waiting |
| JobRow.IngestJobRow.RequeueAbandoned | src/app/modules/ingestion/jobs_repository.py:190-219 | requeues exactly an expired execution and marks it abandoned |
| JobRow.IngestJobRow.RetryJob | src/app/modules/ingestion/jobs_service.py:577-615 | accepts exactly a failed job with something to do, from someone allowed to start one on entities still in scope, keeps its result and resets its counters; each refusal has its reason |
| JobRow.ValidarEntesNoEscopo | src/app/modules/ingestion/jobs_service.py:139-157 | finds the first entity out of scope, or none exactly when all are in it |
| JobRow.IngestJobRow.CancelJob | src/app/modules/ingestion/jobs_repository.py:63-73 | cancels exactly a waiting job |
| JobRow.IngestJobRow.ClaimEInicia | src/app/workers/ingest_jobs.py:669-697 | claim and first checkpoint: the base is kept, counters and progress start from it |
| JobRow.IngestJobRow.ExecutaUnidades | src/app/workers/ingest_jobs.py:699-776 | the unit loop with a commit per unit is the protocol's run of these outcomes, wherever the process dies |
| JobRow.IngestJobRow.Processar | src/app/workers/ingest_jobs.py:657-849 | the row a delivery leaves is the one the protocol reaches by the events of that delivery, and the one its plan and outcomes give |
| JobRow.DeliveryIsARun | src/app/workers/ingest_jobs.py:491-501 | so whatever happens to the process, the row it leaves is a reachable one |
| JobRow.DeliveryOutcome | src/app/workers/ingest_jobs.py:657-849 | whatever happens around one delivery, the row it leaves follows from the plan and the outcomes alone: attempt, items in order, counts, total, progress, status and phase |
| FilaRq.Redis.EnqueueUnique | src/app/workers/ingest_jobs.py:277-331 | the delivery is live afterwards; it is kept when listed, deferred, scheduled or started under a worker heard of in the last 150 seconds, and otherwise replaced by a new one; no other delivery changes |
| FilaRq.Redis.RecoverPending | src/app/workers/ingest_jobs.py:459-481 | every listed waiting job gets a live delivery and no live one is deleted |
| FilaRq.Redis.MaintainDurableQueue | src/app/workers/ingest_jobs.py:484-488 | only executions older than the cutoff go back to the queue; after the round every waiting job is live if and only if those beyond the listing limit already were |
| FilaRq.ReconcileEffect | src/app/modules/ingestion/jobs_repository.py:190-219 | every execution that started before the cutoff goes back to the queue, up to a thousand, and no other row changes |
| FilaRq.QueuedSplit | src/app/modules/ingestion/jobs_repository.py:157-166 | waiting jobs are the listed ones and the ones beyond the limit |
| FilaRq.BeyondIsUntouched | src/app/modules/ingestion/jobs_repository.py:157-166 | a job beyond the limit shares no delivery with a listed one |
| FilaRq.OldestAreTaken | src/app/modules/ingestion/jobs_repository.py:202-213 | what is reconciled started no later than what is left, and something is left only beyond a thousand |
| FilaRq.OldestAreListed | src/app/modules/ingestion/jobs_repository.py:157-166 | what is redelivered was created no later than what is not, and something is not only beyond ten thousand |
| RodadaFila.RoundIsProtocol | src/app/workers/ingest_jobs.py:410-456 | on each row a round does nothing or takes the protocol's own step, and takes it wherever it can when at most a thousand rows can |
| RodadaFila.RoundStaysReachable | src/app/workers/ingest_jobs.py:410-456 | so the rows after a round are again reachable ones |
| RodadaFila.RoundSparesLive | src/app/workers/ingest_jobs.py:410-422 | no round touches the row of a live executor, if the lease covers the timeout |
| RodadaFila.ShortLeaseTakesLive | src/app/workers/ingest_jobs.py:410-422 | with any shorter lease some reachable live execution is taken |
| Backfill.Checkpoint.RunBackfill | src/app/workers/backfill.py:131-187 | the loop leaves exactly the state of the run function, whatever fails and wherever the process dies, and that is what the units and their outcomes say |
| Backfill.Checkpoint.VisitaUnidade | src/app/workers/backfill.py:155-183 | one visited unit: only a stored one enters memory, only a failed one the errors, and a commit may survive an interruption; the periodic save may fail or be cut |
| Backfill.Checkpoint.Save | src/app/workers/backfill.py:66-71 | a save ends whole, raises or dies before opening, or leaves the file cut |
| Backfill.Checkpoint.Load | src/app/workers/backfill.py:58-64 | a cut file is an error, an absent one is empty |
| Backfill.RunFollowsOutcomes | src/app/workers/backfill.py:144-198 | over every run, from units and outcomes alone: which were skipped, stored in order, refused in order, all counters and sums, the commits, the saves made, where it stopped and how |
| Backfill.RefusedStaysOut | src/app/workers/backfill.py:162-174 | a refused unit is listed, and its key enters neither memory nor the database |
| Backfill.RefusedExample | src/app/workers/backfill.py:162-174 | one refused unit: an empty file, one failure, nothing executed |
| Backfill.PromiseIffLastSaveWhole | src/app/workers/backfill.py:144-187 | every run counts visited as executed plus skipped plus failed; the file promises (readable, only committed keys, at most `save_every` missing, all keys saved or refused after a full run) if and only if the last save that opened it finished |
| Backfill.WholeSavesKeepPromise | src/app/workers/backfill.py:144-187 | so a run whose saves are not cut keeps the promise, at whatever instant it is killed |
| Backfill.CutSaveLosesFile | src/app/workers/backfill.py:66-71 | a kill inside the second save: two committed keys, an unreadable file, no later run |
| Backfill.CutFileStopsEveryRun | src/app/workers/backfill.py:60-63 | from a cut file no run executes anything |
| Backfill.RerunRunsOnlyRefusals | src/app/workers/backfill.py:144-187 | after a full run the next one executes only what was refused |
| Pcasp.Segments | src/app/modules/accounting/pcasp.py:94-100 | the loop cuts the code into its seven segments |
| Pcasp.ComputeNivel | src/app/modules/accounting/pcasp.py:108-115 | the loop finds the deepest non-zero segment |
| Pcasp.ComputeTruncate | src/app/modules/accounting/pcasp.py:118-123 | the loop keeps the first segments and zeroes the rest |
| Pcasp.ComputeMask | src/app/modules/accounting/pcasp.py:103-105 | what it writes reads back as the code, with and without the `P` |
| Pcasp.NivelIs | src/app/modules/accounting/pcasp.py:108-115 | the level is pinned by which segments are zero |
| Pcasp.TruncateTwice | src/app/modules/accounting/pcasp.py:118-123 | truncating twice is truncating at the shorter level |
| Pcasp.CleanTruncate | src/app/modules/accounting/pcasp.py:118-123 | without interior zeros a truncation has exactly the level asked for |
| Pcasp.ParentIsAbove | src/app/modules/accounting/pcasp.py:173-177 | the parent is strictly above, whatever zeros the code has |
| Pcasp.AncestorsDistinctIff | src/app/modules/accounting/pcasp.py:179-181 | an ancestor is listed twice if and only if the code has an interior zero |
| Pcasp.ParentIsAncestor | src/app/modules/accounting/pcasp.py:173-181 | ancestors are closed under parents |
| Pcasp.MultExactIff | src/app/modules/accounting/pcasp.py:179-181 | a posting reaches each node on its line once and no other node, if and only if there is no interior zero |
| Pcasp.InteriorZeroExample | src/app/modules/accounting/pcasp.py:179-181 | `101000000` counts its class twice |
| Pcasp.MaskRoundTrip | src/app/modules/accounting/pcasp.py:76-105 | `digits9` inverts `mask`, with and without the `P` |
| Pcasp.MaskLayout | src/app/modules/accounting/pcasp.py:94-105 | five segments of one digit and two of two, dotted |
| Pcasp.MaskInjective | src/app/modules/accounting/pcasp.py:103-105 | two accounts never share a mask |
| Pcasp.NormalFormIsStable | src/app/modules/accounting/pcasp.py:76-91 | masking a normalised code and reading it again changes nothing |
| Pcasp.OnlyDigitsCount | src/app/modules/accounting/pcasp.py:76-91 | only the digits of a text count: none make no code, others are padded or cut to nine |
| Pcasp.NatureOfClass | src/app/modules/accounting/pcasp.py:126-133 | odd first digits are debit accounts, and a whole line has one class |
| Rollup.AgregaFolhas | src/app/modules/accounting/service.py:216-226 | the first loop holds exactly the posted accounts with their own sums |
| Rollup.AcumulaFolha | src/app/modules/accounting/service.py:243-247 | the inner loop adds an account's balances to each ancestor as often as it is listed |
| Rollup.Materializa | src/app/modules/accounting/service.py:216-247 | nodes are exactly the ancestors of posted accounts, each with the sum over all lines by multiplicity |
| Rollup.ValueIsTotalBelow | src/app/modules/accounting/service.py:240-247 | without interior zeros a node's value is the sum of all lines whose code truncates to it |
| Rollup.RollupExactIff | src/app/modules/accounting/service.py:240-247 | that sum is exact for every amount if and only if the code has no interior zero |
| Rollup.NodeIsOwnPlusChildren | src/app/modules/accounting/service.py:240-247 | each node is its own postings plus the sum of its children |
| Rollup.ClassesConserve | src/app/modules/accounting/service.py:240-247 | the class roots together sum to all lines |
| Rollup.Regroup | src/app/modules/accounting/service.py:216-247 | adding account by account equals adding line by line |
| Rollup.OneLine | src/app/modules/accounting/service.py:218-222 | opening and closing balances go to their own columns, and an absent one is zero |
| RollupCheck.AgrupaPorPai | src/app/modules/accounting/service.py:836-841 | the checker's first loop holds every parent, the sum of its children and each own balance |
| RollupCheck.Check | src/app/modules/accounting/service.py:819-853 | on any table: the number of parents off by more than the tolerance, the worst gap, and a parent that has it |
| RollupCheck.ToleranceIsOneUnit | src/app/modules/accounting/service.py:842-853 | a parent and its only child are objected to exactly when they are more than one unit apart |
| RollupCheck.MissingParentIsZero | src/app/modules/accounting/service.py:819-853 | a parent without a row counts as zero |
| RollupCheck.MontaLinhas | src/app/modules/accounting/service.py:254-278 | one row per node with its parent, level and whether some row names it as parent |
| RollupCheck.HasChildrenIsExact | src/app/modules/accounting/service.py:254-275 | the flag is true exactly on rows that some row names as its parent |
| RollupCheck.MaterializarMscMes | src/app/modules/accounting/service.py:206-281 | from the monthly lines to the stored rows: one for each node, with its code, parent, level, class, nature and both balances |
| RollupGap.GapIsExcess | src/app/modules/accounting/service.py:842-853 | for any lines, the gap the checker sees at a node is how much more often postings reach it than its children, weighted by amount |
| RollupGap.CheckerFindsExcess | src/app/modules/accounting/service.py:819-853 | for any lines, the checker objects exactly to internal nodes whose excess is above the tolerance |
| RollupGap.AlwaysSilentIff | src/app/modules/accounting/service.py:819-853 | for given accounts, no amounts at all are objected to if and only if every code is clean and none is above another |
| RollupGap.OneAccountSilentIff | src/app/modules/accounting/service.py:819-853 | one posted account: silent for every amount if and only if its code has no interior zero |
| RollupGap.InteriorZeroGapExample | src/app/modules/accounting/service.py:240-247 | `101000000` alone leaves its class off by the whole amount |
| RollupPeso.CleanWeight | src/app/modules/accounting/pcasp.py:173-181 | a clean posting reaches only its own account more often than that account's children |
| RollupPeso.DirtyWeight | src/app/modules/accounting/pcasp.py:173-181 | an interior zero makes some node be reached more often than its only child on the line |
| RollupGap.GapIsOwnPosting | src/app/modules/accounting/service.py:842-853 | for clean codes the gap is exactly what was posted on the node itself |
| RollupGap.ClassRowsConserve | src/app/modules/accounting/service.py:241-278 | for clean codes the class rows hold every posted line |
| RollupGap.MaterializaEConfere | src/app/modules/accounting/service.py:206-281 | materialise then check, for any lines: (0, 0, none) exactly when no internal node's excess is above the tolerance |
| Contas.ComputePath | src/app/modules/accounting/service.py:284-295 | the ancestor loop builds the labels of the whole line, joined |
| Contas.PathExtendsParentIff | src/app/modules/accounting/service.py:284-295 | the path is the parent's plus the own label if and only if the parent is one level above |
| Contas.CleanPathExtendsParent | src/app/modules/accounting/service.py:284-295 | which is always so without interior zeros |
| Contas.PathPrefixIffAncestor | src/app/shared/hierarchy.py:40-48 | one path is a label-prefix of another exactly when its account is the other or above it |
| Contas.SplitInvertsJoin | src/app/shared/hierarchy.py:45-48 | labels survive being joined and split |
| Contas.LabelInjective | src/app/shared/hierarchy.py:40-42 | different accounts have different labels |
| Contas.Catalogo.UpsertConta | src/app/modules/accounting/service.py:284-313 | writes the whole row unless its parent is missing, keeps the table a tree, and lets only a name, never the generic one, replace a description |
| Contas.Catalogo.RegistrarContas | src/app/modules/accounting/service.py:316-333 | for any raw codes: what is written is closed under parents, each parent strictly before its children, no foreign key fails, and the table stays a tree |
| Contas.LineageIsParentClosed | src/app/modules/accounting/service.py:316-325 | the expansion to lineages is closed under parents, interior zeros included |
| Contas.SortedParentsFirst | src/app/modules/accounting/service.py:326-328 | sorting by level and code puts each parent strictly before its children |
| Contas.WrittenIsThere | src/app/modules/accounting/service.py:316-333 | after a registration every account of it has the row one write would give it, whatever the order, and no other row changed |
| Contas.UpsertKeepsTree | src/app/modules/accounting/service.py:284-313 | every row keeps its level, path, class and nature, and names as parent the last ancestor before it, which is in the table |
| Contas.TreeClimbs | src/app/modules/accounting/service.py:284-313 | so from any row the parents lead level by level up to a class |
| Contas.Catalogo.RegistrarMsc | src/app/modules/accounting/service.py:249-253 | the nodes of a rollup are registered, each under the description it already had |
| Descricoes.TableFollowsHistory | src/app/modules/accounting/repository.py:86-105 | after any registrations, each description is what the account's own encounters give |
| Descricoes.LastVoiceDecides | src/app/modules/accounting/service.py:296-308 | the last DCA that names the account, or implies one the glossary names, decides; no MSC changes it |
| Descricoes.SilentHistory | src/app/modules/accounting/service.py:296-308 | without such a DCA it is the glossary's name, or the generic one |
| Descricoes.LastSource | src/app/modules/accounting/repository.py:102-103 | the source of a row is the last registration that wrote it |
| Descricoes.DcaNameStaysIff | src/app/modules/accounting/service.py:296-308 | a DCA's name stays through registrations without one if and only if the glossary has no other name or each of them is an MSC |
| Descricoes.RollupNodesAreClosed | src/app/modules/accounting/service.py:239-247 | the nodes of a rollup hold their ancestors |
| Entregas.DimEntrega.RegisterEntrega | src/app/modules/ingestion/repository.py:49-94 | a known version changes nothing but a missing hash; a new one is kept beside the others and comes into force unless one of its key is more recent |
| Entregas.DimEntrega.ResolveVersao | src/app/modules/ingestion/repository.py:115-142 | the version in force, or one that no other of the key is more recent than at the instant |
| Entregas.OneInForce | src/app/modules/ingestion/repository.py:72-94 | every key with a delivery has exactly one in force |
| Entregas.NowIsInForceIff | src/app/modules/ingestion/repository.py:115-142 | at an instant no delivery is later than, the version in force is an answer, and the only one if and only if no two share the last instant |
| Entregas.LaterKeepsThePast | src/app/modules/ingestion/repository.py:115-142 | a delivery of a later instant never changes what an earlier one is answered |
| Entregas.NewAnswersIff | src/app/modules/ingestion/repository.py:115-142 | a new version becomes an answer at an instant exactly when none up to it is more recent |
| Entregas.PinHoldsIff | src/app/modules/ingestion/repository.py:279-303 | the instant of the version in force pins it through any registration exactly when that one has another instant |
| CoorteHistorico.BaseCoortes.Upgrade | alembic/versions/0019_sprint13_cohort_bitemporal.py:62-76 | existing rows get one version each, valid since 1900 |
| CoorteHistorico.BaseCoortes.Insert | alembic/versions/0019_sprint13_cohort_bitemporal.py:92-133 | an insert opens one version with the row's own timestamp |
| CoorteHistorico.BaseCoortes.Update | alembic/versions/0019_sprint13_cohort_bitemporal.py:78-133 | an update stamps the row, closes the open version and opens one; the table stays coherent if and only if the clock advanced |
| CoorteHistorico.BaseCoortes.Delete | alembic/versions/0019_sprint13_cohort_bitemporal.py:31-36 | deleting a row takes its versions and no other |
| CoorteHistorico.BaseCoortes.GetCoorte | src/app/modules/benchmark/repository.py:65-95 | any instant is answered with the row as it stood then, and with nothing before the first version |
| CoorteHistorico.BaseCoortes.GetCoortePorCodigo | src/app/modules/benchmark/repository.py:65-93 | by code: a cohort that had the code then, with its row as it stood, and the only one while codes are unambiguous |
| CoorteHistorico.BaseCoortes.ListAsOf | src/app/modules/benchmark/repository.py:39-58 | the version in force, once, for each cohort that had begun (and was active, if asked), by criterion and order |
| CoorteHistorico.OpeningKeepsCodesIff | alembic/versions/0019_sprint13_cohort_bitemporal.py:105-114 | a new version keeps codes distinct at every instant if and only if its code is free from its start on |
| CoorteHistorico.UpdateKeepsCodes | alembic/versions/0019_sprint13_cohort_bitemporal.py:92-118 | with a unique code among live rows and one clock, an update keeps codes distinct at every instant |
| CoorteHistorico.OlderInsertSharesCode | alembic/versions/0019_sprint13_cohort_bitemporal.py:105-114 | an insert with an older timestamp does not |
| CoorteHistorico.UpdateKeepsIff | alembic/versions/0019_sprint13_cohort_bitemporal.py:99-131 | closed versions stay contiguous and one open version equals the live row, if and only if the clock advanced |
| CoorteHistorico.StuckClockTilesNothing | alembic/versions/0019_sprint13_cohort_bitemporal.py:99-131 | otherwise the versions are the tiles of no history at all |
| CoorteHistorico.LookupIsRowThen | src/app/modules/benchmark/repository.py:82-93 | lookup over the version table equals the last change not after the instant |
| CoorteHistorico.UniqueIsNoRepeat | alembic/versions/0019_sprint13_cohort_bitemporal.py:50-52 | the unique constraint refuses exactly a repeated instant of the same cohort |
| CoorteHistorico.CloseAndAppend | alembic/versions/0019_sprint13_cohort_bitemporal.py:99-131 | closing the open version and appending one gives the tiles of the longer history |
| Janela.JanelaDeslizante.Expirar | src/app/shared/seguranca.py:94-97 | drops exactly the leading instants before the window |
| Janela.JanelaDeslizante.Bloqueado | src/app/shared/seguranca.py:99-106 | blocked exactly when the key's registrations since its last clearing that lie in the window reach the limit |
| Janela.JanelaDeslizante.Registrar | src/app/shared/seguranca.py:108-114 | returns how many registrations the window then holds |
| Janela.JanelaDeslizante.Limpar | src/app/shared/seguranca.py:116-122 | forgets one key, or all |
| Janela.JanelaDeslizante.SegundosParaLiberar | src/app/shared/seguranca.py:124-130 | the wait always outlasts the oldest queued failure and is the least whole number of seconds that does |
| Janela.WaitUnblocksIff | src/app/shared/seguranca.py:99-130 | after any wait the key is unblocked if and only if the `limite`-th newest queued failure has left |
| Janela.AuthRateLimit.Dispatch | src/app/shared/seguranca.py:160-199 | a login is refused if and only if the answers 400, 401, 403 and 422 of its key since its last 200 that lie in the window reach the limit; each answer is recorded as its status says, and the waiting time always unblocks |
| Janela.FailuresCounted | src/app/shared/seguranca.py:191-199 | what the window counts is exactly the refused answers since the last success that it still covers |
| Janela.AnyWindowHoldsAtMost | src/app/shared/seguranca.py:145-199 | no window of that length, wherever placed, lets more than `limite` failures of a key through |
| Janela.SpacingKept | src/app/shared/seguranca.py:176-198 | a failure let through is always farther than the window from the `limite`-th before it |
| Janela.CountIsSuffix | src/app/shared/seguranca.py:94-106 | the queue after expiry is as long as the full history says |
| ContextoCache.Cache.Get | src/app/modules/accounting/service.py:124-139 | a hit is the last context put under the same entity, year and identity, at most 30 seconds old; a miss is justified |
| ContextoCache.Cache.Put | src/app/modules/accounting/service.py:142-154 | holds at most 64, and only the least recently touched may leave |
| ContextoCache.FirstMayGo | src/app/modules/accounting/service.py:142-154 | when the first key is evicted, 64 others have been touched since |
| ContextoCache.ResolveMeses | src/app/modules/accounting/service.py:463-495 | the months with a version, in order, materialising exactly those not there |
| ContextoCache.Resolver | src/app/modules/accounting/service.py:437-499 | without an instant the context is faithful to the identity and complete for the months present, with one it is the database of that instant; what is materialised is exactly what was not there |
| ContextoCache.ResolvedIsFaithful | src/app/modules/accounting/service.py:443-494 | the first DCA of the identity, the last MSC of each period, months read off their periods, in order, each once, none of those present missing; an error exactly for an unreadable month |
| ContextoCache.ResolvedAtInstant | src/app/modules/accounting/service.py:449-494 | at an explicit instant: that instant, its DCA, its version of each month, none missing, in order, whatever the identity in force |
| ContextoCache.MonthIsAfterMark | src/app/modules/accounting/service.py:490 | a period is read as the number between its first `-M` and the next |
| ContextoNoTempo.NowIsCurrent | src/app/modules/accounting/service.py:422-501 | over one table of deliveries the context at a present instant is the current one, if no two deliveries share the last instant |
| ContextoCache.Materializador.EnsureMaterializado | src/app/modules/accounting/service.py:422-501 | an explicit instant neither reads nor feeds the cache and is answered with the versions of that instant; otherwise the answer, cached or not, is what the identity in force says, and only one with six months is kept |
| Escopo.ResolveCobertura | src/app/shared/scope.py:103-115 | the loop gathers exactly what the licences in force name |
| Escopo.CoverageIsLicence | src/app/shared/scope.py:72-77 | the summary covers an entity exactly when some active licence in force does |
| Escopo.ResolvePrefixos | src/app/shared/scope.py:191-198 | the prefixes are exactly those of the portfolio's states |
| Escopo.Sessao.AssertEnteInScope | src/app/shared/scope.py:214-238 | the gate and its two distinct refusals, in any state of the memo |
| Escopo.Sessao.CarteiraScopeIbges | src/app/shared/scope.py:241-258 | the set, in any state of the memo |
| Escopo.Sessao.RequireEnteScope | src/app/shared/scope.py:261-268 | in a coherent session it accepts exactly what is in scope, and says unlicensed exactly for an entity in scope without a licence |
| Escopo.Sessao.EscopoDaCarteira | src/app/shared/scope.py:241-258 | in a coherent session the set is exactly the listed entities in scope |
| Escopo.Sessao.AlterarCarteira | src/app/shared/scope.py:147-155 | a change of the portfolio followed by its invalidator keeps the memo coherent |
| Escopo.Sessao.AlterarLicencas | src/app/shared/scope.py:126-144 | a change of licences followed by its invalidator keeps the memo coherent |
| Escopo.GateMeetsSetIff | src/app/shared/scope.py:214-258 | gate and set agree on an entity unless the state expansion alone admits one that is in neither table |
| Escopo.GateWithoutSetExample | src/app/shared/scope.py:214-258 | such an entity exists |
| Escopo.GateEqualsSetUnderMemo | src/app/shared/scope.py:158-258 | they agree on the portfolio and catalogue whenever the memoised portfolio is right about the entity |
| Escopo.FreshMeansMeant | src/app/shared/scope.py:85-258 | with a fresh memo gate and set are what the scope is defined to be: portfolio or monitored state, restriction, licence |
| Escopo.StalePortfolioDiverges | src/app/shared/scope.py:147-171 | without the invalidator the set keeps an entity the gate refuses |
| Escopo.FewerLicencesNeverMore | src/app/modules/tenancy/models.py:229-235 | removing, suspending or shortening a licence enlarges neither |
| Escopo.ScopeIsIntersection | src/app/shared/scope.py:1-22 | the scope is the portfolio or its state expansion, within the membership, under a licence in force |
| Escopo.LicenceSpelledOut | src/app/modules/tenancy/models.py:229-235 | a licence covers on a day exactly when it is active, inside its dates, and names everything, the entity or its state |
| Escopo.ExpansionSpelledOut | src/app/shared/scope.py:214-230 | the state expansion is exactly seven digits, a state account, and the state in the portfolio |
| Escopo.OutsideTheirDatesNothing | src/app/shared/scope.py:93-104 | past the end or before the start of every licence nothing is in scope |
| Escopo.CarteiraLote | src/app/modules/tenancy/service.py:355-386 | what is covered and new enters, what is named leaves, each is reported, and the memo stays coherent |
| Hierarquia.BreadcrumbOf | src/app/shared/hierarchy.py:85-99 | the loop terminates on every parent graph and returns the walk from the root to the parent |
| Hierarquia.TrailIsAncestors | src/app/shared/hierarchy.py:91-97 | on any graph the walk up visits exactly the ancestors, each once, nearest first |
| Hierarquia.BreadcrumbIsAncestors | src/app/shared/hierarchy.py:85-99 | on any rows it is exactly the ancestors, each once; the node is among them if and only if it is on a cycle |
| Hierarquia.AcyclicBreadcrumbIsChain | src/app/shared/hierarchy.py:85-99 | without cycles and with all parents present it is the whole chain from a root |
| Hierarquia.WalkMeetsCycle | src/app/shared/hierarchy.py:91-96 | the walk stops early only on a cycle |
| Hierarquia.ChildrenSorted | src/app/shared/hierarchy.py:70-82 | children are exactly the rows naming the parent, by code, and the flag says whether there are any |
| Hierarquia.ChildIffLast | src/app/shared/hierarchy.py:75-104 | a row is a child of a node exactly when the node ends its breadcrumb |
| Hierarquia.DownOneLevelIff | src/app/shared/hierarchy.py:75-99 | a child's breadcrumb is the parent's plus the parent if and only if the parent is on no cycle |
| Hierarquia.CycleExample | src/app/shared/hierarchy.py:85-99 | on the smallest cycle a node is in its own breadcrumb |
| Hierarquia.OverlaidMeasures | src/app/shared/hierarchy.py:124-128 | a measure computed elsewhere wins, every other of the node is kept |
| Hierarquia.LastRowIsIndexed | src/app/shared/hierarchy.py:66-67 | of several rows with one code the last is looked up |
| Hierarquia.BuildDrillEnvelope | src/app/shared/hierarchy.py:107-165 | children with flags and overlaid measures, the breadcrumb, and an error exactly for an unknown node |
| Periodo.FormatParseIff | src/app/shared/periodo.py:19-33 | reading back what was written gives the same period if and only if the year has four digits and the number at most two |
| Periodo.FormatInjective | src/app/shared/periodo.py:28-33 | different periods are never written alike, also in years below 1000 |
| Periodo.FormattedLength | src/app/shared/periodo.py:28-33 | a month is written with two digits, other parts with as many as they have |
| Periodo.YearOfStepsIff | src/app/shared/periodo.py:36-55 | a year of steps back is the same period of the year before, if and only if the years passed through keep four digits |
| Periodo.AnteriorIsImmediate | src/app/shared/periodo.py:36-46 | nothing of the same type lies between a period and the one before it |
| Periodo.AnnualText | src/app/shared/periodo.py:36-186 | a year goes back to the year before, ends in December and has no part |
| Periodo.OwnCadence | src/app/shared/periodo.py:58-155 | a period already in the cadence asked for comes back as it was written if the calendar has it, any other than a bimester has none |
| Periodo.UnreadableText | src/app/shared/periodo.py:36-186 | unreadable text has no answer anywhere |
| Periodo.MostRecentIsLastGreatest | src/app/shared/periodo.py:158-194 | `mais_recente` is the text with the greatest key, the last of them when tied |
| Periodo.MostRecentReadableIff | src/app/shared/periodo.py:158-194 | it can be read if and only if every text can |
| Periodo.MostRecentEndsLast | src/app/shared/periodo.py:158-194 | among parts of a year no other ends later |
| Periodo.CurrentIsLeftAdjoint | src/app/shared/periodo.py:58-155 | the cycle a bimester is in is the left adjoint of the bimester that ends a cycle, and both end in the same month |
| Periodo.ClosedIsPartialInverse | src/app/shared/periodo.py:58-155 | the cycle a bimester closes is the exact partial inverse |
| Periodo.ClosedInverseOnText | src/app/shared/periodo.py:58-155 | the same on any text that `parse` accepts |
| Periodo.CurrentAdjointOnText | src/app/shared/periodo.py:58-155 | and so is the adjunction |
| Periodo.RoundTripOnTextIff | src/app/shared/periodo.py:58-155 | to the bimester and back on text closes if and only if the year is at least 1000 |
| Periodo.QuestionsAgreeIff | src/app/shared/periodo.py:115-155 | the two questions agree exactly on the bimesters that close a cycle |
| Periodo.OnCanonicalText | src/app/shared/periodo.py:58-186 | on canonical text every translation is the one on periods, written out |
| Periodo.PossibleIffEnded | src/app/shared/periodo.py:202-226 | exactly the periods whose last month is over, in order, that month being the one `mes_final` gives |
| Desempenho.PerformanceRecorder.Observe | src/app/shared/http_performance.py:109-116 | after any history the window is the route's last samples and the value is its P95 |
| Desempenho.PerformanceRecorder.SnapshotOf | src/app/shared/http_performance.py:118-123 | none exactly when nothing was observed since the last reset |
| Desempenho.RankIsP95 | src/app/shared/http_performance.py:94-107 | the nearest rank is the least sample that at least 95% of the window does not exceed |
| Desempenho.P95Unique | src/app/shared/http_performance.py:94-107 | only one value is |
| Ordenacao.SortCorrect | src/app/shared/hierarchy.py:70-82 | `sorted` returns the same elements in order |
| Ordenacao.SortStable | src/app/shared/hierarchy.py:70-82 | and keeps the order of equal ones |
| Ordenacao.LexIff | src/app/shared/hierarchy.py:70-82 | strings are compared where they first differ |

## Left out

- Progress is computed with exact integer division; the original divides floats and truncates.
- `terminado_em`, `erro_resumo`, logs, audit, row counts and details of an item, recalculation after a run, and the eager mode of tests.
- A timeout that fires after the last commit is one event with that commit; a handler's rollback and write are one event.
- SQL locking and `SKIP LOCKED`: each locked read and its write are one atomic step. RLS policies and sessions.
- Redis errors and concurrent activity during a maintenance round; the RQ library beyond its job statuses.
- Digits, whitespace and `int` beyond ASCII text (signs, underscores), in codes and periods.
- Descriptions in the rollup's rows and in answers, `signed` and `saldo_natural` (sign flips), display text, `build_arvore` and the other readers of the rollup.
- The free-space reading behind the disk guard, `on_progress`, and the estimates of a dry run.
- JobRow.IngestJobRow.RetryJob: the audit record, the delivery that follows and an unknown job are not modelled.
- RollupCheck.MaterializarMscMes: description, the entity and period columns, and the leaf facts stored beside the rollup are not modelled.
- Contas.Catalogo.RegistrarContas: the text of the glossary is a parameter, and its backfill over existing rows is not modelled.
- CoorteHistorico.BaseCoortes.ListAsOf: criteria are ordered by character code, not by the database's collation; changing a cohort's id by UPDATE is not modelled.
- Janela.AuthRateLimit.Dispatch: the key's two parts are given; reading them from headers and body is not modelled. Concurrent readings of the clock are not either.
- Entregas.DimEntrega.ResolveVersao: rows are scanned in the order they were registered, where the database may return any of two with one instant; the answer is stated for both.
- ContextoCache.Resolver: what materialisation writes is not modelled here, only what it is called for.
- Escopo.CarteiraLote: the list of ignored codes and the audit record are not modelled.
- Hierarquia.BuildDrillEnvelope: period, source reference and instant pass through unchanged and are not modelled.
- Backfill.Checkpoint.Save: the counters stored beside the keys are not modelled; a file cut short is taken as unreadable, since the text ends with the brace it opens with.
- Escopo.Sessao.AlterarLicencas: the catalogue has no invalidator in the original and is taken as fixed while a session remembers prefixes.
- Periodo.OnCanonicalText: an unknown cadence or question raises in the original; the types exclude both.
- Desempenho.RankIsP95: `ceil(n * 0.95)` is taken on exact numbers. The float product agrees: the float nearest to 0.95 is below it by less than half a unit in the last place of any product that would be an integer, and every such product has the factor 19.
- Alerts, assistant, connectors, JWT, password hashing, ETags, security headers and routers.
