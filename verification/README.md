# UsageBassoon: a verified model of its algorithms and protocols

UsageBassoon collects token usage from local AI clients and stores it in DuckDB or
BigQuery. This project models the parts of it that decide whether stored usage is
right: how queries are rewritten, how observations win or lose, how a run is
published and retried, how a child process and a bucket are driven, and which days a
run collects. `dafny verify dfyconfig.toml` checks everything.

| file | models |
|---|---|
| `PinnedQuery.dfy` | expansion of installed views into a query and its pinning to one instant |
| `ObservationOrder.dfy` | the freshness order, once as ORDER BY keys and once as a row-value comparison |
| `StagedRows.dfy` | keyed batches and the key check before an upsert |
| `DailyTokens.dfy` | the pre-merge of daily token facts and the MERGE that stores them |
| `AppendLog.dfy`, `VersionLog.dfy` | the append-only store against the in-place one |
| `Sessions.dfy` | session rows, whose first and last sightings widen even when a row loses |
| `DailyFacts.dfy` | reconciliation of daily payloads and the rows built from them |
| `CollectionPlan.dfy` | choice of days, recorded statuses, histories of runs |
| `JsonPaths.dfy` | JSON payloads, the paths into them as steps and as texts, and what one path means |
| `Contracts.dfy` | payload contracts and drift, keyed by path texts, over arbitrary JSON |
| `ContractPaths.dfy` | which paths share a text, and how the tolerance check takes a text apart |
| `ContractNumbers.dfy` | what drifts, spelled out, and numbers that a serializer writes as another type |
| `ContractTexts.dfy` | what a text stands for, and what drift on texts promises |
| `Publication.dfy`, `Transactions.dfy` | exactly-once publication of a run, on both kinds of store; how a transaction can fail |
| `Restore.dfy`, `LocalRestore.dfy` | snapshot restore on BigQuery and on DuckDB |
| `StreamResume.dfy` | resumable reading of a result stream |
| `PricingCheckpoint.dfy` | the write-ahead checkpoint for custom prices |
| `SupervisedResource.dfy` | request and reply frames of a supervised child |
| `Deadlines.dfy` | nested operation budgets with one cleanup allowance |
| `MutationGate.dfy` | pacing of same-object bucket mutations through evictable gates |
| `ProcessCapture.dfy` | the bounded drain of a child's two pipes |
| `NoteId.dfy` | the compact text form of note identifiers |

Code that updates something in place is a class or a method with loops here, each
tied by its postconditions to a specification function about which the lemmas speak.
Threads, remote jobs and lost replies are state machines whose steps interleave
freely; the theorems hold in every run. Databases, pipes, clocks, child processes and
hashes appear only as arbitrary answers within a contract. Rows of the model table that
begin with **Main** are the main results; the others are what they rest on.

## Where the code does less than one might think

Each of these has a lemma with a concrete input, and beside it the condition, exact
wherever one is known, under which the expected property does hold.

- A clock node inside the zone of a CURRENT_DATE is not pinned
  (`PinnedQuery.ZoneClockEscapes`); it matters exactly when it reaches the result
  (`PinnedQuery.PinnedExactly`).
- The MERGE predicate drops the middle key of the append-only tables' order
  (`ObservationOrder.AgreementIsExactlyStateTables`); those tables are never upserted.
- A batch prepared against rows that were replaced in the meantime can leave different
  rows in the two kinds of store (`AppendLog.StalePreparationDiverges`), exactly when
  it wins without subsuming the stored row (`AppendLog.AppendAgreesExactly`).
- A tie on collection time can make the pre-merge visible
  (`DailyTokens.TieBreaksTransparency`, `DailyTokens.PreparationIsTransparent`), and
  the order of upserts matters for daily tokens
  (`DailyTokens.UpsertIsNotOrderIndependent`, `DailyTokens.OrderIndependentExactly`)
  though not for sessions.
- The guard against publishing a run twice works exactly for batches that carry the
  run's `collection` row (`Publication.GuardNeedsSummary`).
- A limited scope opened inside the cleanup allowance can outlive it once terminating
  a resource shrinks the allowance (`Deadlines.LimitedScopeOutlivesShrunkAllowance`,
  `Deadlines.Scopes.Terminate`). In one stack of scopes a call made while that scope is
  open runs under it, so terminating under the outer request meanwhile takes a second
  thread that shares the root.
- A custom price published by a run that left models pending is not reverted when the
  custom file disappears again (`PricingCheckpoint.InterruptedOnRunIsNotReverted`), and
  an automatic one is not replaced when the file comes back
  (`PricingCheckpoint.InterruptedOffRunIsNotReapplied`). Which prices then disagree with
  the recorded presence is exact (`PricingCheckpoint.StrayedExactly`). Among them is a
  custom price published next to an empty refresh set by a run that fails before
  recording it (`PricingCheckpoint.LostAcknowledgementIsNotReverted`).
- A local restore deletes debug rows older than 90 days before each batch it appends, so
  it loses such rows of an earlier batch of the same file and commits all the same
  (`LocalRestore.StaleRowsAreLost`); the restored rows are the snapshot's exactly when no
  debug file has such a row in a batch that a nonempty batch follows
  (`LocalRestore.FillingEmptyTables`, `LocalRestore.LocalRestoreIsExact`).
- A BigQuery restore reads the receipt before the list of active jobs, so a commit that
  finishes in between is answered with "not committed"; unless one is submitted
  meanwhile, this can happen exactly when a pending commit of the operation would
  succeed (`Restore.NegativeAnswerCanBeWrongExactly`). By this a snapshot without rows
  can be receipted twice (`Restore.RowlessSnapshotReceiptedTwice`).
- Empty inner arrays are tolerated only when all of them are empty
  (`ContractTexts.EmptyInnerArraysTogetherOnly`).
- Empty JSON keys at the top leave no trace in a path text, so a text stands for its path
  in the payload and below every run of them (`ContractPaths.TextsCollideExactly`,
  `ContractTexts.TextPresenceAddsUp`, `ContractTexts.StepsTellTextsExactly`). Counts can
  then be neither none nor all (`ContractTexts.CountsCanBeMixed`,
  `ContractTexts.CountsAreAllOrNothingExactly`), a tolerated path can be present
  (`ContractTexts.PresentBelowEmptyKeyIsTolerated`,
  `ContractTexts.ToleratedMeansAbsentExactly`), and an empty key added at the top can
  make a required field drift (`ContractTexts.AddedEmptyKeyIsFatal`,
  `ContractTexts.AddedFieldsAreOnlyUnknownExactly`).
- An empty key further down a path can make the tolerance check on its text tolerate the
  path though it is present (`ContractTexts.PresentPathIsTolerated`,
  `ContractTexts.ToleratedTextIsAbsentExactly`) or miss an empty array
  (`ContractPaths.TextsMisreadExactly`, `ContractTexts.DriftAgreesExactly`).
- A bare compact note ID that happens to begin with the letters of the prefix is
  refused (`NoteId.BarePrintedForm`).

## Model

| member | source | states |
|---|---|---|
| PinnedQuery.RewritePreservesMeaning | src/usagebassoon/backends/bigquery.py:104-178 | **Main.** for every accepted statement in which, following its views, no clock in a CURRENT_DATE zone feeds the result, running the rewrite at any wall time, with the read parameter bound to the captured instant, gives the value of the original with all views, tables and clocks held at that instant |
| PinnedQuery.PinnedExactly | src/usagebassoon/backends/bigquery.py:104-178 | **Main.** that condition on the statement and its views is exact: the rewrite has the frozen value at every wall time if and only if it holds |
| PinnedQuery.EscapesExactly | src/usagebassoon/backends/bigquery.py:104-178 | the condition on the statement says exactly that no clock node left in the rewrite reaches its result |
| PinnedQuery.EscapesIsReaching | src/usagebassoon/backends/bigquery.py:130-178 | the same for any part of a query, inside or outside a zone, whatever CTEs of a caller it is spliced under |
| PinnedQuery.RewriteIsRightAtReadTime | src/usagebassoon/backends/bigquery.py:104-178 | run at the captured instant itself every accepted rewrite has the frozen value |
| PinnedQuery.ClockFreeZonesArePinned | src/usagebassoon/backends/bigquery.py:169-178 | the condition holds whenever no CURRENT_DATE zone contains a clock |
| PinnedQuery.UnreachedIsSteady | src/usagebassoon/backends/bigquery.py:150-178 | where no clock reaches, the value of pinned text is the same at all wall times |
| PinnedQuery.ReachedShowsTheClock | src/usagebassoon/backends/bigquery.py:169-178 | where one does, a wall time other than the captured instant goes into the result |
| PinnedQuery.PinIsInvisibleAtReadTime | src/usagebassoon/backends/bigquery.py:169-178 | at the captured instant replacing the clock nodes changes no value |
| PinnedQuery.ExpandPreservesMeaning | src/usagebassoon/backends/bigquery.py:130-165 | expansion keeps the meaning of any subtree under any CTE scope, even when spliced under further CTEs of a caller: none of them captures a table of an inlined view |
| PinnedQuery.TablePreservesMeaning | src/usagebassoon/backends/bigquery.py:135-164 | the same for one table reference: a CTE stays, a view is inlined, a base table is qualified and versioned |
| PinnedQuery.InlinedViewPreservesMeaning | src/usagebassoon/backends/bigquery.py:145-149 | an inlined view body keeps its value under the alias of the reference, or under its name if it has no alias |
| PinnedQuery.ScopedPreservesMeaning | src/usagebassoon/backends/bigquery.py:130-138 | a WITH binding scopes over its body and not over its own definition, before and after expansion |
| PinnedQuery.PinRemovesClocksOutsideZones | src/usagebassoon/backends/bigquery.py:169-178 | after pinning a clock node is left exactly when one stood inside a CURRENT_DATE zone |
| PinnedQuery.ClockFreeIsFixed | src/usagebassoon/backends/bigquery.py:169-178 | pinning changes nothing in a tree without clock nodes |
| PinnedQuery.ZoneClockEscapes | src/usagebassoon/backends/bigquery.py:174-175 | a clock inside the text that names the zone of a CURRENT_DATE is kept and feeds the result |
| PinnedQuery.ExpandReadsOnlyPinned | src/usagebassoon/backends/bigquery.py:139-164 | **Main.** every table left in an accepted expansion is an in-scope CTE or a physical table of the backend dataset, fully qualified and read at the captured instant |
| PinnedQuery.ReadsOnlyPinnedIgnoresPin | src/usagebassoon/backends/bigquery.py:169-178 | pinning clocks does not touch that |
| PinnedQuery.RewriteKeepsNames | src/usagebassoon/backends/bigquery.py:145-158 | **Main.** reference by reference and through all nested views, every accepted rewrite shows a source under exactly the alias the reference has, and under its table name if it has none; so all sources at one level keep their names in order |
| PinnedQuery.ExpandKeepsNames | src/usagebassoon/backends/bigquery.py:130-165 | expansion does so for any subtree under any CTE scope, leaving CTE references as they are |
| PinnedQuery.PinKeepsNames | src/usagebassoon/backends/bigquery.py:169-178 | pinning clocks changes no name |
| PinnedQuery.SourcesKeepTheirNames | src/usagebassoon/backends/bigquery.py:145-158 | a qualified column therefore means the source it meant, and sources that could be told apart still can |
| PinnedQuery.AliasesStayApart | src/usagebassoon/backends/bigquery.py:149 | two references to one view under different aliases become two sources under just these aliases |
| PinnedQuery.RejectedExactly | src/usagebassoon/backends/bigquery.py:130-165 | **Main.** a statement is rejected if and only if following views from it reaches a write, a foreign dataset, an unknown relation or a view already under expansion |
| PinnedQuery.RejectionHasTrail | src/usagebassoon/backends/bigquery.py:130-165 | every rejection is explained by such a trail of views |
| PinnedQuery.TrailIsRejected | src/usagebassoon/backends/bigquery.py:130-165 | every such trail is rejected, wherever in the query it starts |
| PinnedQuery.DescendingVisitsFewer | src/usagebassoon/backends/bigquery.py:145-149 | each inlined view leaves fewer views to visit, which bounds the expansion |
| ObservationOrder.EncodingsAgree | src/usagebassoon/storage_model.py:138-183 | for the upserted tables the ORDER BY encoding and the row-value encoding put the same row first, nulls last included |
| ObservationOrder.AgreementIsExactlyStateTables | src/usagebassoon/storage_model.py:138-183 | **Main.** they agree on all pairs of rows for those tables and for no other |
| ObservationOrder.PrecedesIsTotal | src/usagebassoon/storage_model.py:138-152 | of two rows at most one is first, and neither is exactly when all sort keys tie |
| ObservationOrder.PrecedesIsTransitive | src/usagebassoon/storage_model.py:138-152 | not being beaten composes, and strictness with it |
| StagedRows.CheckKeys | src/usagebassoon/backends/base.py:530-569 | a batch is accepted exactly when no key repeats or holds a null; a refusal names the first offending row's fault |
| DailyTokens.NewerIsSharedOrder | src/usagebassoon/storage_model.py:62-66 | the comparison the pre-merge writes out is the shared order, in both encodings |
| DailyTokens.PreserveDailyTokens | src/usagebassoon/storage_model.py:45-82 | the loop keeps exactly the incoming rows that beat the captured row of their key, each raised to the captured maxima, in order |
| DailyTokens.PreparedKeepsKeysDistinct | src/usagebassoon/storage_model.py:45-82 | the pre-merge adds no key and repeats none |
| DailyTokens.PreparedRow | src/usagebassoon/storage_model.py:56-82 | under every key: the incoming row prepared against the captured one |
| DailyTokens.DailyStats.Upsert | src/usagebassoon/backends/duckdb_local.py:341-431 | a batch with a repeated key changes nothing; otherwise the row under every staged key is the MERGE of the old row there with the staged one, every other row is as before, and the counts are of keys that were absent and of old rows that were beaten |
| DailyTokens.MergeStaged | src/usagebassoon/backends/duckdb_local.py:341-431 | going through the staged rows one by one arrives at that table and those counts |
| DailyTokens.AcceptedWriteIsMonotone | src/usagebassoon/backends/duckdb_local.py:369-391 | a write is accepted exactly when it is fresher; then freshness strictly rises, no component or total falls, and the total holds at least the components |
| DailyTokens.MergeIsIdempotent | src/usagebassoon/backends/duckdb_local.py:369-416 | merging an observation again changes nothing |
| DailyTokens.StoredRowOnlyAdvances | src/usagebassoon/backends/duckdb_local.py:369-416 | over any sequence of merges a stored row never loses freshness or tokens |
| DailyTokens.PreparationIsTransparent | src/usagebassoon/storage_model.py:62-82 | **Main.** however often the stored row advanced after capture, publishing the prepared row equals publishing the raw one, unless raising the total made a losing row win: if and only if |
| DailyTokens.RaiseThenMerge | src/usagebassoon/storage_model.py:67-80 | raising to captured maxima before a MERGE that takes maxima again makes no difference |
| DailyTokens.PreparationIsTransparentWithoutTies | src/usagebassoon/persistence.py:274-284 | it is enough that the stored row did not advance or was collected at another time |
| DailyTokens.TieBreaksTransparency | src/usagebassoon/storage_model.py:62-82 | with a tie on collection time the two can differ |
| DailyTokens.StoredVerbatimExactly | src/usagebassoon/backends/duckdb_local.py:369-391 | a MERGE stores the fresher row as it is if and only if that row subsumes what the old one recorded |
| DailyTokens.OrderIndependentExactly | src/usagebassoon/backends/duckdb_local.py:369-416 | **Main.** two observations may come in either order if and only if the fresher subsumes the staler, or they are the same |
| DailyTokens.UpsertIsNotOrderIndependent | src/usagebassoon/storage_model.py:18-26 | a stale observation with larger counts is lost when it comes last |
| AppendLog.AppendLogRefinesUpsert | src/usagebassoon/backends/bigquery.py:1695-1759 | **Main.** after any runs, each prepared against the rows of its moment, and any replays, the row ranked first in the log is the row MERGE keeps, for every key and both ways |
| AppendLog.StoresStaySynchronized | src/usagebassoon/backends/bigquery.py:1695-1759 | the invariant behind it: equal canonical rows, and every logged row is the stored one or strictly staler |
| AppendLog.PublishKeepsSynchronized | src/usagebassoon/backends/bigquery.py:1738-1759 | appending a batch and merging it keep the stores synchronized |
| AppendLog.BestAfterAppend | src/usagebassoon/storage_model.py:138-152 | the best row after an append is the fresher of the best before and the appended one |
| AppendLog.BestIsMember | src/usagebassoon/storage_model.py:138-152 | the best row is in the log and nothing there beats it |
| AppendLog.PreparedRowIsStoredVerbatim | src/usagebassoon/storage_model.py:67-82 | a prepared row already holds the maxima, so MERGE stores it as it is |
| AppendLog.ReplayIsInvisible | src/usagebassoon/backends/bigquery.py:1738-1759 | replaying any published batch changes no canonical row in either store |
| AppendLog.BeatenRowsMergeToNothing | src/usagebassoon/backends/duckdb_local.py:369-416 | merging rows that do not beat the stored ones changes nothing |
| AppendLog.AppendAgreesExactly | src/usagebassoon/backends/bigquery.py:1738-1759 | however a row was prepared, appending it and merging it leave the same best row if and only if it is beaten or subsumes the stored row |
| AppendLog.StalePreparationDiverges | src/usagebassoon/storage_model.py:45-82 | two batches prepared against the same old row can leave different rows in the two stores |
| VersionLog.LogRefinesReplacement | src/usagebassoon/backends/duckdb_local.py:392-416 | **Main.** for prices, tags and notes, in any order and with any repetition, the row MERGE keeps is the one row the log can rank first |
| VersionLog.StoredIsRankedFirst | src/usagebassoon/backends/duckdb_local.py:392-416 | the kept row is first under the ORDER BY encoding |
| VersionLog.ReplacementConverges | src/usagebassoon/backends/duckdb_local.py:392-416 | equal sets of observations end in the same row |
| Sessions.SessionTable.Upsert | src/usagebassoon/backends/duckdb_local.py:380-423 | the MERGE and the UPDATE after it together widen every staged row's sightings and replace its other columns exactly when it is fresher |
| Sessions.NewerIsSharedOrder | src/usagebassoon/storage_model.py:155-183 | the session comparison is the shared order |
| Sessions.TableSummarizesObservations | src/usagebassoon/backends/duckdb_local.py:380-423 | **Main.** after any batches a session row exists exactly if observed, with the minimum first-seen, the maximum last-seen and the freshest other columns |
| Sessions.OneKeyAdvances | src/usagebassoon/backends/duckdb_local.py:380-423 | one more batch keeps that summary, for winning and for losing rows |
| Sessions.SummaryIsUnique | src/usagebassoon/storage_model.py:155-183 | only one row summarizes given observations |
| Sessions.SessionsConverge | src/usagebassoon/backends/duckdb_local.py:380-423 | **Main.** any permutation, duplication or batching of the same observations ends in the same table |
| Sessions.TiesDiverge | src/usagebassoon/storage_model.py:155-183 | two tied observations with different columns end in a table that depends on the order |
| DailyFacts.ParseDaily | src/usagebassoon/parsers/daily.py:165-180 | every parsed row carries the requested day |
| DailyFacts.SizeDetectsRepetition | src/usagebassoon/reconcile.py:96-97 | comparing the sizes of list and set detects exactly a repeated key |
| DailyFacts.CheckPayload | src/usagebassoon/reconcile.py:94-182 | exactly the failing assertions of one payload are found |
| DailyFacts.ReconcileAll | src/usagebassoon/reconcile.py:76-187 | affected days are those failing any assertion, unsafe days those repeating a key, and each failed assertion is reported once with its latest day |
| DailyFacts.SortDays | src/usagebassoon/reconcile.py:93 | the days visited, ascending and complete |
| DailyFacts.DailyStatsRows | src/usagebassoon/normalizer.py:84-122 | the nested loops build the rows of all usage entries, day by day in order |
| DailyFacts.RowCarriesUsage | src/usagebassoon/normalizer.py:84-122 | every row built carries one usage entry: its key, each of its five counts in its own column and their sum, its messages and cost, the collection time of the run and an event ID of its own |
| DailyFacts.UsageIsCarried | src/usagebassoon/normalizer.py:84-122 | every usage entry is carried by a row |
| DailyFacts.StagedDayAddsUpExactly | src/usagebassoon/reconcile.py:103-154 | **Main.** the rows of a day add up, column by column, to the declared totals of input, output, cache read, cache write, messages and cost if and only if no check of a total failed for that day |
| DailyFacts.UncapturedDayIsStaged | src/usagebassoon/storage_model.py:56-82 | the pre-merge leaves the sums of a day alone for which nothing was captured |
| DailyFacts.KeysOfRows | src/usagebassoon/normalizer.py:84-122 | the natural keys built are exactly those of the usage entries |
| DailyFacts.KeysDistinctExactly | src/usagebassoon/normalizer.py:84-122 | natural keys are pairwise distinct if and only if no day repeats a client, session and model |
| DailyFacts.StageDailyStats | src/usagebassoon/ingest.py:591-595 | **Main.** from any parsed payloads, through removal of unsafe days, normalization and pre-merge, the writer's key check succeeds; the rows and the usage of exactly the unambiguous days are the same facts, column by column; and on every such day that need not be collected again the rows, and for a new day what is staged, add up to the declared totals |
| CollectionPlan.PlanDays | src/usagebassoon/orchestrator.py:83-137 | the fetched days, ascending, are the specified set for ordinary and refresh runs alike |
| CollectionPlan.OrdinaryRunFetchesExactly | src/usagebassoon/orchestrator.py:83-137 | **Main.** an ordinary run fetches exactly the days of the graph or recorded otherwise than complete, except past complete days followed by three or more past days of the graph |
| CollectionPlan.RefreshFetchesExactly | src/usagebassoon/orchestrator.py:104-137 | a refresh fetches exactly its range, which without a start begins at the oldest day the graph, the stored facts or the ledger mentions up to its end, or else at its end |
| CollectionPlan.Newest | src/usagebassoon/orchestrator.py:89-93 | the last three of the sorted past days are those with fewer than three later ones |
| CollectionPlan.RangeStart | src/usagebassoon/orchestrator.py:104-116 | a refresh without a start begins at the oldest day known up to its end |
| CollectionPlan.OmittedExactly | src/usagebassoon/orchestrator.py:94-137 | an ordinary run leaves a candidate out if and only if it is a past graph day, complete, and has three newer past days |
| CollectionPlan.FetchModels | src/usagebassoon/ingest.py:170-201 | every fetched day is parsed or failed, never both, with the stage it failed in |
| CollectionPlan.AssessModels | src/usagebassoon/ingest.py:449-475 | parsed days are complete, or partial if affected, and failed days failed; nothing else is recorded |
| CollectionPlan.LedgerRows | src/usagebassoon/normalizer.py:214-234 | every target becomes one ledger row, complete models targets of a day not yet over as provisional |
| CollectionPlan.RecordedStatusExactly | src/usagebassoon/ingest.py:449-475 | a fetched day is recorded as failed exactly if nothing could be parsed, as incomplete exactly if an assertion fails, and as complete exactly if none does and the day is over |
| CollectionPlan.CollectModels | src/usagebassoon/orchestrator.py:129-146 | **Main.** a whole run records exactly the days it fetched, each by its outcome |
| CollectionPlan.OmissionIsFinal | src/usagebassoon/orchestrator.py:83-137 | **Main.** in every history a day left out by an ordinary run was settled by an earlier run started on a strictly later UTC day with a clean reconciliation, which nothing supersedes |
| CollectionPlan.UnfinishedIsFetchedNext | src/usagebassoon/orchestrator.py:94-103 | a models target currently recorded otherwise is fetched by the next run |
| CollectionPlan.CleanLaterRunFinishes | src/usagebassoon/normalizer.py:214-234 | a clean run on a later day, newer than the day's other records, makes the next run read the day as complete |
| CollectionPlan.SupersessionIsSharedOrder | src/usagebassoon/storage_model.py:138-152 | records of a day are compared in the ledger's shared order |
| CollectionPlan.CurrentIsUnique | src/usagebassoon/sql/duckdb/views.sql:137-145 | one row per day ranks first |
| CollectionPlan.FullRefreshReachesHistory | src/usagebassoon/orchestrator.py:104-116 | of the days the graph, the stored facts or the ledger mentions a refresh without a start fetches exactly those up to its end |
| JsonPaths.PresenceMeansOccurrence | src/usagebassoon/contracts.py:131-195 | what one path contributes: it has records if and only if it occurs, with the types it occurs with |
| JsonPaths.PathCountsAreAllOrNothing | src/usagebassoon/contracts.py:169-195 | of one path the present count is zero or the total, and full exactly when every member of the outermost array on it has an occurrence |
| JsonPaths.EmptyAncestorHasNothing | src/usagebassoon/contracts.py:227-244 | below an empty ancestor array nothing occurs |
| JsonPaths.ToleratedPathIsAbsent | src/usagebassoon/contracts.py:227-244 | a path tolerated on its steps is absent |
| JsonPaths.AddedFieldsAddOccurrences | src/usagebassoon/contracts.py:131-195 | fields added at any depth take away no occurrence, and add none to paths without their names |
| JsonPaths.AddedFieldsKeepPresence | src/usagebassoon/contracts.py:131-244 | presence and tolerance of such paths stay the same |
| Contracts.PresenceMap | src/usagebassoon/contracts.py:131-195 | **Main.** for any keys whatever, the one-pass collection holds under every text the types, the present count and the total of all its records |
| Contracts.CollectMember | src/usagebassoon/contracts.py:146-161 | a member's fields map notes exactly the texts and types shown below it |
| Contracts.Walk | src/usagebassoon/contracts.py:163-185 | walking a node adds exactly its records, text by text |
| Contracts.WalkArray | src/usagebassoon/contracts.py:169-185 | an outermost array contributes one record per text and type seen in any member, all marked alike |
| Contracts.ShowsMeansPath | src/usagebassoon/contracts.py:146-161 | an array member shows a text with a type exactly when a path with that text occurs in it so |
| Contracts.TextPresenceMeansOccurrence | src/usagebassoon/contracts.py:131-195 | **Main.** for any keys, a text is present if and only if a path with that text occurs, with the types such paths occur with |
| Contracts.BuildContract | src/usagebassoon/contracts.py:198-224 | the contract has an entry for exactly the present texts, required when full and not exempt |
| Contracts.PayloadMeetsItsOwnContract | src/usagebassoon/contracts.py:198-332 | no payload, whatever its keys, drifts from the contract built from it |
| Contracts.CheckExpected | src/usagebassoon/contracts.py:283-322 | the decision for one expected text, as spelled out by `ContractNumbers.DriftsExactly` |
| Contracts.DiffContract | src/usagebassoon/contracts.py:247-332 | **Main.** the events are exactly the drift of each text, at most one per text, and fatal means some required one drifted; what drifts is spelled out by `ContractNumbers.DriftsExactly` |
| ContractNumbers.DriftsExactly | src/usagebassoon/contracts.py:283-329 | **Main.** a text drifts as unknown exactly if it is present and not expected, as missing exactly if it is required and absent other than below empty arrays only or not marked throughout, and otherwise as changed exactly if some type it is present with is neither permitted nor an integer where a float is |
| ContractNumbers.WritingWholeNeverDrifts | src/usagebassoon/contracts.py:308-311 | **Main.** a payload with any of its floats, at any depth, written as integers does not drift from the contract built from the original |
| ContractNumbers.WritingFractionsDriftsExactly | src/usagebassoon/contracts.py:308-311 | **Main.** with integers written as floats instead exactly those texts drift, as type changes, that now have a float and did not permit one |
| ContractNumbers.UnpermittedFloatDrifts | src/usagebassoon/contracts.py:308-322 | for any contract a float drifts wherever none is permitted |
| ContractNumbers.WritingWholeKeepsPresence | src/usagebassoon/contracts.py:131-195 | writing floats as integers keeps every text present, its marks complete or not, and its types but for the integers |
| ContractPaths.TextsIdentifyPaths | src/usagebassoon/contracts.py:146-168 | **Main.** for keys without "." or "[]", and no empty key at the top, two paths have the same text exactly when they are the same |
| ContractPaths.TextsCollideExactly | src/usagebassoon/contracts.py:146-168 | with empty keys anywhere, two paths share a text if and only if they are the same behind the empty keys at the top |
| ContractPaths.EmptyKeysCollide | src/usagebassoon/contracts.py:155-157 | an empty key at the top makes two paths share a text |
| ContractPaths.PresentPathsAreClean | src/usagebassoon/contracts.py:131-195 | payloads whose keys hold no "." or "[]", empty keys allowed, have only paths of such names |
| ContractPaths.PartitionCutsSegment | src/usagebassoon/contracts.py:229-231 | the text before the first dot is the first segment: a name with its array marks, or the empty text of an empty key |
| ContractPaths.TextUnfolds | src/usagebassoon/contracts.py:229-244 | one call of the check on a text handles one segment of the path |
| ContractPaths.FollowersAgree | src/usagebassoon/contracts.py:229-244 | any two checks that go segment by segment decide alike |
| ContractPaths.TextsDecide | src/usagebassoon/contracts.py:229-244 | from any step behind the top the check on a path's text decides what the check on its segments decides |
| ContractPaths.TextsDecideTolerance | src/usagebassoon/contracts.py:227-244 | for every clean path and payload, empty keys anywhere, the check on path texts goes through the segments from behind the empty keys at the top, staying where it is on every other empty key |
| ContractPaths.TextsMisreadExactly | src/usagebassoon/contracts.py:227-244 | **Main.** the check on a path's text agrees with the check on its steps for every payload if and only if no empty key stands on the path before an array mark that can decide |
| ContractPaths.PathsWithoutEmptyKeys | src/usagebassoon/contracts.py:227-244 | on a path without empty keys the two checks always agree, whatever keys the payload holds elsewhere |
| ContractTexts.StemSharesText | src/usagebassoon/contracts.py:146-168 | every path has the text of the path without its first empty keys |
| ContractTexts.TextPresenceAddsUp | src/usagebassoon/contracts.py:131-195 | **Main.** a text is as present as its path in the payload and below every run of empty keys at the top together: types unite and counts add up |
| ContractTexts.StepPresenceExactly | src/usagebassoon/contracts.py:131-195 | it is as present as its path in the payload alone if and only if the path does not occur below such keys |
| ContractTexts.StepsTellTextsExactly | src/usagebassoon/contracts.py:131-195 | that is so for all texts if and only if the top object has no empty key |
| ContractTexts.CountsAreAllOrNothingExactly | src/usagebassoon/contracts.py:169-195 | **Main.** all records of a text are marked present, or none is, if and only if all places that hold its path are full, or none is |
| ContractTexts.CountsAreAllOrNothing | src/usagebassoon/contracts.py:169-195 | without an empty key at the top it is always one or the other, full exactly when every member of the outermost array has the path |
| ContractTexts.CountsCanBeMixed | src/usagebassoon/contracts.py:169-195 | a payload with an empty key at the top in which a text has one of two records marked present |
| ContractTexts.ToleratedIsAbsentUnlessDeeper | src/usagebassoon/contracts.py:227-244 | a tolerated text whose path does not divert is absent exactly when the path does not occur below empty keys at the top |
| ContractTexts.ToleratedTextIsAbsentExactly | src/usagebassoon/contracts.py:227-244 | in payloads without an empty key at the top being tolerated means being absent, for all of them, if and only if the first empty keys of the path do not lead straight to a named field with a deciding mark behind it |
| ContractTexts.ToleratedMeansAbsentExactly | src/usagebassoon/contracts.py:227-244 | **Main.** in all payloads it does if and only if, besides, the path does not start at a field with a deciding mark behind it |
| ContractTexts.PresentPathIsTolerated | src/usagebassoon/contracts.py:227-244 | a payload with a nested empty key in which a present text is tolerated |
| ContractTexts.PresentBelowEmptyKeyIsTolerated | src/usagebassoon/contracts.py:227-244 | a payload with an empty key at the top in which one is, though its path does not divert |
| ContractTexts.DriftAgrees | src/usagebassoon/contracts.py:247-332 | drift of an expected text is that of its path on steps if no empty key stands before a deciding mark and the path does not occur below empty keys at the top |
| ContractTexts.DriftAgreesExactly | src/usagebassoon/contracts.py:247-332 | **Main.** without an empty key at the top that is so for all contracts and payloads if and only if no empty key stands on the path before a deciding mark |
| ContractTexts.MissingBelowArray | src/usagebassoon/contracts.py:283-305 | a required path below an outermost array is missing exactly when some member lacks it and its absence is not tolerated |
| ContractTexts.EmptyInnerArraysTogetherOnly | src/usagebassoon/contracts.py:179-185 | absence from inner arrays is tolerated exactly when all inner arrays are empty |
| ContractTexts.EmptyInnerArraysOnTexts | src/usagebassoon/contracts.py:247-305 | so the text drifts as missing exactly when some member lacks the field and some inner array is not empty |
| ContractTexts.AddedFieldsAreOnlyUnknown | src/usagebassoon/contracts.py:247-332 | **Main.** fields with names fresh to the contract, at any depth and with no empty key added at the top, change the diff only by unknown-field events and never what is fatal |
| ContractTexts.AddedFieldsAreOnlyUnknownExactly | src/usagebassoon/contracts.py:247-332 | **Main.** for a contract with an entry that can drift at all, fields of the given fresh names do so in all payloads if and only if the empty key is not one of the names |
| ContractTexts.AddedEmptyKeyIsFatal | src/usagebassoon/contracts.py:247-332 | an empty key added at the top that makes a required field drift, fatally |
| Publication.UpsertStore.PersistBatch | src/usagebassoon/backends/base.py:604-618 | an attempt applies all statements or none, and none if a `collection` row of the run is there; it reports success exactly when nothing breaks up to its commit and the acknowledgement arrives, where an attempt that finds the run does no more than open the store, look and commit; an unbroken attempt is applied whether or not it is acknowledged |
| Publication.UpsertStore.HasCommittedRun | src/usagebassoon/backends/duckdb_local.py:464-473 | finds exactly a `collection` row of the run |
| Publication.PublishedExactlyOnce | src/usagebassoon/backends/base.py:604-618 | **Main.** serial attempts of any runs, whatever each client was told, leave what applying the first committed attempt of every run once leaves |
| Publication.FirstCommitsAreDistinct | src/usagebassoon/backends/base.py:604-618 | those are one per run that had a committing attempt, and no others |
| Publication.LedgerHoldsRunOnce | src/usagebassoon/backends/base.py:604-618 | each applied run's ledger rows are there once |
| Publication.RunIsLedgeredAtMostOnce | src/usagebassoon/backends/duckdb_local.py:464-473 | a run's ledger rows are there once if any attempt committed and not at all otherwise |
| Publication.GuardNeedsSummary | src/usagebassoon/backends/duckdb_local.py:464-473 | publishing twice applies once if and only if the batch carries its `collection` row |
| Publication.PersistWithRetries | src/usagebassoon/persistence.py:285-333 | a reported success is published, a failure is published once or not at all, and no attempt is made past the limit or a final error |
| Publication.AppendStore.PersistBatch | src/usagebassoon/backends/bigquery.py:1762-1791 | the ledger is appended only after every fact table was reported |
| Publication.AttemptAddsExactly | src/usagebassoon/backends/bigquery.py:1762-1791 | an attempt adds a fact entry for exactly the tables whose append landed, and the ledger entry exactly if every append was reported and its own landed |
| Publication.LedgerImpliesFacts | src/usagebassoon/backends/bigquery.py:1762-1791 | **Main.** after any attempts of any runs a ledger row is preceded by all fact tables of its run |
| Restore.RestoreIsExact | src/usagebassoon/backends/bigquery.py:1417-1576 | **Main.** in every run of clients, jobs and lost replies: no rows before a receipt, exactly the snapshot's rows once there is one |
| Restore.RestoredStaysRestored | src/usagebassoon/backends/bigquery.py:1161-1175 | no later attempt changes restored rows or receipts again once a snapshot with rows is receipted |
| Restore.RowsBlockCommits | src/usagebassoon/backends/bigquery.py:1501-1576 | with rows in place no step changes tables or receipts |
| Restore.CommitInsertsSnapshot | src/usagebassoon/backends/bigquery.py:1501-1576 | a commit inserts exactly its snapshot |
| Restore.StepKeepsInv | src/usagebassoon/backends/bigquery.py:1359-1576 | every step keeps stages faithful, jobs settled once, commits ready and the tables exact |
| Restore.StepKeepsStagesFaithful | src/usagebassoon/backends/bigquery.py:1417-1500 | a stage holds its file's rows once its one load succeeded and none before |
| Restore.StepKeepsCommitsReady | src/usagebassoon/backends/bigquery.py:1359-1397 | a commit is submitted only after every load of its attempt succeeded |
| Restore.RunKeepsInv | src/usagebassoon/backends/bigquery.py:1417-1576 | the invariant holds in every reachable state |
| Restore.NegativeAnswerCanBeWrongExactly | src/usagebassoon/backends/bigquery.py:1161-1175 | **Main.** in every reachable state in which an attempt reads no receipt: over all continuations that submit no further commit of its operation, its answer "not committed" can turn out wrong if and only if a pending commit of that operation would succeed if run now |
| Restore.FailsForGood | src/usagebassoon/backends/bigquery.py:1501-1576 | a pending commit that would fail keeps failing, whatever steps follow |
| Restore.WrongAnswerNeedsCommit | src/usagebassoon/backends/bigquery.py:1161-1175 | a wrong answer goes back to a commit that was pending, and would have succeeded, when the receipt was read |
| Restore.CommitMakesAnswerWrong | src/usagebassoon/backends/bigquery.py:1161-1175 | such a commit makes some continuation answer wrongly |
| Restore.NegativeAnswerIsRightExactly | src/usagebassoon/backends/bigquery.py:1161-1175 | nothing but a commit of the operation between the two looks makes the answer wrong |
| Restore.NegativeAnswerIsRightWhenQuiet | src/usagebassoon/backends/bigquery.py:1161-1175 | it is right if no commit of the operation was pending at the first look and none is submitted before the second |
| Restore.ReceiptedSince | src/usagebassoon/backends/bigquery.py:1161-1175 | an operation is receipted since some state exactly when one of its commits ran since |
| Restore.RowlessSnapshotReceiptedTwice | src/usagebassoon/backends/bigquery.py:1161-1175 | an eight-step run of two attempts at a snapshot without rows in which that answer is wrong and the snapshot is receipted twice |
| LocalRestore.LocalStore.RestoreSnapshot | src/usagebassoon/backends/duckdb_local.py:307-328 | nothing changes unless all appends and the receipt go in together, whichever statement fails; a receipted operation succeeds without doing anything, rows in any table are refused exactly when the operation is not receipted, and success is never reported of an attempt that broke before its commit |
| LocalRestore.LocalStore.Fill | src/usagebassoon/backends/duckdb_local.py:317-324 | the batches are appended in order, each after the deletion that goes with it, and the first failing statement stops |
| LocalRestore.LocalStore.CheckEmpty | src/usagebassoon/backends/duckdb_local.py:237-262 | every destination table is inspected |
| LocalRestore.LocalRestoreIsExact | src/usagebassoon/backends/duckdb_local.py:307-328 | **Main.** any operations repeated in any order under any faults: each is receipted at most once, at most one that has rows is, no rows are there before it, and then the rows are exactly its own if and only if the deletions before appends spared them |
| LocalRestore.AttemptsKeepConsistent | src/usagebassoon/backends/duckdb_local.py:307-328 | unconditionally the rows are those that restoring the receipted snapshot at the time of its receipt leaves |
| LocalRestore.RestoredStays | src/usagebassoon/backends/duckdb_local.py:297-320 | a receipted operation is never carried out again, and with rows in place nothing else is |
| LocalRestore.FillingEmptyTables | src/usagebassoon/backends/duckdb_local.py:317-324 | what fills empty tables is the snapshot's rows if and only if no debug file has a row older than 90 days in a batch that a nonempty batch follows |
| LocalRestore.LeftExactly | src/usagebassoon/backends/duckdb_local.py:434-447 | one table, batch by batch: it is left with its file's rows exactly under that condition, otherwise with fewer, and with none only if the file has none |
| LocalRestore.SomethingStays | src/usagebassoon/backends/duckdb_local.py:434-447 | a snapshot with rows never leaves all tables empty, however much is deleted |
| LocalRestore.StaleRowsAreLost | src/usagebassoon/backends/duckdb_local.py:434-447 | a snapshot whose restore commits and is receipted without its stale first row |
| StreamResume.ReadStreamBatches | src/usagebassoon/backends/bigquery.py:1887-1943 | **Main.** for any failures: each connection asks for the rows after those yielded, from where the one before it got to; one follows another exactly when that dropped transiently with an affordable retry; what was yielded is a prefix of the stream, and a normal return has yielded all of it once |
| StreamResume.Drain | src/usagebassoon/backends/bigquery.py:1905-1925 | one connection yields everything it delivers, however chunked, and counts it in the offset |
| PricingCheckpoint.WriteIsOrderedAndScoped | src/usagebassoon/collector.py:156-188 | a checkpoint never replaces a later one, and other destinations of a readable catalog are untouched |
| PricingCheckpoint.Profile.PreparePrices | src/usagebassoon/collector.py:203-212 | the refresh set is what was pending plus what a change of presence demands, and it is persisted |
| PricingCheckpoint.Profile.FilterPrices | src/usagebassoon/collector.py:214-234 | without the custom file nothing is dropped; with it no custom price, none of a needed or recorded model and none for a day on which the model is unpriced is dropped, and every other refreshed price is; the models of dropped prices leave the pending set |
| PricingCheckpoint.Profile.AcknowledgePrices | src/usagebassoon/collector.py:236-244 | published models leave the pending set, and presence moves only when it is empty |
| PricingCheckpoint.Collect | src/usagebassoon/orchestrator.py:168-318 | the three methods in order, cut off at any crash point, make a run the lemmas speak of; and if every fetched price has the custom file as its source exactly when the file is there and lists its model, the run publishes custom prices for exactly the listed models and ignores none of theirs |
| PricingCheckpoint.PresenceAdvancesExactly | src/usagebassoon/collector.py:236-244 | presence moves exactly at the end of an uninterrupted run whose whole refresh set was published or filtered |
| PricingCheckpoint.OwedModelsArePersisted | src/usagebassoon/collector.py:203-244 | **Main.** over any runs and crash points every refresh model not yet published or filtered is in the persisted pending set and in the next refresh set |
| PricingCheckpoint.OffRunRevertsExactly | src/usagebassoon/collector.py:203-212 | a run without custom pricing refreshes all custom-priced models exactly when absence was not already recorded or they all were pending |
| PricingCheckpoint.OnRunReappliesExactly | src/usagebassoon/collector.py:203-212 | a run with custom pricing refreshes all known models exactly when presence was not already recorded or they all were pending |
| PricingCheckpoint.InterruptedOnRunIsNotReverted | src/usagebassoon/collector.py:206-208 | off, on and off again with models pending leaves a custom price in place |
| PricingCheckpoint.InterruptedOffRunIsNotReapplied | src/usagebassoon/collector.py:206-208 | on, off and on again with models pending leaves an automatic price in place |
| PricingCheckpoint.StrayedExactly | src/usagebassoon/collector.py:203-244 | **Main.** over every history of runs and crash points from a missing checkpoint, the models whose last published price disagrees with the recorded presence are exactly the listed ones that strayed: published by a run of an abandoned change of presence, or missed by a completed change to absence, and not published since by an agreeing run; so prices agree with the record if and only if there are none |
| PricingCheckpoint.HistoryStaysSettled | src/usagebassoon/collector.py:203-244 | the invariant behind it: a checkpoint knows every custom price it will have to revert, but for the missed ones |
| PricingCheckpoint.CompletedFlipSettles | src/usagebassoon/collector.py:236-244 | when presence moves every price is right but those of missed models, which stay custom: custom exactly for the listed models if the file is there, automatic everywhere else if not |
| PricingCheckpoint.MissedStayMissed | src/usagebassoon/collector.py:214-244 | missed are exactly custom-priced models that a checkpoint with recorded presence and nothing pending does not know |
| PricingCheckpoint.WorldsFollowCatalog | src/usagebassoon/collector.py:156-244 | the checkpoints of those histories are the ones read from the catalog file |
| PricingCheckpoint.LostAcknowledgementIsNotReverted | src/usagebassoon/collector.py:228-244 | a run that publishes a custom price next to an empty refresh set and fails before recording it leaves a missed model, whose price a completed run without the file does not revert |
| SupervisedResource.RepliesAreAligned | src/usagebassoon/deadlines.py:140-251 | **Main.** in every run what a call returned is a reply the child sent earlier, with that very verdict, while it was serving that very call, and never an invalid one |
| SupervisedResource.ReadRepliesAreDelivered | src/usagebassoon/deadlines.py:214-251 | **Main.** conversely a call whose reply has been read ends with exactly the verdict the child sent for it, or uncertainly and closed if that is the invalid one |
| SupervisedResource.OneAnswerPerRequest | src/usagebassoon/deadlines.py:318-389 | the child answers a request at most once, so that reply is the only one |
| SupervisedResource.FramesWereSent | src/usagebassoon/deadlines.py:194-208 | every frame in the pipe, read or returned was sent by the child for its request |
| SupervisedResource.OutcomesAreFinal | src/usagebassoon/deadlines.py:209-251 | what a call ended with never changes |
| SupervisedResource.RefusedExactlyWhenClosed | src/usagebassoon/deadlines.py:209-217 | the lock holder is refused by a closed resource and starts an exchange on an open one |
| SupervisedResource.LockIsLetGo | src/usagebassoon/deadlines.py:186-251 | however a call ends it releases the connection lock, and some end is always open to it |
| SupervisedResource.TerminatingCloses | src/usagebassoon/deadlines.py:253-256 | the child may die at any time; terminating the resource, in an exchange or outside one, closes it, and an exchange so ended is uncertain |
| SupervisedResource.StoppedChildIsSilent | src/usagebassoon/deadlines.py:318-392 | a child that died or stopped takes and answers nothing more |
| SupervisedResource.UndisturbedExchange | src/usagebassoon/deadlines.py:180-251 | from every reachable state in which the resource is open and free and the child lives, the next call can be carried through, ends with what the child answers, and leaves the resource open and free again |
| SupervisedResource.UncertainOutcomeIsFinal | src/usagebassoon/deadlines.py:180-281 | **Main.** after a timed-out, interrupted, undeliverable or invalid exchange the resource stays closed and later calls are refused without touching the pipes |
| SupervisedResource.UncertainMeansClosed | src/usagebassoon/deadlines.py:253-256 | such an outcome closes the resource |
| SupervisedResource.LeftoversMeanClosed | src/usagebassoon/deadlines.py:180-251 | while a frame or exchange is left over no other exchange can start |
| SupervisedResource.ClosedStaysClosed | src/usagebassoon/deadlines.py:253-256 | closing is for good |
| SupervisedResource.NothingStartsOnceClosed | src/usagebassoon/deadlines.py:214-217 | a call entering after closing gets nothing but a refusal |
| SupervisedResource.StepKeepsInv | src/usagebassoon/deadlines.py:180-392 | every step of owner, I/O thread and child keeps at most one frame under way, and it is the lock holder's |
| SupervisedResource.RunKeepsInv | src/usagebassoon/deadlines.py:180-392 | that holds in every reachable state |
| Deadlines.Deadline.Cleanup | src/usagebassoon/deadlines.py:426-434 | the root's one allowance, allocated by the first to ask |
| Deadlines.Deadline.Remaining | src/usagebassoon/deadlines.py:417-424 | fails exactly when nothing remains, otherwise the capped rest |
| Deadlines.Deadline.Limited | src/usagebassoon/deadlines.py:482-498 | a deadline under another, never later than it nor than the given seconds from now |
| Deadlines.Scopes.ForRequest | src/usagebassoon/deadlines.py:331-340 | the child's root ends with the request, and is its own allowance exactly for a cleanup request |
| Deadlines.Scopes.EnterOperation | src/usagebassoon/deadlines.py:455-469 | a nested operation reuses the enclosing budget |
| Deadlines.Scopes.EnterLimited | src/usagebassoon/deadlines.py:482-498 | a limited scope never ends after its enclosing deadline nor later than its own seconds |
| Deadlines.Scopes.EnterCleanup | src/usagebassoon/deadlines.py:471-480 | entering cleanup from any scope makes the one allowance current |
| Deadlines.Scopes.Leave | src/usagebassoon/deadlines.py:455-498 | leaving restores the suspended scope and reports an overrun |
| Deadlines.Scopes.Terminate | src/usagebassoon/deadlines.py:253-262 | **Main.** terminating caps the allowance at the expiry of the failed exchange, plus the cleanup time unless that deadline is the allowance itself, and moves no other deadline; scopes inside the allowance stay contained in it if and only if none of them ends after the cap |
| Deadlines.Perform | src/usagebassoon/deadlines.py:405-498 | **Main.** over any script of nested scopes and terminations foreground scopes stay inside their parents, and the allowance is allocated once and only shrinks |
| Deadlines.EveryRequestGetsOneAllowance | src/usagebassoon/deadlines.py:426-434 | all scopes, the allowance included, get the same object |
| Deadlines.LimitedScopeOutlivesShrunkAllowance | src/usagebassoon/deadlines.py:253-262 | a scope inside the allowance can outlive it once it shrinks |
| MutationGate.MutationsArePaced | src/usagebassoon/buckets/gcs.py:41-92 | **Main.** in every run of any number of threads same-object mutations are exclusive, and each starts at least 1.1 s after every earlier one ended |
| MutationGate.OneLiveGatePerKey | src/usagebassoon/buckets/gcs.py:66-78 | a gate in use or unexpired is the one in the table under its key |
| MutationGate.OneOwnerPerKey | src/usagebassoon/buckets/gcs.py:79-92 | at most one thread holds a lock for an object |
| MutationGate.BeginIsPaced | src/usagebassoon/buckets/gcs.py:84-87 | a mutation about to begin is an interval after every one done |
| MutationGate.UndisturbedStart | src/usagebassoon/buckets/gcs.py:62-88 | **Main.** from every reachable state a thread that finds nobody at its object gets through to its mutation, which starts at once or, if the last one is too recent, at exactly the earliest time allowed |
| MutationGate.UndisturbedEnd | src/usagebassoon/buckets/gcs.py:88-92 | from there it ends with its body, records that one mutation, and leaves nobody at the object and its gate closed for 1.1 s |
| MutationGate.EnterEvictsExactly | src/usagebassoon/buckets/gcs.py:66-77 | entering removes exactly the entries without users whose time has come, and uses the gate of the object unless that was one |
| MutationGate.StepKeepsCounted | src/usagebassoon/buckets/gcs.py:66-92 | every step, eviction included, keeps user counts and live gates right |
| MutationGate.StepKeepsLocked | src/usagebassoon/buckets/gcs.py:79-92 | every step keeps each gate's lock with one of its visitors or none |
| MutationGate.StepKeepsTimed | src/usagebassoon/buckets/gcs.py:84-87 | what a thread read of the clock and of the next time stays valid |
| MutationGate.StepKeepsPaced | src/usagebassoon/buckets/gcs.py:66-92 | every past mutation stays enforced by time, by the gate in the table, or by the thread about to advance it |
| MutationGate.RunKeepsInv | src/usagebassoon/buckets/gcs.py:41-92 | the invariant holds in every reachable state |
| ProcessCapture.CaptureProcess | src/usagebassoon/collector.py:635-767 | **Main.** a normal return is exactly both full streams of a child that ended by itself; otherwise it fails for a stated reason, having kept prefixes within both limits, and no round of reads starts later than the cleanup time after the first round that found the deadline passed or a fault |
| ProcessCapture.Drain | src/usagebassoon/collector.py:660-703 | the loop ends, keeps both streams faithfully, and terminates the child exactly when it grants a cleanup deadline |
| ProcessCapture.Turn | src/usagebassoon/collector.py:660-703 | one turn keeps both streams faithful and the rounds on time, and stops, reads, grants a cleanup deadline or brings the active one nearer |
| ProcessCapture.ReadPipe | src/usagebassoon/collector.py:674-700 | one nonblocking read: kept bytes stay the stream's prefix cut at the limit, and only an excess, a read error or end of file changes the rest |
| ProcessCapture.CheckDeadlines | src/usagebassoon/collector.py:661-672 | stops exactly at an expired cleanup deadline; times out and terminates exactly once |
| ProcessCapture.Pause | src/usagebassoon/collector.py:701-703 | a pause brings the active deadline nearer and never passes it by more than the clock does |
| ProcessCapture.Settle | src/usagebassoon/collector.py:709-764 | what is left to fail after the drain, never hiding an earlier fault; without a fault the child has exited |
| NoteId.PrintedIdIsNormal | src/usagebassoon/storage_model.py:101-135 | **Main.** the printed form of every version 5 UUID normalizes to itself |
| NoteId.PrintingIsInjective | src/usagebassoon/storage_model.py:101-115 | different UUIDs print differently |
| NoteId.CompactSpellsBits | src/usagebassoon/storage_model.py:101-115 | letter by letter the printed form is the base64url text of the 128 bits followed by four zero bits |
| NoteId.StandardTextNormalizes | src/usagebassoon/storage_model.py:118-135 | any other text, with or without the prefix, is left to the UUID constructor: what it refuses is refused, and of what it reads exactly version 5 is accepted, in printed form |
| NoteId.VersionFiveExactly | src/usagebassoon/storage_model.py:133-134 | version 5 means the variant bits 10 and the version bits 0101 |
| NoteId.NormalizeIsIdempotent | src/usagebassoon/storage_model.py:118-135 | what normalizing returns is a printed form, and normalizing it again changes nothing |
| NoteId.OneSpellingPerId | src/usagebassoon/storage_model.py:118-135 | **Main.** of the prefixed compact texts that decode to one UUID exactly the one with zero pad bits is accepted |
| NoteId.CanonicalMeansPadBitsZero | src/usagebassoon/storage_model.py:122-128 | re-encoding gives the text back exactly when its pad bits are zero |
| NoteId.ReadInvertsSpell | src/usagebassoon/storage_model.py:101-115 | decoding the letters that spell whole sextets gives the bits back |
| NoteId.SpellInvertsRead | src/usagebassoon/storage_model.py:118-135 | encoding undoes decoding of whole letters |
| NoteId.BarePrintedForm | src/usagebassoon/storage_model.py:118-122 | without the prefix a printed form is accepted exactly when it does not begin with the prefix's letters |

## Left out

- PinnedQuery.RewritePreservesMeaning: needs that no clock in a CURRENT_DATE zone feeds the result, which is exact; volatile functions other than the two clocks, lateral joins, table functions, recursive CTEs and clauses carried by a table reference itself (PIVOT, UNPIVOT, TABLESAMPLE) are not in the query language of the model.
- PinnedQuery.RejectedExactly: does not say which of several defects is reported first.
- Restore.RestoreIsExact: promises one receipt for snapshots with rows only, since one without rows can be receipted twice; that BigQuery itself expires raw partitions after 90 days is not part of this model.
- LocalRestore.LocalRestoreIsExact: needs the snapshot to name each table once, as a mapping does.
- PricingCheckpoint.StrayedExactly: takes what the custom file lists as fixed, since the code notices only whether the file is there; how the recovery query finds stored custom models is a parameter.
- ContractTexts.TextPresenceAddsUp: keys that hold "." or "[]" are not covered where texts are related to single paths; collection, contracts and diffs on texts are for any keys.
- NoteId.BarePrintedForm: how the standard library reads other UUID texts is a parameter, as is the hash that makes a version 5 UUID.
- DailyFacts.ReconcileAll: the floating-point comparison of reported rates is a parameter; declared costs are compared exactly over real numbers with the code's own tolerance.
- ProcessCapture.CaptureProcess: interrupts of the reading thread and failures to configure the pipes are not modelled.
- CollectionPlan.CollectModels: covers the models domain; report, price and session targets pass through as given.
- Deadlines.Scopes.Terminate: models only the budget arithmetic of terminating a resource, not killing, reaping and closing it.
- StreamResume.ReadStreamBatches: whether a retry delay is affordable is part of the failure pattern, not computed from the remaining budget.
- Snapshot catalog, reader and file format, compaction, and the SQL views are not part of this model, except that a canonical read is the best row under the shared order.
- Configuration, schema installation, command line, reports, logging, scheduling and privacy masking are not part of this model.
- Concurrent publication of one run by two processes: runs are serial under the collection lock, as in the code.
