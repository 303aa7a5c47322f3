# Durable grid: a verified model

This project models the durable state machines of a bring-your-own-key
enrichment grid and proves properties of them in Dafny. The grid keeps tables of
rows and cells in PostgreSQL. Editing a row recomputes formulas, records a
versioned "dirty set" (a row settlement), queues enrichment runs whose results
edit the row again, and finally delivers the row to webhooks and writebacks.
Records arrive through push endpoints and pull sources, are published through a
leased outbox, are paged and searched, and leave through an Airbyte writer and an
analytics projection that must forget purged workspaces.

Every database transaction is one atomic step on an in-memory state. A thrown
error rolls the transaction back and changes nothing. Code that updates state step
by step is a class whose methods are proved against a specification function on
values; what the system promises is then proved about that function, over every
run.

## Modules

| files | part of the system |
|---|---|
| Collections, Sums | sorted identifier lists, finite sums |
| FormulaGraph, FormulaTraversal, FormulaValues, FormulaMeaning, FormulaRecompute, FormulaTransactions | dependency graph, Kahn's order, evaluation and the meaning of each function, incremental recomputation, cell edits and formula creation |
| FormulaTypes, FormulaStorage | the formula type checker and its soundness, values that storage rewrites |
| Fanout, RowSettlements, SettlementOutcomes, EnrichmentCascade | fan-out decision, dirty sets and settlements, what a settlement starts, termination of automatic enrichment |
| CellRuns, BulkRuns, BulkOutcomes, RunStore | cell runs, bulk-run batches, what they do to cells, their transactions |
| IngestionMapping, MappingOutcomes, Upsert, PushedValues, ChunkUpsert, TableWriter, Ingestion, IngestionOutcomes, IngestionEndpoint | field mapping, sequential and chunked upsert, the cells that pushed values leave, staged push batches |
| SourceRuns, SourceWindows, SourceScheduler, SourcePages, SourceOutcomes, SourceStore | pull sources: runs, incremental windows, schedules and ticks over all sources, pages, transactions |
| Leases, AnalyticsErasure, AnalyticsStore | expiring claims, timed erasure of purged workspaces |
| GridPaging, SearchPattern | keyset paging, search by escaped pattern |
| CanonicalJson, AirbyteWriter, AirbyteInput | canonical JSON text, the destination writer, what becomes of its input lines |
| SchemaLifecycle, SchemaGuards, SchemaTypes, ColumnConversion, SchemaStore | tables, columns, views and sources over their life, when a change is refused, their types, type conversion |

A specification function says how a decision is computed. The modules named
Meaning, Outcomes, Values, Input and Guards say, without those functions, what the
decision is: in terms of the formula, the dependency rows, the record's own values,
the batch's items or the input lines.

`dafny verify dfyconfig.toml` checks the whole project.

## Where the code does not meet the expectation

The model follows the code. Each of these has a lemma with a concrete input, or
an exact condition for all inputs.

- Formulas are evaluated from memory and stored through PostgreSQL. A value that
  storage rewrites makes a dependent formula differ from its expression over the
  stored row: a recomputed row agrees exactly when storage keeps every value the
  call computed for a reached formula. Such values come only from literals: a JSON
  literal whose members `jsonb` reorders, or a timestamp without milliseconds sent
  as an expression tree. Timestamps typed as formula text are always kept.
- Two fields of a push endpoint or source can be mapped onto one column: a column
  created as "plan (import 2)" for the field "plan" is found again by name when a
  later batch has a field of that name. The mapping stays injective exactly when no
  new field names a column that is already mapped.
- One idle HubSpot source whose window has not advanced makes the whole scheduling
  call throw, so no other due source is queued in that call. No call whose clock
  reading is later than all earlier readings throws; a call that reads the same
  instant as a run queued before it, or an earlier one, can.
- Sorted paging loses rows when a sort cell holds a value of another type than its
  column: it is correct at every page limit exactly when there is no such cell or
  at most one row. Such cells can arise because a column may be converted while the
  source that feeds it is paused, and resuming checks only that mapped columns are
  active. A resumed source feeds text exactly when no column it maps was last
  converted to another type.
- An archived formula does not block the conversion of its input, and restoring it
  does not check types, so an active formula may see another type than it was
  validated for, and edits of that input are then refused. A restored formula is
  typed exactly when the checker still gives it its type over the converted inputs;
  in a history that converts no input of an archived formula, edits of typed rows
  always recompute.
- The grace period of an analytics erasure covers in-flight inserts exactly when
  the insert latency and the time between a purge's timestamp and its commit fit
  into it together.

## Model

| member | source | states |
|---|---|---|
| FormulaTraversal.CollectDependents | packages/db/src/formulas.ts:250-255 | the adjacency map holds, for every column, exactly its dependents |
| FormulaTraversal.CollectReachable | packages/db/src/formulas.ts:257-265 | the breadth-first search returns exactly the columns at the end of some walk from a changed column |
| FormulaTraversal.CountIndegrees | packages/db/src/formulas.ts:268-279 | every reached column's in-degree counts its dependencies inside the reached set |
| FormulaTraversal.OrderReachable | packages/db/src/formulas.ts:280-295 | Kahn's loop with the sorted ready list computes the greedy least-first listing |
| FormulaTraversal.CountOut | packages/db/src/formulas.ts:288-293 | visiting a column lowers the in-degrees of its dependents and readies exactly those that become free |
| FormulaGraph.LeastFirstIsTopological | packages/db/src/formulas.ts:280-295 | the visit order lists reached columns once, each after its reached dependencies |
| FormulaGraph.LeastFirstIsUnique | packages/db/src/formulas.ts:280-295 | any listing that always takes the least available column is the visit order |
| FormulaGraph.VisitOrderIgnoresOrder | packages/db/src/formulas.ts:250-295 | the visit order does not depend on the order in which dependency rows are read |
| FormulaGraph.CompleteIffAcyclic | packages/db/src/formulas.ts:296-298 | the order covers the reached set if and only if that set has no cycle |
| FormulaValues.Platform.EvaluateFrame | packages/domain/src/formulas.ts:98-191 | a formula's value depends only on the columns it references; what the value is, FormulaMeaning.EvaluationMeans says |
| FormulaMeaning.EvaluationMeans | packages/domain/src/formulas.ts:98-191 | for every formula and row evaluation yields exactly what the rules of the functions say: IF the branch its condition selects and nothing for another condition, COALESCE its first non-empty argument, arithmetic the left fold or nothing on an empty argument or a zero divisor, EQUALS, CONCAT and the text functions likewise |
| FormulaMeaning.IfPicksItsBranch | packages/domain/src/formulas.ts:183-188 | for all expressions: a call of IF evaluates to its second argument's value when the condition is true, to its third's when it is false, and to nothing otherwise |
| FormulaMeaning.RecomputedFormulasMean | packages/db/src/formulas.ts:300-360 | a recompute holds for each reached formula what the formula means over the values in memory, and stores that value |
| FormulaValues.Platform.EvaluateIsCanonical | packages/domain/src/formulas.ts:98-191 | evaluation over stored values with canonical literals yields a value that storage keeps |
| FormulaRecompute.IncrementalEqualsFull | packages/db/src/formulas.ts:202-360 | after one recompute of a changed row every active formula equals its expression over the stored row, if the unreached ones did |
| FormulaRecompute.IncrementalEqualsFullBeforeStorage | packages/db/src/formulas.ts:300-360 | the in-memory values of the pass agree with every expression, whatever the literals |
| FormulaRecompute.RecomputeWritesReached | packages/db/src/formulas.ts:300-360 | one recompute writes the cells of the reached active formulas and of nothing else, one version each, and reports exactly those |
| FormulaStorage.AgreeIffKept | packages/db/src/formulas.ts:202-360 | for all schemas, rows and changes: after a recompute every active formula equals its expression over the stored row if and only if storage keeps every value computed for a reached formula |
| FormulaStorage.TextIsCanonicalIff | packages/domain/src/formula-language.ts:95-252 | a formula typed as text holds only literals that storage keeps if and only if storage keeps its JSON literals |
| FormulaStorage.RewrittenLiteralDisagrees | packages/db/src/cell-values.ts:4-35 | a concrete schema that disagrees for every literal that storage rewrites |
| FormulaTypes.EvaluationFits | packages/domain/src/formulas.ts:98-290 | over cells that are empty or of their column's type, a formula the checker accepts yields nothing or a value of the inferred type |
| FormulaTypes.InferenceMeans | packages/domain/src/formulas.ts:193-290 | for every formula the checker infers a type exactly when the typing rules derive it |
| FormulaTypes.ValidationMeans | packages/domain/src/formulas.ts:70-96 | a definition is accepted exactly when it is at most twelve levels deep and 128 nodes large and the typing rules give it a type that is not empty |
| FormulaTypes.TypedRowsRecompute | packages/db/src/formulas.ts:306-322 | over typed formulas and a typed row a recompute keeps the row typed and fails only for a cycle, never for a wrong type or configuration |
| FormulaTypes.NewFormulaIsSound | packages/db/src/formulas.ts:116-175 | an accepted formula keeps the schema typed and acyclic |
| FormulaRecompute.CyclicErrorIffCycle | packages/db/src/formulas.ts:296-298 | the cyclic error is thrown if and only if there is work and the reached columns contain a cycle |
| FormulaRecompute.QueryOrderIsInvisible | packages/db/src/formulas.ts:202-360 | cells, versions and changed formulas are the same for every order of the dependency rows |
| FormulaTransactions.GridTable.RecomputeDependentFormulas | packages/db/src/formulas.ts:202-360 | the imperative pass stores the recomputed cells of the one row, or reports the same error; their values are those of FormulaMeaning.RecomputedFormulasMean |
| FormulaTransactions.GridTable.WriteGridCell | packages/db/src/grid.ts:288-402 | an accepted edit stores the value, bumps the version and keeps every formula of the table consistent; it is refused as not editable, of a wrong type or for its version exactly when the row or column is not an active input, the value has another type, or the cell has another version, and then changes nothing; in a typed acyclic table no edit is refused for its formulas |
| FormulaTransactions.GridTable.CreateFormulaColumn | packages/db/src/formulas.ts:34-200 | creating a formula checks its definition, inserts its edges, recomputes every active row or rolls back when one fails, keeps the table consistent, typed and acyclic, and in such a table fails only for its definition or sources |
| FormulaTransactions.EditKeepsRowConsistent | packages/db/src/grid.ts:288-402 | an input edit followed by recomputation leaves every active formula equal to its expression |
| Fanout.DecideAutomaticFanout | packages/domain/src/automatic-enrichment-policy.ts:10-21 | the fan-out is blocked exactly when the different columns exceed the limit, else all are queued in ascending order |
| RowSettlements.RecordKeepsConsistent | packages/db/src/row-automations.ts:49-194 | a mutation adds its changed columns to the open dirty set exactly when something listens |
| SettlementOutcomes.RecordingIsExact | packages/db/src/row-automations.ts:49-194 | a mutation is the row's next version and leaves a pending settlement with exactly its changed columns if and only if a webhook, a writeback of a changed column, an on_change dependent of one or a waiting delivery hears of it |
| RowSettlements.ProcessConserves | packages/db/src/row-automations.ts:196-516 | skip, abort and wave keep the union of open dirty columns; block and delivery close exactly that union; which columns a wave holds, SettlementOutcomes.WaveIsExact says |
| SettlementOutcomes.WaveIsExact | packages/db/src/row-automations.ts:289-438 | processing starts a run of a column if and only if the column is in on_change mode and a dependency row leads from it to a fresh dirty column, provided the row is current and the whole wave is free, accepted and within the limit; otherwise it starts none |
| SettlementOutcomes.OtherwiseDelivers | packages/db/src/row-automations.ts:263-516 | without a wave: too many columns fail the settlement, a rejected one throws, a current row with nothing triggered or active is delivered with exactly its open dirty columns, and otherwise only the settlement is skipped |
| SettlementOutcomes.NoManualColumnStarts | packages/db/src/row-automations.ts:318-344 | over every run of steps processing starts no column outside on_change mode, nor one that depends on no fresh dirty column |
| RowSettlements.WorkerFailureKeepsConsistent | packages/db/src/row-automations.ts:536-562 | a worker failure keeps the open dirty columns and consumed settlements |
| SettlementOutcomes.FailureMeans | packages/db/src/row-automations.ts:536-562 | after a failure to be retried the settlement can be processed again; after the last one processing it throws |
| RowSettlements.StepConserves | packages/db/src/row-automations.ts:196-562 | every step keeps consumed settlements frozen and the dirty set conserved |
| RowSettlements.ConsumedOnce | packages/db/src/row-automations.ts:518-534 | over any run a consumed settlement never changes again |
| RowSettlements.NothingIsLost | packages/db/src/row-automations.ts:263-516 | over any run an open dirty column stays open or is carried by a later delivery or block |
| RowSettlements.RowAutomation.RecordRowMutation | packages/db/src/row-automations.ts:49-194 | the statements of recording a mutation refine the specification and keep consistency |
| RowSettlements.RowAutomation.QueueRuns | packages/db/src/row-automations.ts:407-414 | the wave loop queues one run per column or aborts as a whole |
| RowSettlements.RowAutomation.ProcessRowSettlement | packages/db/src/row-automations.ts:196-516 | processing a settlement statement by statement refines the decision whose outcomes SettlementOutcomes states |
| RowSettlements.RowAutomation.SetWorkerFailure | packages/db/src/row-automations.ts:536-562 | a failure requeues or fails only a pending settlement |
| EnrichmentCascade.HeightDrops | packages/db/src/row-automations.ts:318-337 | a dependent column is strictly lower than the column it depends on |
| EnrichmentCascade.WaveIsPaid | packages/db/src/row-automations.ts:289-438 | the runs of a wave cost no more than the fresh dirty columns that caused it |
| EnrichmentCascade.ResultIsPaid | apps/worker/src/execute-cell-run.ts:579-729 | the settlement and dirty columns of a result cost no more than its run had set aside |
| SettlementOutcomes.ResultTriggers | apps/worker/src/execute-cell-run.ts:579-662 | a result frees its cell and leaves a settlement with its column and the recomputed formulas that triggers every on_change column depending on one of them |
| EnrichmentCascade.EveryStepCosts | packages/db/src/row-automations.ts:196-562 | with an acyclic graph and no outside edits every step of a cascade lowers the potential |
| EnrichmentCascade.EveryCascadeIsFinite | apps/worker/src/execute-cell-run.ts:140-173 | no automatic cascade is longer than the potential of the state it starts in |
| EnrichmentCascade.EditsStartFiniteCascades | packages/db/src/row-automations.ts:49-194 | an edit at any moment starts a cascade that ends as well |
| SchemaLifecycle.AutomaticCascadesEnd | packages/db/src/enrichments.ts:150-181 | over every schema that can arise, whatever happened to it, automatic enrichment ends |
| CellRuns.QueueRunAgrees | packages/db/src/enrichments.ts:872-939 | queueing keeps: a cell is queued or running exactly when exactly one of its runs is, with the same status |
| CellRuns.SetBothAgrees | apps/worker/src/execute-cell-run.ts:546-577 | moving a run and its cell together keeps that agreement |
| CellRuns.TransitionsAgree | apps/worker/src/execute-cell-run.ts:140-729 | start, retry, success and failure keep it |
| BulkOutcomes.RunsMoveOn | apps/worker/src/execute-cell-run.ts:140-729 | a start takes exactly a queued run and retry, success and failure exactly a running one; the run moves on, a start counts an attempt, and its cell follows |
| BulkOutcomes.RequestsQueue | packages/db/src/enrichments.ts:872-939 | a request queues a run exactly when its cell is not queued or running and it is not rejected |
| BulkOutcomes.OnlyResultsWrite | apps/worker/src/execute-cell-run.ts:579-662 | over all transactions only a result of a running run changes a cell's value and version, and only the end of one advances the row |
| BulkRuns.ChunkAccounts | packages/db/src/bulk-runs.ts:424-577 | a chunk keeps queued + skipped + pending, touches only pending items, and progresses when it reports running |
| BulkRuns.ExpandAllAccounts | packages/db/src/bulk-runs.ts:489-552 | the item loop moves each picked item out of pending once and raises exactly one counter for it |
| BulkOutcomes.ChunkSelectsCells | packages/db/src/bulk-runs.ts:424-577 | a chunk takes the first pending items; an item gets a queued run exactly when its cell may be selected in the batch's mode and the request is not rejected, and is skipped otherwise; later items stay |
| BulkOutcomes.ChunkStatus | packages/db/src/bulk-runs.ts:453-577 | without deleted rows a chunk completes the batch exactly when it leaves nothing pending; a batch without creator fails |
| BulkRuns.CancelAgrees | packages/db/src/bulk-runs.ts:292-422 | cancelling keeps the agreement of cells and runs |
| BulkRuns.CancelAccounts | packages/db/src/bulk-runs.ts:343-420 | cancelling leaves nothing pending and keeps the account; the runs it stops are those of BulkOutcomes.CancelStopsItsRuns |
| BulkOutcomes.CancelStopsItsRuns | packages/db/src/bulk-runs.ts:343-420 | after a cancellation of an open batch no run that one of its items names is queued or running; exactly the active ones and their cells are cancelled and every other run and cell stays |
| BulkOutcomes.CancelledRunsStaySilent | packages/db/src/bulk-runs.ts:360-403 | over every run of transactions after a cancellation no result of a run the batch names changes anything |
| BulkRuns.DeleteRowIsSound | packages/db/src/schema.ts:1739-1743 | the cascade of a row deletion keeps the inequality queued + skipped + pending at most selected |
| BulkOutcomes.DeletedRowIsGone | packages/db/src/schema.ts:1733-1743 | a deleted row takes exactly its cells, their runs and its items with it; counters and everything else stay |
| BulkRuns.StepIsSound | packages/db/src/bulk-runs.ts:110-577 | every transaction keeps agreement, batch accounts and terminal states |
| BulkRuns.AlwaysSound | packages/db/src/bulk-runs.ts:110-577 | every run of transactions keeps agreement and accounts, rows being deleted or not |
| BulkRuns.CountersCountItems | packages/db/src/bulk-runs.ts:424-577 | over every run without row deletions queued and skipped count exactly the queued and skipped items, and with the pending ones they equal the selection |
| BulkRuns.ItemsLeavePendingOnce | packages/db/src/bulk-runs.ts:489-552 | over every run an item that has left pending keeps its status and run for as long as its row exists |
| BulkRuns.LateResultsChangeNothing | apps/worker/src/execute-cell-run.ts:579-729 | a result that arrives for a cancelled run changes no cell, row version or ledger entry |
| RunStore.RunStore.MarkSucceeded | apps/worker/src/execute-cell-run.ts:579-662 | storing a result changes run, cell, row version and ledger only when the run is still running |
| RunStore.RunStore.CancelBulkRunBatch | packages/db/src/bulk-runs.ts:292-422 | the statements of a cancellation refine the specification whose effect BulkOutcomes.CancelStopsItsRuns states |
| RunStore.RunStore.ExpandBulkRunBatchChunk | packages/db/src/bulk-runs.ts:424-577 | the statements of a chunk refine its specification |
| RunStore.RunStore.ExpandBulkRun | apps/worker/src/expand-bulk-run.ts:17-27 | the expansion loop ends for every chunk size with the batch no longer running |
| IngestionMapping.ExtendingTwiceIsOnce | packages/db/src/ingestion.ts:484-543 | a later chunk of a batch finds every field mapped and changes no column and no mapping |
| MappingOutcomes.FieldsGetTheirColumns | packages/db/src/ingestion.ts:482-543 | a batch keeps the entries of active input columns and adds one for each unmapped field, in order: to the first active column of that name if it is a text input, else to a new text input named after the field, with a suffix when an active column has the name |
| MappingOutcomes.ExtensionIsDecided | packages/domain/src/import-policy.ts:24-71 | a mapping is refused beyond a hundred fields, for an invalid field and for two new fields of one name, and extended otherwise when no field needs a name that is taken |
| IngestionMapping.MappingStaysInjective | packages/domain/src/import-policy.ts:24-71 | fields keep separate columns if and only if no new field names a column that is already mapped |
| IngestionMapping.TwoFieldsMayShareAColumn | packages/domain/src/import-policy.ts:44-69 | a concrete table and two batches after which two fields feed one column |
| Upsert.UpsertFollowsDecisions | packages/domain/src/ingestion-policy.ts:65-71 | with separate columns a record always fits and each mapped cell follows the decision for its field; what that is for the record's own values, PushedValues.CellsFollowValues says |
| PushedValues.CellsFollowValues | packages/domain/src/ingestion-policy.ts:58-71 | for a record over separate columns, names compared after normalization: a null or empty value leaves no cell, a text is the cell's value, a field the record or batch lacks leaves the cell alone for a push and empties it for a snapshot, and no other cell changes |
| PushedValues.LastWordStands | packages/db/src/ingestion.ts:592-684 | over any sequence of records the cell of a key's field is what the last record that speaks of it says |
| PushedValues.MutationsFollowValues | packages/db/src/ingestion.ts:592-700 | a record notes one row mutation with the columns of the fields it gives, all of them for a snapshot, seeing the row as it is afterwards, and none when it touches nothing |
| Upsert.KeysKeepRows | packages/db/src/ingestion.ts:545-592 | a record key keeps its row for ever and new keys get new rows |
| ChunkUpsert.FastPathDeletesTheSame | packages/db/src/ingestion.ts:616-649 | when no field is preserved the one bulk deletion removes exactly what the per-record deletions would |
| ChunkUpsert.ChunkIsSequential | packages/db/src/ingestion.ts:545-684 | a whole chunk equals upserting its records one by one, including when it aborts and what each row mutation sees |
| TableWriter.TableWriter.WriteRecords | packages/db/src/ingestion.ts:484-684 | the shared writing statements refine the chunk, count created rows, and roll back on an abort |
| Ingestion.ChunkIsReplay | packages/db/src/ingestion.ts:403-717 | a chunk equals replaying its records, each extending the mapping for itself |
| IngestionOutcomes.ChunkIsExact | packages/db/src/ingestion.ts:403-717 | a chunk of a running batch takes its next records, the asked number between one and a thousand, aborts exactly when replaying them does, and otherwise moves on behind them with the replayed table, counting known keys as updated and the others as created |
| IngestionOutcomes.StagingIsExact | packages/db/src/ingestion.ts:191-276 | a new idempotency key stages a batch exactly when the request is within the limits and repeats no record key; a known one names its batch or conflicts |
| IngestionOutcomes.ClaimIsExact | packages/db/src/ingestion.ts:331-401 | a batch is claimed exactly when it is the first one under way, and waits exactly when it is under way but not the first |
| IngestionOutcomes.FailureMeans | packages/db/src/ingestion.ts:719-743 | after a failure to be retried a batch is claimable and continues behind its applied records; after the last one it is neither claimable nor applied, and the next batch no longer waits |
| Ingestion.EveryRunIsSound | packages/db/src/ingestion.ts:191-743 | under any staging, claiming, chunking, retry and failure the table equals the accepted records upserted in batch order then ordinal order, and counters balance |
| Ingestion.AtMostOneRuns | packages/db/src/ingestion.ts:371-399 | at most one batch of an endpoint is running |
| Ingestion.ChunkingIsInvisible | packages/db/src/ingestion.ts:403-717 | two endpoints that finished the same requests hold the same table however they were chunked and interrupted |
| Ingestion.EarliestOpenBatchIsReady | packages/db/src/ingestion.ts:371-399 | some open batch can always be claimed |
| IngestionEndpoint.IngestionEndpoint.MarkIngestionBatchRunning | packages/db/src/ingestion.ts:331-401 | the claiming statements refine the specification and keep soundness |
| IngestionEndpoint.IngestionEndpoint.ApplyIngestionBatchChunk | packages/db/src/ingestion.ts:403-717 | the chunk transaction refines the specification, aborts exactly with it, and keeps soundness |
| SourceRuns.AtMostOneActiveRun | packages/db/src/sources.ts:367-485 | over every history at most one run of a source is queued or running, and it is the newest |
| SourceOutcomes.ManualIsExact | packages/db/src/sources.ts:367-417 | a manual run is queued exactly when the source is active, none of its runs is under way, none has this instant and, for HubSpot, the window's start is more than five minutes old; it gets the window from there |
| SourceOutcomes.DueIsExact | packages/db/src/sources.ts:434-480 | a due run is queued for its occurrence exactly when none is under way and none has the occurrence, and the call throws exactly when none is under way and there is no window |
| SourceOutcomes.AttemptsContinue | packages/db/src/sources.ts:921-991 | a claim is one more attempt at the next page; a failed run to be retried is claimable again and, after the last failure, neither runs nor accepts a page |
| SourceWindows.WindowsTile | packages/db/src/sources.ts:1115-1140 | every instant from the initial one to the watermark lies in exactly one succeeded run's window, and no other instant in any |
| SourceWindows.StepKeepsWindows | packages/db/src/sources.ts:850-861 | every step keeps windows that start where succeeded runs ended and are not empty |
| SourceWindows.NextScheduledIsEarliest | packages/domain/src/source-policy.ts:241-253 | the next scheduled run is the earliest later occurrence after now |
| SourceScheduler.TickAbortsExactlyWhenBlocked | packages/db/src/sources.ts:419-485 | a scheduling call aborts if and only if a selected idle HubSpot source reaches up to the reading less the safety lag |
| SourceScheduler.EveryHistoryStaysBehind | packages/db/src/sources.ts:171-246 | from creation on, whatever is queued, run or paused, no HubSpot window comes closer to the latest clock reading than the safety lag |
| SourceScheduler.TicksNeverAbort | packages/db/src/sources.ts:419-485 | after any history a call whose reading is later than every earlier one never aborts, and every due scheduled source without a run under way gets one for its occurrence unless one is recorded, and is next due at the earliest later occurrence; a full batch may leave sources due no earlier |
| SourceScheduler.CreationMeans | packages/db/src/sources.ts:103-246 | a HubSpot source needs an initial instant more than five minutes old; a new source is due from one interval after its creation on, a manual one never |
| SourceScheduler.StatusMeans | packages/db/src/sources.ts:298-365 | a paused source is never due; resuming needs every mapped column active and makes a scheduled source due at once |
| SourceScheduler.StandingClockAborts | packages/db/src/sources.ts:1115-1140 | a concrete history after which a call that reads the latest instant again aborts and another due source gets no run |
| SourceScheduler.SourceTable.QueueDueSourceRuns | packages/db/src/sources.ts:419-485 | the loop over the selected sources refines the specification and rolls back when it aborts |
| SourcePages.PagesApplyOnce | packages/db/src/sources.ts:521-541 | a page is applied only as the next page; sent again it changes nothing |
| SourceOutcomes.AnswerIsExact | packages/db/src/sources.ts:521-660 | in every sound state a page is applied exactly when it is the running run's next one, within the page and record limits, paginated if more follow, repeats no key of the run and can be written record by record; earlier pages are answered again and all others refused |
| SourceOutcomes.PageIsCounted | packages/db/src/sources.ts:830-880 | an accepted page counts known keys as updated, the archived ones among them as restored and the others as created |
| SourceOutcomes.ArchiveIsExactAfter | packages/db/src/sources.ts:776-866 | only the last page of a run archives, and then exactly the live records that none of the run's pages holds; it alone moves the watermark, to its window's end |
| SourcePages.AcceptIsSound | packages/db/src/sources.ts:559-880 | an accepted page keeps counters, seen keys, archive and refinement |
| SourcePages.EveryHistoryIsSound | packages/db/src/sources.ts:487-991 | under any queueing, retry, failure and replay: the table equals the accepted pages in order, received = created + updated, restored at most updated, no key twice in a run, and after a complete archiving run the live keys are the seen ones |
| SourcePages.StepKeepsRows | packages/db/src/sources.ts:678-716 | a key keeps its row through every step |
| SourceStore.SourceStore.QueueManualSourceRun | packages/db/src/sources.ts:367-417 | the manual queueing statements refine the specification |
| SourceStore.SourceStore.ApplySourceRunPage | packages/db/src/sources.ts:487-902 | the page transaction refines the specification and keeps soundness |
| Leases.EveryRunAgrees | packages/db/src/outbox-dispatch.ts:33-156 | over any interleaving the lease columns say what the log of claims, completions and reschedules says |
| Leases.PublishedOnceUnderItsClaim | packages/db/src/outbox-dispatch.ts:96-123 | an event is published at most once, under its current claim, and nothing happens to it afterwards |
| Leases.ClaimsDoNotOverlap | packages/db/src/outbox-dispatch.ts:158-171 | with one clock and lease, a later claim is granted only after the earlier one has expired, at least thirty seconds later, or was given back |
| Leases.OvertakenIsFenced | packages/db/src/outbox-dispatch.ts:96-156 | once a row has been claimed again, in every later state no entry of the row carries the first claim's identifier, and completing or rescheduling with it changes nothing |
| Leases.AttemptsCountClaims | packages/db/src/outbox-dispatch.ts:72-82 | attempts equal the number of claims |
| Leases.RetriesWait | packages/db/src/outbox-dispatch.ts:125-171 | a rescheduled event is not claimed before its retry instant |
| Leases.OnlyDispatchedTypesAreClaimed | packages/db/src/outbox-dispatch.ts:158-160 | only events of a dispatched type are claimed |
| Leases.BatchTakesTheFirst | packages/db/src/outbox-dispatch.ts:43-82 | a batch claims the first eligible events and leaves one only when it is full |
| Leases.BatchIsExact | packages/db/src/outbox-dispatch.ts:33-94 | a batch claims a row exactly when the row is dispatched, ready, unpublished, past its retry instant and unclaimed or claimed longer ago than the clamped lease, and fewer such rows than the clamped limit precede it |
| Leases.CrashedClaimsAreTaken | packages/db/src/outbox-dispatch.ts:158-171 | after any run an unpublished dispatched event whose last claim is older than the lease is claimed by a batch with room for it |
| Leases.LeaseTable.ClaimEvents | packages/db/src/outbox-dispatch.ts:33-94 | the claiming statements refine the specification |
| Leases.LeaseTable.CompleteEvents | packages/db/src/analytics.ts:100-131 | rows still held are completed even when the call reports a conflict for others |
| AnalyticsErasure.EveryRunIsSound | apps/analytics-projector/src/projector.ts:48-142 | when the delays fit the grace period, every run keeps wiped workspaces absent and carried by no in-flight batch |
| AnalyticsErasure.GraceSufficesIff | packages/db/src/analytics.ts:180-253 | an erased workspace has no row now or ever again if and only if insert latency and purge commit delay fit the grace period together |
| AnalyticsErasure.ErasureIsFinal | packages/db/src/analytics.ts:255-281 | a completed erasure stays completed |
| AnalyticsErasure.ErasureCanFinish | packages/db/src/analytics.ts:180-281 | once the grace period has passed and the receipt may be claimed, claiming, wiping and completing go through and leave the workspace erased and absent |
| AnalyticsErasure.CheckedRowsArrive | apps/analytics-projector/src/projector.ts:48-87 | a checked batch stores exactly the rows whose workspace had not been purged when it was checked |
| AnalyticsErasure.RipeIsCarriedByNobody | apps/analytics-projector/src/projector.ts:48-87 | once the grace period has passed no checked batch carries the workspace |
| AnalyticsStore.AnalyticsStore.CompleteWorkspaceErasure | packages/db/src/analytics.ts:255-281 | a completed erasure finds the store without rows and nobody carrying any |
| AnalyticsStore.AnalyticsStore.PurgeWorkspace | packages/db/src/workspaces.ts:239-269 | the receipt and the cascading delete refine the purge step |
| GridPaging.CursorMeansStrictlyAfter | packages/db/src/grid.ts:566-594 | the cursor of a row selects exactly the rows strictly after it in the query's order |
| GridPaging.EveryRowOnce | packages/db/src/grid.ts:100-208 | following nextCursor returns every matching row exactly once, in order, for every page limit |
| GridPaging.PageOfTail | packages/db/src/grid.ts:440-654 | a page holds the next rows, as many as its limit between one and two hundred, and carries a cursor exactly when rows remain |
| GridPaging.PagingWorksIff | packages/db/src/grid.ts:464-654 | sorted paging is right at every limit if and only if no sort cell has another type than its column, or at most one row matches |
| GridPaging.TextInNumberColumnIsLost | packages/db/src/grid-view-query.ts:127-154 | two concrete rows of which the one with a text cell in a number column is never shown at page limit one |
| SearchPattern.EscapeIsCharwise | packages/db/src/grid-view-query.ts:108-115 | the three successive replacements put one escape before every special character |
| SearchPattern.PatternMeansContains | packages/db/src/grid-view-query.ts:108-125 | for all queries and texts the pattern matches exactly the texts that contain the query after case folding |
| SearchPattern.SearchFindsExactly | packages/db/src/grid-view-query.ts:108-125 | a row is found exactly when one of its cells contains the query |
| CanonicalJson.CanonicalIff | packages/airbyte-destination/src/destination.ts:234-246 | two JSON values print the same text if and only if they are equal up to the order of object members |
| CanonicalJson.ValueIsPrefixFree | packages/airbyte-destination/src/destination.ts:234-246 | printed values are self-delimiting: equal texts followed by anything determine value and rest |
| AirbyteWriter.CountIsBodyLength | packages/airbyte-destination/src/destination.ts:146-182 | the running byte count is the UTF-8 length of the body, so the consistency check never fails |
| AirbyteWriter.EveryInputIsSound | packages/airbyte-destination/src/destination.ts:84-193 | for every input, buffers stay within both limits and per route submitted plus pending records are the logged ones in order; that these are the records of the input lines, AirbyteInput.ConsumedLinesAreHandled says |
| AirbyteInput.RecordLineMeans | packages/airbyte-destination/src/destination.ts:134-172 | a record line is refused exactly when its stream is not configured, it does not normalize or exceeds the byte limit alone; the batch before it is submitted exactly when the record no longer fits, and a consumed record is the last of its route |
| AirbyteInput.StateLineMeans | packages/airbyte-destination/src/destination.ts:104-117 | a STATE line is emitted exactly when it has a payload and everything pending was submitted |
| AirbyteInput.LineIsHandled | packages/airbyte-destination/src/destination.ts:84-122 | a consumed line adds exactly its record to its route and emits exactly its state; a refused one loses and adds nothing |
| AirbyteInput.ConsumedLinesAreHandled | packages/airbyte-destination/src/destination.ts:84-193 | over every input the records submitted or pending for a route are the records of its consumed lines in order, and the emitted states are the consumed STATE lines in order |
| AirbyteInput.StatesAreCheckpoints | packages/airbyte-destination/src/destination.ts:104-117 | when a STATE line has gone out, every record of an earlier line has been submitted |
| AirbyteInput.FinishedInputIsDelivered | packages/airbyte-destination/src/destination.ts:124-132 | an input finished without error has submitted, per route, exactly the records of its lines in order |
| AirbyteWriter.StatesFollowTheirRecords | packages/airbyte-destination/src/destination.ts:104-117 | a STATE line goes out only when every earlier record was submitted; bodies meet both limits; sequence numbers ascend |
| AirbyteWriter.FinishedInputIsSubmitted | packages/airbyte-destination/src/destination.ts:124-132 | finishing leaves nothing pending and every accepted record submitted in order |
| AirbyteWriter.DestinationWriter.AcceptOneLine | packages/airbyte-destination/src/destination.ts:84-122 | the writer's line handling refines the specification, whose effect per line AirbyteInput.LineIsHandled states, and keeps soundness |
| AirbyteWriter.DestinationWriter.FlushRoute | packages/airbyte-destination/src/destination.ts:174-194 | a flush refines the specification and its byte checkpoint holds |
| SchemaLifecycle.EveryHistoryIsWellFormed | packages/db/src/schema-lifecycle.ts:203-534 | after any schema changes: edges lead to earlier columns, dependencies of active columns are active, tables keep an active column and the workspace an active table, views and active sources name only active columns |
| SchemaLifecycle.StepKeepsWellFormed | packages/db/src/schema-lifecycle.ts:897-1139 | every create, archive, restore, convert, view and source step keeps that |
| SchemaGuards.ArchivalIsRefusedIff | packages/db/src/schema-lifecycle.ts:411-461 | in every well-formed schema an idle column is archived exactly when the schema stays well formed without it |
| SchemaGuards.RestorationIsRefusedIff | packages/db/src/schema-lifecycle.ts:463-534 | an archived column comes back exactly when the schema stays well formed with it |
| SchemaGuards.ConversionIsRefusedIff | packages/db/src/schema-lifecycle.ts:315-409 | an idle input column is converted to another type exactly when no active column, view or active source would miss it if it were archived; nothing else changes |
| SchemaGuards.TableArchivalIsRefusedIff | packages/db/src/schema-lifecycle.ts:203-291 | an idle table is archived exactly when the workspace stays well formed without it, and an archived one always comes back |
| SchemaGuards.SavingIsRefusedIff | packages/db/src/grid-views.ts:84-280 | a view is saved exactly when every column it names is an active column of its table, every filter accepts its column's type and the sort column is not JSON |
| SchemaGuards.ResumptionIsRefusedIff | packages/db/src/sources.ts:298-365 | a source can always be paused, and resumed exactly when the schema stays well formed with it |
| SchemaGuards.FormulaIsAcceptedIff | packages/db/src/formulas.ts:34-175 | a formula column of a type is created exactly when the expression is within its limits, references columns, all active in the table, and the typing rules give it that type; it depends on exactly those columns |
| SchemaLifecycle.CyclicErrorIsUnreachable | packages/db/src/formulas.ts:143-170 | whatever happened to the schema, recomputing a row never fails with the cyclic error |
| SchemaTypes.TypesFollowConversions | packages/db/src/schema-lifecycle.ts:315-409 | over every history a column's type is its earlier one or the target of its last successful conversion since |
| SchemaTypes.RestoreKeepsTypesIff | packages/db/src/schema-lifecycle.ts:463-534 | for every history, restoring a formula keeps active formulas typed if and only if the checker gives it the same type over the types its creation saw, replaced by the last conversions since |
| SchemaTypes.EditsAlwaysRecompute | packages/db/src/formulas.ts:202-360 | after any history that converts no input of an archived formula, recomputing a typed row always succeeds and keeps it typed |
| SchemaTypes.RestoredFormulaRefusesEdits | packages/db/src/schema-lifecycle.ts:315-534 | a concrete history after which every edit of an input to a number fails while recomputing the restored formula |
| SchemaTypes.OtherStepsKeepFormulaTypes | packages/db/src/schema-lifecycle.ts:315-409 | every step but a restore keeps active formulas typed |
| SchemaTypes.ResumeKeepsTextIff | packages/db/src/sources.ts:327-349 | for every history, resuming a source keeps sources on text columns if and only if none of its mapped columns was last converted to another type |
| SchemaTypes.SparedSourcesFeedText | packages/db/src/schema-lifecycle.ts:600-700 | in a history that converts no column a source maps, every source feeds text columns throughout |
| SchemaTypes.ResumedSourceMayFeedNumbers | packages/db/src/sources.ts:327-349 | a concrete history of mapping, pausing, converting and resuming that ends with a source on a number column |
| SchemaTypes.OtherStepsKeepSourcesText | packages/db/src/schema-lifecycle.ts:600-700 | every step but a resumption keeps active sources on text columns |
| ColumnConversion.ImpactAddsUp | packages/db/src/schema-lifecycle.ts:763-825 | the scan's counts add up and it counts no failure exactly when no cell fails |
| ColumnConversion.ImpactIsExact | packages/db/src/schema-lifecycle.ts:763-825 | the scan counts exactly the empty cells and those that hold another type than the column's or have no converted value |
| ColumnConversion.SampleIsExact | packages/db/src/schema-lifecycle.ts:790-825 | the sample names the first ten failing cells in order, or all of them |
| ColumnConversion.ConversionStore.Scan | packages/db/src/schema-lifecycle.ts:745-836 | the paged scan counts every cell once and samples the first failures |
| ColumnConversion.ConversionStore.Apply | packages/db/src/schema-lifecycle.ts:838-895 | the paged apply loop converts every stored cell exactly once and leaves empty cells |
| ColumnConversion.ConversionStore.Convert | packages/db/src/schema-lifecycle.ts:745-895 | scan and apply together: a failing cell refuses the conversion and changes nothing, otherwise every stored cell is converted |
| SchemaStore.SchemaStore.ArchiveWorkspaceColumn | packages/db/src/schema-lifecycle.ts:411-461 | archiving a column, with its blocker queries, refines the specification and keeps well-formedness |
| SchemaStore.SchemaStore.RestoreWorkspaceColumn | packages/db/src/schema-lifecycle.ts:463-534 | so does restoring one |
| SchemaStore.SchemaStore.ArchiveWorkspaceTable | packages/db/src/schema-lifecycle.ts:203-244 | so does archiving a table |
| SchemaStore.SchemaStore.SaveGridView | packages/db/src/grid-views.ts:84-280 | a saved view is accepted exactly when its columns are active, typed for their filters and sortable |
| SchemaStore.SchemaStore.SetStatus | packages/db/src/sources.ts:298-365 | a source is resumed exactly when every mapped column is active in its active table |

## Left out

- Identifiers: UUIDs are natural numbers in the same order; new ones are unused numbers.
- Interleaving inside a transaction, row locks that skip, and races between advisory locks: transactions are serial.
- Roles, memberships, tokens, tenant scoping, revocation and credential checks: one branch each.
- Network, HTTP connectors, the Wasm runner, encryption, digests, ClickHouse and the workflow engine: their outcomes are inputs of a step.
- Row-level details without a decision: timestamps of creation and update, error texts, audit events, position texts of rows and columns, the summaries returned to callers.
- FormulaMeaning.EvaluationMeans: arithmetic is over reals, and a parameter says how a result is rounded to a stored number or is none; signed zero is not modelled; number printing, case folding and trimming are parameters of the platform.
- FormulaTransactions.GridTable.WriteGridCell: the editable-size limit and the role check of a cell write are not modelled, being single guards.
- FormulaTransactions.GridTable.CreateFormulaColumn: the grammar of formula text and names are not modelled.
- FormulaTypes.TypedRowsRecompute: typed rows are its hypothesis; edits keep them typed, and connector outputs and converted cells are taken to have their column's type.
- FormulaStorage.TextIsCanonicalIff: how JSON text is parsed, printed and stored is a parameter.
- SchemaTypes.RestoreKeepsTypesIff: restoring a column does not recompute the restored formula, so nothing is claimed about its stored value.
- RowSettlements.NothingIsLost: safety only; a skipped settlement is not always woken again after a manual run of an automatic column.
- RowSettlements.RowAutomation.RecordRowMutation: the branch for a settlement that already exists for the row version cannot be reached, since versions only grow.
- EnrichmentCascade.EveryCascadeIsFinite: assumes no outside edits and no manual runs, which restart a cascade.
- Retry delays and back-off of cell runs and the waterfall's decision table: the source of the latter is not part of this model.
- IngestionMapping.MappingStaysInjective: text normalization, header validation and the suffix loop are parameters; header texts are taken as already trimmed, and new columns come last, where the code orders columns by a position text.
- RunStore.RunStore.MarkSucceeded: the formula recomputation and the settlement recording that follow a stored result are outside its contract.
- Upsert.UpsertFollowsDecisions: the formula cells a row mutation writes are not part of the upsert's cells; each mutation records the input cells it sees instead.
- Ingestion.EveryRunIsSound: columns archived or rows deleted between two chunks by other transactions are not steps of an endpoint; creation stamps increase with insertion, and the deletion of staged copies after success is not modelled.
- SourcePages.EveryHistoryIsSound: row versions and the last-run stamp are not modelled; a page carries its records as the normalizer leaves them.
- SourceScheduler.TicksNeverAbort: a tick is serial, so it skips no locked row; credentials and names of a source are not modelled.
- Leases.ClaimsDoNotOverlap: assumes that dispatchers share a clock and a lease length.
- AnalyticsErasure.EveryRunIsSound: a batch is inserted or dropped before its deadline; duplicate insertion is allowed, row validation and its retries are not modelled.
- GridPaging.EveryRowOnce: the table does not change between pages; a cursor is a record that decodes, without its base64 text or its length limit.
- SearchPattern.PatternMeansContains: case folding works character by character and fixes the special characters.
- CanonicalJson.CanonicalIff: negative zero is excluded, and number printing is a parameter that can be read back.
- AirbyteWriter.EveryInputIsSound: parsing a protocol line and normalizing a record are inputs; whether an endpoint accepts a batch is decided by its sequence number.
- SchemaLifecycle.EveryHistoryIsWellFormed: names, size limits, rename and delete of tables and columns, and the blockers outside the schema (work in progress, webhooks, writebacks, endpoints) are one flag.
- ColumnConversion.ConversionStore.Convert: the preview digest and the conversion of a single value are not modelled; blockers other than failing cells are those of SchemaLifecycle.ConvertColumn.
- Workspaces other than their purge, CSV imports, collaboration, webhooks and writebacks beyond a settlement's decision: they would add easier members of the same kinds.
