# Verification of the effect packages

A Dafny model of the repository's stateful and parsing code, with proofs of what that
code promises. `dafny verify dfyconfig.toml` checks everything.

## What is modelled

**Durable workflows** (`packages/effect-zero-workflow`). Two tables, runs and commands, are
driven by dispatch workers, a reconciler and enqueuers. `WorkflowTables` specifies every SQL
statement as a function on the tables, and `WorkflowStore` implements them as methods of a
mutable store; `WorkflowColumns` says column by column what each of them writes and answers.
`WorkflowSystem` is the state machine: the tables, a database clock, one ticket per claimed
command, and counters of retries and reclaims. Its steps are the statements of any number of
workers in any order, with crashes, lease expiry and lost acknowledgements.
`WorkflowInvariant` proves that every step keeps the invariant, and `WorkflowSafety` what
follows for whole runs: fencing, exact attempt accounting, absorbing terminal states and
idempotent enqueueing; `WorkflowCauses` says what made each row what it is.
`WorkflowRuntime`, `WorkflowDispatcher` and `WorkflowReconciler` are the imperative code
around the store; a batch of the dispatcher and a call of the reconciler are proved to be
runs of the state machine. `Pages` and `ReconcilerSweep` are about the reconciler's cursor
over many calls while anything else happens, `StaticSweeps` about such calls over a table
that does not change, where the sorted scan and the limit decide everything. The command
statuses pending, delivering, delivered, failed and cancelled are named Queued, Delivering,
Delivered, Abandoned and Withdrawn.

**Contract invocations.** `JsonStrings` and `CanonicalJson` prove the canonical printer
injective up to key order, `ContractServer` the startup validation of registrations, and
`Invocations` that a reused invocation id is accepted exactly for the same request.

**Publication migrations** (`packages/effect-zero`). `Publication` holds the planner and a
database that accepts or refuses publication statements, `PublicationMemberships` relates
lists of tables to what is published; `PublicationMigrations` proves the planner correct,
and `PublicationHistory` treats chains of migrations and type changes.

**Lexers.** `JsonScanner`, `JsonPrimitives`, `JsonTexts` and `JsonExtraction` are the search
for a JSON value in a model's reply, measured against the grammar of RFC 8259, and
`JsonAnswers` says which replies are answered. `SqlSplitter`, `SqlLexemes` and
`SqlStatements` are the splitter of SQL scripts, measured against a division into lexemes,
and `SqlResults` ties the returned statements to it.

**Small pieces.** `ClientCache` is the bounded cache of clients measured against the history
of requests, `UniqueNames` the generation of fresh names.

## Findings

Four promises hold only under a condition. Each has a lemma with the exact condition and a
lemma with a concrete input on which it fails.

- A reconciler cursor is a JavaScript date and holds milliseconds, while the column holds
  microseconds. A staying row that ends a page with a fraction of a millisecond is listed
  again (`ReconcilerSweep.FractionListedAgain`). Over a table that does not change, a sweep
  completes exactly when the walk of the sorted scan, each page starting where the truncated
  cursor puts it, reaches a youngest row on a whole millisecond
  (`StaticSweeps.SweepCompletesExactly`), and its pages are the scan exactly when every slice
  of the scan ends in such a row (`StaticSweeps.StaticSweepIsScanExactly`). Concrete tables
  are in `StaticSweeps.OneFractionalRowComesBack` and `StaticSweeps.OlderFractionHidesYoungest`.
- When a publication is renamed, tables with altered columns stay published under the old
  name while their types change (`PublicationHistory.TypeChangesAreSafeExactly`,
  `PublicationHistory.RenameLeavesAlteredTablePublished`).
- `quoteIdentifier` does not treat backslashes, but the splitter reads a backslash in a
  quotation together with the next character (`SqlStatements.IdentifierIsOneTokenExactly`,
  `SqlStatements.BackslashSwallowsSemicolon`).
- A reply that is one bare word or number is trimmed by every kind of white space, but the value
  is found only before the four blanks of JSON (`JsonAnswers.PrimitiveAnswerExactly`,
  `JsonAnswers.NoBreakSpaceHidesWord`).

## Model

| member | source | states |
|---|---|---|
| JsNumbers.NormalizeSqlLimit | packages/effect-zero-workflow/src/store.ts:232-233 | a limit is truncated and at least one; anything that is not a finite number becomes one |
| WorkflowStore.Store.InsertRun | packages/effect-zero-workflow/src/store.ts:246-328 | inserts a pending run under a new key, every column as requested, answers with the existing run of the key for the same owner and parameters, and fails without a change otherwise |
| WorkflowStore.Store.InsertCommand | packages/effect-zero-workflow/src/store.ts:330-412 | inserts a pending command only for an active run and a new id; an existing id succeeds exactly for the same run, kind and payload |
| WorkflowStore.Store.Enqueue | packages/effect-zero-workflow/src/store.ts:101-115 | run and start command in one transaction: under a new key with free ids both rows are new, column by column as requested; when either insert fails both tables are as before |
| WorkflowStore.Store.Claim | packages/effect-zero-workflow/src/store.ts:420-469 | leases the oldest due unlocked commands, at most the clamped limit, raising attempts and fencing token by one, and returns for each the name, version, execution id and limit of its run and the kind, payload, attempts and token of its row |
| WorkflowStore.Store.SettleCommand | packages/effect-zero-workflow/src/store.ts:471-502 | changes a row only for the holder of the current lease and token, column by column as the settlement says, and reports whether it did |
| WorkflowStore.Store.FailCommand | packages/effect-zero-workflow/src/store.ts:587-597 | with the lease the command is failed and its active run too, with the error, its old result and a completedAt; without it neither table changes |
| WorkflowStore.Store.MarkRun | packages/effect-zero-workflow/src/store.ts:544-569 | marks a run that is not terminal, keeping the first startedAt and what is not given; a terminal run and every other run are left alone |
| WorkflowStore.Store.ListRuns | packages/effect-zero-workflow/src/store.ts:528-542 | the first rows after the cursor in the order of timestamp and id, none skipped |
| WorkflowColumns.InsertRunInserts | packages/effect-zero-workflow/src/store.ts:246-328 | the insert of a run by columns: the literal default of ten attempts, what decides the answer under a known key, and nothing written then |
| WorkflowColumns.InsertCommandInserts | packages/effect-zero-workflow/src/store.ts:330-412 | the insert of a command by columns: which of success, conflict and missing run is answered, and the waiting row that is written |
| WorkflowColumns.EnqueueAdds | packages/effect-zero-workflow/src/store.ts:101-115 | under a new key the run and its start command, which waits until the requested time, are the only new rows |
| WorkflowColumns.SelectionTakesOldest | packages/effect-zero-workflow/src/store.ts:421-439 | the selected commands are due, of runs that are not over, and no older due command is passed over |
| WorkflowColumns.ClaimLeases | packages/effect-zero-workflow/src/store.ts:440-450 | what the claim writes into a leased row, and that it leaves all others |
| WorkflowColumns.SettleSettles | packages/effect-zero-workflow/src/store.ts:471-502 | the three settlements by columns; only giving up touches a run, which it fails with the error |
| WorkflowColumns.MarkRunMarks | packages/effect-zero-workflow/src/store.ts:544-569 | the marking of a run by columns |
| WorkflowRuntime.ExecuteWorkflowCommand | packages/effect-zero-workflow/src/runtime.ts:204-255 | which of start, cancel, resume and event is accepted and when the execution counts as a success; an accepted cancel leaves its active run cancelled and any other command leaves it running; an event must name the workflow and the execution of its command |
| WorkflowRuntime.ExecuteStartCommand | packages/effect-zero-workflow/src/runtime.ts:182-202 | a start marks the run running only when the engine starts the expected execution |
| WorkflowDispatcher.BatchSize | packages/effect-zero-workflow/src/dispatcher.ts:92-96 | the claimed batch is the truncated option, at least one, and 25 when none is given |
| WorkflowDispatcher.DispatchConcludes | packages/effect-zero-workflow/src/dispatcher.ts:115-155 | a worker that still holds its lease delivers after a success; after a failure the row waits again if its attempts are below the limit of the run and below a finite option rounded down and raised to one, and is failed otherwise; no other command changes |
| WorkflowDispatcher.DispatchConcludesRun | packages/effect-zero-workflow/src/dispatcher.ts:115-155 | what becomes of the run meanwhile: running or cancelled by an accepted command, failed with the error by giving up unless it is over; no other run changes |
| WorkflowDispatcher.Dispatch | packages/effect-zero-workflow/src/dispatcher.ts:115-166 | execution and settlement of one command by the store, runtime and dispatcher code together leave the tables that the state machine says, with row and run as the two rows above say |
| WorkflowDispatcher.DispatchLeads | packages/effect-zero-workflow/src/dispatcher.ts:115-166 | what becomes of one claimed command, crash and lost settlement included, is reached by steps of the state machine |
| WorkflowDispatcher.DispatchWorkflowCommandBatch | packages/effect-zero-workflow/src/dispatcher.ts:86-171 | a whole batch claims the oldest due commands for its worker, 25 at a time by default, and is a run of the state machine, so it keeps every invariant; without an interrupt every claimed command has been delivered, retried or failed by those limits, or is still leased under its token because its settlement was not written |
| WorkflowInvariant.StepKeepsInv | packages/effect-zero-workflow/src/store.ts:246-597 | every enabled step of workers, reconciler, enqueuers, crashes and clock keeps the invariant over both tables, all tickets and all tallies |
| WorkflowInvariant.StepEvolves | packages/effect-zero-workflow/src/store.ts:420-569 | every step moves runs, commands and tickets only forward |
| WorkflowSafety.TraceKeepsInv | packages/effect-zero-workflow/src/store.ts:246-597 | the invariant holds in all states of a run that starts in one that has it |
| WorkflowSafety.InvariantHolds | packages/effect-zero-workflow/src/store.ts:246-597 | the invariant holds in every state reachable from empty tables |
| WorkflowSafety.TokensAreDistinct | packages/effect-zero-workflow/src/store.ts:441-449 | any two tickets ever handed out for one command carry different tokens, whoever owns them |
| WorkflowSafety.OneSettlementPerToken | packages/effect-zero-workflow/src/store.ts:484-499 | over a whole run at most one settlement per command and token succeeds |
| WorkflowSafety.WinnerSettlesForGood | packages/effect-zero-workflow/src/store.ts:484-499 | once a settlement under a token has succeeded, no later one under that token succeeds |
| WorkflowSafety.SupersededIsHarmless | packages/effect-zero-workflow/src/store.ts:484-502 | a superseded worker gets false from deliver, retry and fail, and neither table changes |
| WorkflowSafety.CurrentTicketWins | packages/effect-zero-workflow/src/store.ts:484-502 | a worker that reaches settlement succeeds exactly when its token is still the row's, so always while its lease lasts |
| WorkflowSafety.OneLiveLease | packages/effect-zero-workflow/src/store.ts:429-450 | two tickets of one command that have not settled, their workers alive or crashed, never both have an unexpired lease |
| WorkflowSafety.ClaimsAreSafe | packages/effect-zero-workflow/src/store.ts:420-469 | a claim hands out at most the clamped limit of commands of active runs, on none of which anybody, alive or crashed, holds an unexpired lease |
| WorkflowSafety.CrashedLeaseStands | packages/effect-zero-workflow/src/store.ts:429-450 | until the lease of a crashed worker expires its command stays leased under its token, and nobody claims it |
| WorkflowSafety.SettledForEver | packages/effect-zero-workflow/src/store.ts:429-438 | delivered and failed commands keep their rows and are never claimed again |
| WorkflowSafety.TerminalRunsAreLeftAlone | packages/effect-zero-workflow/src/store.ts:424-438 | once its run is terminal a command is never claimed again |
| WorkflowSafety.AttemptAccounting | packages/effect-zero-workflow/src/dispatcher.ts:122-145 | in every reachable state attempts, token and number of claims agree and equal retries plus reclaims plus one unless pending; retries stay below the limit and claims within the limit plus reclaims |
| WorkflowSafety.TalliesCount | packages/effect-zero-workflow/src/store.ts:443-449 | the counters kept beside the tables count the claims, retries and reclaims of the run so far |
| WorkflowSafety.RunsMoveForward | packages/effect-zero-workflow/src/store.ts:544-569 | a run moves pending, running, terminal and keeps its identity; once terminal its row never changes |
| WorkflowSafety.LifecycleTimestamps | packages/effect-zero-workflow/src/store.ts:551-565 | completedAt is set exactly when a run is terminal, and a running run has started |
| WorkflowSafety.TablesAgree | packages/effect-zero-workflow/src/runtime.ts:182-255 | the run of a delivered command is not pending, that of a delivered cancel and of a failed command is terminal; leases are set exactly on delivering rows |
| WorkflowSafety.EnqueueExactly | packages/effect-zero-workflow/src/store.ts:101-115 | an enqueue succeeds exactly when its key is new with a free run id, or owned by the same owner with the same parameters; a failed one changes nothing |
| WorkflowSafety.EnqueueAgain | packages/effect-zero-workflow/src/store.ts:289-328 | a repeated key changes nothing and answers with the run of the key, terminal or not |
| WorkflowSafety.EnqueueNew | packages/effect-zero-workflow/src/store.ts:252-288 | a new key gets one pending run and its start command, each column as requested |
| WorkflowSafety.AnswerOwnsKey | packages/effect-zero-workflow/src/store.ts:310-324 | a successful enqueue answers with the run that owns the key |
| WorkflowSafety.FirstRequestWins | packages/effect-zero-workflow/src/store.ts:289-299 | any two successful enqueues of one key, at any two moments, answer with the same run |
| WorkflowSafety.OneRunPerKey | packages/effect-zero-workflow/src/models.ts:60 | at most one run per workflow name and idempotency key, each with one start command whose payload is its input |
| WorkflowCauses.TicketsCarryTheirRows | packages/effect-zero-workflow/src/store.ts:450-467 | in every reachable state what a worker was handed agrees with its run in name, version, execution id and limit, and with its row in run, kind and payload |
| WorkflowCauses.ClaimsTakeOldestDue | packages/effect-zero-workflow/src/store.ts:420-469 | every claim of a run of the engine takes the oldest due commands and leases exactly them |
| WorkflowCauses.WaitsUntilAvailable | packages/effect-zero-workflow/src/store.ts:424-434 | a waiting command, retried or new, keeps its row and is not claimed before it becomes available |
| WorkflowCauses.SettlementDecided | packages/effect-zero-workflow/src/dispatcher.ts:115-155 | over whole runs a settlement that holds its lease delivers exactly after a success, and after a failure retries exactly below both limits, by the numbers in the tables |
| WorkflowCauses.GivenUpAtLimit | packages/effect-zero-workflow/src/dispatcher.ts:122-135 | a failed command was given up after a failure with one of the two limits reached, and its row has stayed since |
| WorkflowCauses.StatusHasCause | packages/effect-zero-workflow/src/runtime.ts:182-394 | every status a run has reached was set by an earlier step that may set it, with the result or the error of that step, and the row has stayed since |
| WorkflowCauses.CancelledByCancelOnly | packages/effect-zero-workflow/src/runtime.ts:220-224 | a run is cancelled only by the execution of a cancel command of that run |
| WorkflowCauses.RepeatSucceeds | packages/effect-zero-workflow/src/store.ts:289-328 | once an enqueue has succeeded, every request with the same key, owner and parameters succeeds at every later moment with the same answer and changes nothing |
| WorkflowReconciler.ReconcileRun | packages/effect-zero-workflow/src/runtime.ts:330-394 | a poll that completes or cannot be decoded marks the run; any other outcome leaves it |
| WorkflowReconciler.ReconcileWorkflowRuns | packages/effect-zero-workflow/src/runtime.ts:402-438 | one call lists a page, marks exactly the runs with a verdict, and moves the cursor behind the page or back to the start; it is a run of the state machine |
| WorkflowReconciler.MarksListedRuns | packages/effect-zero-workflow/src/runtime.ts:425-428 | which rows a call changes and to what; unlisted and already terminal runs stay |
| Pages.ToDate | packages/effect-zero-workflow/src/store.ts:206-215 | a timestamp read into a date loses its microseconds, so a cursor is never after its row |
| Pages.BeforeExactly | packages/effect-zero-workflow/src/store.ts:528-540 | rows are ordered by timestamp, and under one timestamp by the first code of their ids that differs |
| ReconcilerSweep.ListedAtLeastOnce | packages/effect-zero-workflow/src/runtime.ts:402-438 | whatever other runs do, a completed sweep lists every run that stays running with the same timestamp |
| ReconcilerSweep.ListedExactlyOnce | packages/effect-zero-workflow/src/runtime.ts:402-438 | it lists it exactly once when the rows that end pages have whole-millisecond timestamps |
| ReconcilerSweep.ExactlyOnceIffWhole | packages/effect-zero-workflow/src/runtime.ts:429-436 | whatever other rows do, as long as listed runs stay, a completed sweep lists each exactly once if and only if every row that ends one of its pages is stamped on a whole millisecond |
| ReconcilerSweep.FractionListedAgain | packages/effect-zero-workflow/src/runtime.ts:429-436 | a staying row with a fraction of a millisecond that ends a page is listed again |
| StaticSweeps.CallsFollowWalk | packages/effect-zero-workflow/src/runtime.ts:402-438 | over a static table every call has the cursor and the page that the walk of the sorted scan gives, and the sweep is complete exactly when the walk stands behind the last row |
| StaticSweeps.SweepCompletesExactly | packages/effect-zero-workflow/src/runtime.ts:429-436 | over a static table some sequence of calls is a completed sweep if and only if there are no rows or the walk reaches a youngest row on a whole millisecond, within as many pages as there are rows |
| StaticSweeps.SweepEndsSoon | packages/effect-zero-workflow/src/runtime.ts:402-438 | under that condition every sequence of calls ends: at most one call per row and one more, which completes the sweep |
| StaticSweeps.FractionKeepsSweepOpen | packages/effect-zero-workflow/src/runtime.ts:429-436 | in particular no sweep completes while the youngest row has a fraction of a millisecond |
| StaticSweeps.OlderFractionHidesYoungest | packages/effect-zero-workflow/src/runtime.ts:429-436 | a whole youngest row is not enough: with limit one an older row with a fraction fills every page |
| StaticSweeps.OneFractionalRowComesBack | packages/effect-zero-workflow/src/runtime.ts:429-436 | the smallest instance: one row whose own cursor lists it again |
| StaticSweeps.StaticPages | packages/effect-zero-workflow/src/store.ts:533-540 | when the rows that end slices of the scan are whole, the pages are consecutive slices of the sorted scan |
| StaticSweeps.StaticSweepEnds | packages/effect-zero-workflow/src/runtime.ts:402-438 | then any calls end the sweep: at most one call per page of rows and one more, and calls that have covered all rows have found nothing and completed it |
| StaticSweeps.StaticSweepIsScanExactly | packages/effect-zero-workflow/src/runtime.ts:402-438 | the pages of a completed static sweep put together are the sorted scan if and only if the row that ends each slice of the scan is whole |
| StaticSweeps.ListedOnceExactly | packages/effect-zero-workflow/src/runtime.ts:429-436 | under the same condition on the scan, and only then, a completed static sweep lists no row twice |
| Decimals.DigitsInjective | packages/effect-zero/src/write.ts:31-40 | decimal numerals determine their numbers |
| Decimals.DigitsRead | packages/effect-zero/src/write.ts:31-40 | a numeral reads as its number and has no leading zero |
| JsonStrings.QuoteRoundTrip | packages/effect-zero-workflow/src/contract-server.ts:311 | reading a quoted string takes back its code units, whatever follows |
| JsonStrings.QuoteInjective | packages/effect-zero-workflow/src/contract-server.ts:311 | quoted strings are self-delimiting and determine their content |
| JsonStrings.EscapesAreStandard | packages/effect-zero-workflow/src/contract-server.ts:311 | which units are escaped and how, letter by letter |
| CanonicalJson.KeysSort | packages/effect-zero-workflow/src/contract-server.ts:309-310 | members are printed in the order of their keys as UTF-16 code units |
| CanonicalJson.PrintsAsJson | packages/effect-zero-workflow/src/contract-server.ts:304-315 | the three words, numerals that read as the number, and brackets around items or members in key order with commas and colons between |
| CanonicalJson.UniquelyDecodable | packages/effect-zero-workflow/src/contract-server.ts:304-315 | two values that print the same before any terminators have the same meaning, and the same text follows |
| CanonicalJson.Canonical | packages/effect-zero-workflow/src/contract-server.ts:304-315 | values with the same meaning print the same |
| CanonicalJson.StableJsonIsCanonical | packages/effect-zero-workflow/src/contract-server.ts:304-315 | two values print the same exactly when they are equal up to the order of object keys |
| CanonicalJson.StableJsonPaired | packages/effect-zero-workflow/src/contract-server.ts:354-357 | the printed text is well formed UTF-16, so encoding it for the hash loses nothing |
| ContractServer.ContractKeyInjective | packages/effect-zero-workflow/src/contract.ts:152-153 | the contract key determines identity and wire version |
| ContractServer.ContractKeyText | packages/effect-zero-workflow/src/contract.ts:152-153 | the key is the identity and then the wire version, quoted, as a JSON array |
| ContractServer.IndexPublished | packages/effect-zero-workflow/src/contract-server.ts:239-251 | indexes published contracts by key, or names the first duplicate |
| ContractServer.IndexRegistrations | packages/effect-zero-workflow/src/contract-server.ts:253-288 | indexes registrations, or names the first that is duplicate, unexpected or not the published object |
| ContractServer.ValidateWorkflowContractRegistrations | packages/effect-zero-workflow/src/contract-server.ts:232-302 | succeeds exactly when contracts and registrations correspond one to one by object identity; otherwise names the first fault and its reason |
| ContractServer.ValidationIsBijection | packages/effect-zero-workflow/src/contract-server.ts:232-302 | after success every published contract is looked up as its own registration, and there are no others |
| Invocations.ValidateInvocationReuse | packages/effect-zero-workflow/src/contract-server.ts:49-86 | under one id reuse passes exactly for equal fingerprints; under different ids always |
| Invocations.InvocationStore.Enqueue | packages/effect-zero-workflow/src/zero/transaction.ts:324-440 | the first row under an id stays; another owner is rejected, the same owner reads the stored fingerprint |
| Invocations.TransportHandler.Enqueue | packages/effect-zero-workflow/src/contract-server.ts:489-525 | the order of checks; a request stopped before the store leaves the store as it was, any other gets the answer of the history |
| Invocations.FirstWriterWins | packages/effect-zero-workflow/src/zero/transaction.ts:324-440 | after any history the table holds the first request under every id |
| Invocations.HashDecides | packages/effect-zero-workflow/src/contract-server.ts:352-364 | with a collision-free hash, input hashes agree exactly for inputs equal up to key order |
| Invocations.ReuseAcceptedExactly | packages/effect-zero-workflow/src/contract-server.ts:494-525 | after any history a request is accepted exactly when its id is new or it has the owner, contract, version and input of the first under the id |
| Invocations.AnswerExplained | packages/effect-zero-workflow/src/contract-server.ts:49-86 | after any history the first difference from the first request under the id, of owner, contract, wire version and input in this order, is the reason of the rejection; a success refers to the request |
| Invocations.AcceptedAgreesWithFirst | packages/effect-zero-workflow/src/contract-server.ts:494-525 | every accepted request of a history asked for the same thing as the first under its id |
| Publication.PublishedColumnTypeAlterTables | packages/effect-zero/src/publication.ts:153-186 | the published tables with an altered column, in the order in which they are first met |
| Publication.AffectedKeys | packages/effect-zero/src/publication.ts:157-181 | each affected table once, and exactly those some alteration affects |
| Publication.KeysInOrder | packages/effect-zero/src/publication.ts:157-186 | in the order in which the alterations first meet them |
| PublicationMemberships.AbsentInOrder | packages/effect-zero/src/publication.ts:259-263 | added and removed tables stay in the order of their snapshot |
| PublicationMigrations.TableSetStatements | packages/effect-zero/src/publication.ts:340-350 | wherever the new tables are unpublished and the dropped ones published, the database accepts the statements and then publishes the new tables as well and the dropped ones no longer |
| PublicationMigrations.EffectiveLists | packages/effect-zero/src/publication.ts:254-275 | the effective snapshot lists every wanted table once |
| PublicationMigrations.TypeAlterReaches | packages/effect-zero/src/publication.ts:283-310 | dropping altered tables and setting the effective snapshot are accepted and end in what was wanted |
| PublicationMigrations.ChangedColumnsReaches | packages/effect-zero/src/publication.ts:312-333 | changed columns are set in one accepted statement |
| PublicationMigrations.TableSetReaches | packages/effect-zero/src/publication.ts:335-354 | adding and dropping tables is accepted and ends in what was wanted |
| PublicationMigrations.GenerateStatements | packages/effect-zero/src/publication.ts:356-392 | the planner with its loops and its list of statements computes the specified plan |
| PublicationMigrations.PlanIsCorrect | packages/effect-zero/src/publication.ts:356-392 | every statement of a plan is accepted, and the database publishes exactly the returned snapshot, which is what was wanted; other publications are untouched |
| PublicationHistory.ChainIsCorrect | packages/effect-zero/src/publication.ts:356-392 | the same along any chain of migrations and renames, beside any foreign publications |
| PublicationHistory.PlanningAgainEmitsNothing | packages/effect-zero/src/publication.ts:356-392 | planning again without changed column types emits no statement and keeps the snapshot |
| PublicationHistory.AlteredExactly | packages/effect-zero/src/publication.ts:153-186 | a published table is taken off exactly when one of its published columns changes its type |
| PublicationHistory.OnlyAlteredAreOff | packages/effect-zero/src/publication.ts:283-310 | under an unchanged name exactly the altered tables are unpublished while the migration's own statements run |
| PublicationHistory.TypeChangesAreSafeExactly | packages/effect-zero/src/publication.ts:366-392 | no altered table is published during its type change if and only if the name is unchanged or nothing published is altered |
| PublicationHistory.RenameLeavesAlteredTablePublished | packages/effect-zero/src/publication.ts:366-392 | the smallest failing rename: one published column changes its type while the old publication still publishes it |
| PublicationHistory.FlaggedExactly | packages/effect-zero/src/publication.ts:277-281 | under an unchanged name a plan is flagged destructive exactly when it unpublishes some table for good |
| PublicationHistory.RenameFlagsDrop | packages/effect-zero/src/publication.ts:367-380 | a first migration is not flagged, and in a rename exactly the statement that drops the old publication is |
| PublicationHistory.SnapshotStaysOrdered | packages/effect-zero/src/publication.ts:264-274 | the returned snapshot lists its tables in the order of their names |
| JsonScanner.FindCompositeJsonEnd | packages/effect-ai-codex/src/CodexLanguageModel.ts:128-163 | the loop over stack and string flags computes the boundary function |
| JsonScanner.CompositeBoundaryIsExact | packages/effect-ai-codex/src/CodexLanguageModel.ts:128-163 | an end is found exactly where one bracket, balanced outside strings, ends |
| JsonScanner.BalancedTextEndsOnce | packages/effect-ai-codex/src/CodexLanguageModel.ts:128-163 | so no proper prefix and no extension of a found value is balanced |
| JsonScanner.BrokenIsNotFound | packages/effect-ai-codex/src/CodexLanguageModel.ts:128-163 | open brackets that meet the wrong closer find nothing and resume right after it; open brackets up to the end find nothing |
| JsonPrimitives.FindStringJsonEnd | packages/effect-ai-codex/src/CodexLanguageModel.ts:165-178 | the loop with its escape flag computes the end of the string |
| JsonPrimitives.StringBoundaryIsExact | packages/effect-ai-codex/src/CodexLanguageModel.ts:165-178 | an end is found exactly where the string at the quote ends |
| JsonPrimitives.NumberIsMatched | packages/effect-ai-codex/src/CodexLanguageModel.ts:80 | the greedy pattern matches a number in full where nothing that continues it follows |
| JsonPrimitives.PrimitiveBoundaryIsExact | packages/effect-ai-codex/src/CodexLanguageModel.ts:114-193 | a word or number is found exactly where one ends before a terminator or the end of the text |
| JsonTexts.CompositeTextIsFound | packages/effect-ai-codex/src/CodexLanguageModel.ts:128-163 | on every array or object of RFC 8259, followed by anything, the scanner stops exactly at its end |
| JsonTexts.StringTextIsFound | packages/effect-ai-codex/src/CodexLanguageModel.ts:165-178 | the same for every string of section 7 of RFC 8259 |
| JsonExtraction.BoundaryAdvances | packages/effect-ai-codex/src/CodexLanguageModel.ts:180-193 | a boundary lies strictly after its start, and is primitive exactly when no bracket was opened |
| JsonExtraction.ScanJsonWindow | packages/effect-ai-codex/src/CodexLanguageModel.ts:195-231 | the loop ends and returns the first accepted candidate among those it comes to |
| JsonExtraction.ReturnedIsAccepted | packages/effect-ai-codex/src/CodexLanguageModel.ts:195-231 | what is returned is an accepted piece of the text: one balanced bracket, or a primitive that is the whole visible text |
| JsonExtraction.AnswerAfterProse | packages/effect-ai-codex/src/CodexLanguageModel.ts:195-231 | prose without brackets and quotes, then an accepted array or object, then anything: exactly that value is returned |
| JsonAnswers.StringAnswer | packages/effect-ai-codex/src/CodexLanguageModel.ts:195-231 | a reply that is one accepted string between white space is returned |
| JsonAnswers.PrimitiveAnswerExactly | packages/effect-ai-codex/src/CodexLanguageModel.ts:195-231 | a reply that is one accepted word or number between white space is returned exactly when it ends the text or a JSON blank follows it |
| JsonAnswers.NoBreakSpaceHidesWord | packages/effect-ai-codex/src/CodexLanguageModel.ts:114-121 | a concrete reply that is trimmed to an accepted word and yet not found |
| JsonAnswers.RefusedIsSkipped | packages/effect-ai-codex/src/CodexLanguageModel.ts:220-228 | after prose a refused bracket is passed over whole |
| JsonAnswers.BrokenIsSkipped | packages/effect-ai-codex/src/CodexLanguageModel.ts:209-212 | after prose a bracket that meets the wrong closer is passed over up to that closer |
| JsonExtraction.ExtractJsonValue | packages/effect-ai-codex/src/CodexLanguageModel.ts:233-248 | longer than the limit, or nothing found, are the two errors; otherwise the value found |
| JsonExtraction.MaxCharacters | packages/effect-ai-codex/src/CodexLanguageModel.ts:99-102 | the limit is the floor of a positive finite option and one million otherwise |
| SqlSplitter.SplitSqlState.HandleQuotedText | packages/effect-sql-kit/src/util.ts:83-107 | inside a quote: backslash pairs, doubled quotes and the closing quote |
| SqlSplitter.SplitSqlState.HandleStatementBoundary | packages/effect-sql-kit/src/util.ts:109-122 | a breakpoint or a semicolon ends the statement |
| SqlSplitter.SplitSqlState.HandleCharacter | packages/effect-sql-kit/src/util.ts:173-185 | the handlers in their order perform exactly one move of the specification |
| SqlSplitter.SplitSqlStatements | packages/effect-sql-kit/src/util.ts:160-192 | the loop over the mutable state computes the specified split |
| SqlLexemes.ModePasses | packages/effect-sql-kit/src/util.ts:52-107 | a comment or a quotation is passed over whole, without a cut |
| SqlLexemes.SpanAtIsSpan | packages/effect-sql-kit/src/util.ts:52-152 | what is taken at a neutral index is a comment, quotation, separator or other character by their own definitions |
| SqlLexemes.SpansTile | packages/effect-sql-kit/src/util.ts:160-185 | every script is divided into comments, quotations, separators and other characters |
| SqlLexemes.SpanIsSpanAt | packages/effect-sql-kit/src/util.ts:52-152 | the definitions of the lexemes leave only one lexeme at every index |
| SqlLexemes.SplitIsLexical | packages/effect-sql-kit/src/util.ts:160-192 | there is only one such division; the raw statements are the texts between its separators, and with the separators put back they are the script |
| SqlResults.SplitReturnsVisible | packages/effect-sql-kit/src/util.ts:154-192 | on every script the statements correspond, in order and one to one, to the texts between separators with a visible character; each is such a text trimmed, without a semicolon at its very end, and none is empty |
| SqlStatements.SplitInvertsJoin | packages/effect-sql-kit/src/util.ts:154-192 | trimmed, non-empty statements, each divided into complete comments, complete quotations and other characters without a separator, joined with semicolons, are split into themselves |
| SqlStatements.ClosedIffTiled | packages/effect-sql-kit/src/util.ts:52-152 | the splitter passes a text without a cut and ends outside of quotations and comments exactly when the text has such a division |
| SqlStatements.LastIsNoSemicolon | packages/effect-sql-kit/src/util.ts:154-158 | a closed statement does not end in a semicolon, so normalizing takes nothing off |
| SqlStatements.IdentifierIsOneTokenExactly | packages/effect-sql-kit/src/util.ts:3-10 | where no double quote follows, a quoted identifier is consumed up to its own closing quote if and only if no backslash, read in pairs, stands before a double quote or at the end |
| SqlStatements.NoBackslashIsSafe | packages/effect-sql-kit/src/util.ts:3-10 | an identifier without a backslash is always consumed as one token |
| SqlStatements.SafeIdentifierIsOneSpan | packages/effect-sql-kit/src/util.ts:3-10 | such an identifier is one quotation of the script, so nothing inside it ends a statement |
| SqlStatements.BackslashSwallowsSemicolon | packages/effect-sql-kit/src/util.ts:3-10 | a concrete identifier with a backslash that makes the splitter miss the semicolon after it |
| ClientCache.RecencyIsOrdered | packages/effect-ai-codex/src/CodexClient.ts:66-84 | the reference list holds the keys of a history in order of last use, each once |
| ClientCache.HitMoves | packages/effect-ai-codex/src/CodexClient.ts:66-70 | what a hit does to the specified keys |
| ClientCache.MissAppends | packages/effect-ai-codex/src/CodexClient.ts:72-83 | what a miss, with or without eviction, does to the specified keys |
| ClientCache.CachedIffRecent | packages/effect-ai-codex/src/CodexClient.ts:62-84 | a key is cached exactly when at most 32 distinct keys, itself included, were used since its last use |
| ClientCache.MakerIsLatestMiss | packages/effect-ai-codex/src/CodexClient.ts:62-84 | the request named as the maker of a client is the latest miss of its key |
| ClientCache.Cache.GetCodex | packages/effect-ai-codex/src/CodexClient.ts:64-84 | after any calls the map holds exactly the specified keys in order; a hit returns the instance of the latest miss, a miss a fresh one |
| UniqueNames.UsedNames.GetUniqueIdentifier | packages/effect-zero/src/write.ts:31-40 | the loop ends for every finite set of used names and takes the first free candidate |
| UniqueNames.UsedBound | packages/effect-zero/src/write.ts:31-40 | numbered candidates are pairwise different, so only as many can be used as there are used names |
| UniqueNames.CandidateIsNumbered | packages/effect-zero/src/write.ts:31-40 | the candidates after the name itself end in numerals that read as two, three, four and so on |
| UniqueNames.TableConstants | packages/effect-zero/src/write.ts:199-210 | table constants are pairwise distinct, avoid the reserved names and start with their preferred name |

## Left out

- WorkflowStore.Store.InsertRun: the unique index on name and key is a precondition here; `WorkflowSafety.OneRunPerKey` proves that every reachable table meets it.
- WorkflowStore.Store.Claim: rows skipped because of a lock are an arbitrary set; which rows PostgreSQL locks is not modelled, nor is its choice among equal creation times.
- WorkflowDispatcher.DispatchWorkflowCommandBatch: takes the commands of a batch one after the other and has no concurrency option; parallel workers are the interleavings of the state machine.
- WorkflowReconciler.ReconcileWorkflowRuns: takes the runs of a page one after the other, without the concurrency option.
- Invocations.ReuseAcceptedExactly: assumes that the hash has no collisions on well formed texts; SHA-256 itself is not modelled.
- Invocations.InvocationStore.Enqueue: keeps owner, fingerprint and input; rows written outside of contract invocations, the run's other columns and its start command are not part of it.
- CanonicalJson.StableJsonIsCanonical: numbers are integers; the shortest decimal form of other numbers is not modelled, and members whose value is undefined do not occur.
- PublicationHistory.TypeChangesAreSafeExactly: assumes that no two published tables differ in case alone, since the planner looks tables up by folded name.
- Publication.PublishedColumnTypeAlterTables: gets schema, table and column of every alteration; finding them in SQL text with a regular expression is left out, and lower-casing is an arbitrary function.
- PublicationMigrations.PlanIsCorrect: table keys are pairs of schema and name, the tables of a snapshot have distinct keys, no publication outside of the stored snapshot uses a wanted name, and the migration's own statements do not change what is published; dropping a table would take it off its publications.
- JsonExtraction.ScanJsonWindow: parsing and validating a candidate is an arbitrary predicate on its text.
- UniqueNames.TableConstants: camel-casing, cleaning and suffixing a table's name are an arbitrary function to its preferred name.
- The endless polling loop of the dispatcher, retry delays and jitter: a delay is an arbitrary natural number.
- The workflow engine, cluster sharding, activities and deferreds: their answers are arbitrary.
- Clocks of application servers: arbitrary; only the database clock is monotone.
- Zero mutators that insert runs and commands through their own transaction, and the execution payload that their start commands carry.
- Reading runs and observing them through contracts, error texts and logging.
- Merging of client options and the key computed from them: a key is a string.
- The text of SQL statements, migration files, schema lowering and code writing.
- HTTP, OAuth, chat, spreadsheet and web packages: plumbing around libraries.
