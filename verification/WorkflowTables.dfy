/**
 The two tables of the workflow store and, for every statement or transaction of the
 store, a function from the tables before it to the tables after it.

 Timestamps are integers (microseconds). A statement that uses the database clock
 takes `now`; one that uses the clock of the calling process takes `appNow`, and
 nothing is assumed about how the two clocks compare.
 */
module WorkflowTables {
  import opened Wrappers
  import opened JsNumbers
  import opened JsonValues

  datatype RunStatus = Pending | Running | Succeeded | Failed | Cancelled

  datatype CommandKind = Start | Cancel | Resume | Event

  /** The stored literals pending, delivering, delivered, failed and cancelled, in this order. */
  datatype CommandStatus = Queued | Delivering | Delivered | Abandoned | Withdrawn

  datatype Run = Run(
    runId: string,
    workflowName: string,
    definitionVersion: string,
    executionId: string,
    idempotencyKey: string,
    visibilityKey: string,
    principal: Option<Value>,
    input: Value,
    status: RunStatus,
    result: Option<Value>,
    error: Option<Value>,
    maxAttempts: int,
    runAfter: int,
    startedAt: Option<int>,
    completedAt: Option<int>,
    createdAt: int,
    updatedAt: int)

  datatype Command = Command(
    commandId: string,
    runId: string,
    kind: CommandKind,
    payload: Value,
    status: CommandStatus,
    attempts: int,
    availableAt: int,
    leaseOwner: Option<string>,
    leaseToken: int,
    leaseUntil: Option<int>,
    deliveredAt: Option<int>,
    lastError: Option<Value>,
    createdAt: int,
    updatedAt: int)

  datatype Tables = Tables(runs: map<string, Run>, commands: map<string, Command>)

  predicate Terminal(status: RunStatus) {
    status.Succeeded? || status.Failed? || status.Cancelled?
  }

  // ---------------------------------------------------------------- enqueueing

  const DEFAULT_MAX_ATTEMPTS := 10

  datatype EnqueueRequest = EnqueueRequest(
    runId: string,
    workflowName: string,
    definitionVersion: string,
    executionId: string,
    idempotencyKey: string,
    visibilityKey: string,
    principal: Option<Value>,
    payload: Value,
    maxAttempts: Option<int>,
    runAfter: Option<int>)

  datatype CommandRequest = CommandRequest(
    commandId: string,
    runId: string,
    kind: CommandKind,
    payload: Value,
    availableAt: Option<int>)

  datatype Enqueued = Enqueued(runId: string, executionId: string)

  datatype EnqueueError =
    | NotAccessible
    | DifferentParameters
    | DuplicateRunId
    | NoActiveRun
    | CommandConflict

  function OrElse<T>(option: Option<T>, default: T): T {
    match option
    case Some(value) => value
    case None => default
  }

  predicate KeyedBy(run: Run, req: EnqueueRequest) {
    run.workflowName == req.workflowName && run.idempotencyKey == req.idempotencyKey
  }

  predicate SameKey(a: Run, b: Run) {
    a.workflowName == b.workflowName && a.idempotencyKey == b.idempotencyKey
  }

  /** The columns a repeated request has to agree on. */
  predicate SameParameters(run: Run, req: EnqueueRequest) {
    && run.definitionVersion == req.definitionVersion
    && run.input == req.payload
    && run.maxAttempts == OrElse(req.maxAttempts, DEFAULT_MAX_ATTEMPTS)
  }

  function NewRun(req: EnqueueRequest, appNow: int): Run {
    Run(req.runId, req.workflowName, req.definitionVersion, req.executionId,
        req.idempotencyKey, req.visibilityKey, req.principal, req.payload,
        RunStatus.Pending, None, None, OrElse(req.maxAttempts, DEFAULT_MAX_ATTEMPTS),
        OrElse(req.runAfter, appNow), None, None, appNow, appNow)
  }

  function NewCommand(req: CommandRequest, appNow: int): Command {
    Command(req.commandId, req.runId, req.kind, req.payload, Queued, 0,
            OrElse(req.availableAt, appNow), None, 0, None, None, None, appNow, appNow)
  }

  function StartCommandId(runId: string): string {
    "start:" + runId
  }

  function StartRequest(runId: string, req: EnqueueRequest): CommandRequest {
    CommandRequest(StartCommandId(runId), runId, Start, req.payload, req.runAfter)
  }

  /** The row that already owns the key of a request. */
  predicate Owns(t: Tables, id: string, req: EnqueueRequest) {
    id in t.runs && KeyedBy(t.runs[id], req)
  }

  /** The insert with its conflict clause on the unique (workflow, idempotency key) index. */
  ghost function InsertRun(t: Tables, req: EnqueueRequest, appNow: int): (Tables, Result<Enqueued, EnqueueError>) {
    if exists id :: Owns(t, id, req) then
      var id :| Owns(t, id, req);
      var run := t.runs[id];
      if run.visibilityKey != req.visibilityKey then (t, Failure(NotAccessible))
      else if !SameParameters(run, req) then (t, Failure(DifferentParameters))
      else (t, Success(Enqueued(run.runId, run.executionId)))
    else if req.runId in t.runs then (t, Failure(DuplicateRunId))
    else (t.(runs := t.runs[req.runId := NewRun(req, appNow)]), Success(Enqueued(req.runId, req.executionId)))
  }

  predicate ActiveRun(t: Tables, runId: string) {
    runId in t.runs && !Terminal(t.runs[runId].status)
  }

  function InsertCommand(t: Tables, req: CommandRequest, appNow: int): (Tables, Result<(), EnqueueError>) {
    if req.commandId !in t.commands then
      if ActiveRun(t, req.runId)
      then (t.(commands := t.commands[req.commandId := NewCommand(req, appNow)]), Success(()))
      else (t, Failure(NoActiveRun))
    else
      var existing := t.commands[req.commandId];
      if existing.runId == req.runId && existing.kind == req.kind && existing.payload == req.payload
      then (t, Success(()))
      else (t, Failure(CommandConflict))
  }

  /** Run and start command in one transaction: a failure of either insert rolls both back. */
  ghost function Enqueue(t: Tables, req: EnqueueRequest, appNow: int): (Tables, Result<Enqueued, EnqueueError>) {
    var (t1, inserted) := InsertRun(t, req, appNow);
    if inserted.Failure? then (t, inserted) else
    var (t2, started) := InsertCommand(t1, StartRequest(inserted.value.runId, req), appNow);
    if started.Failure? then (t, Failure(started.error)) else (t2, inserted)
  }

  // ------------------------------------------------------------------ claiming

  /** What a claim returns for one row: the command with its lease, joined with its run. */
  datatype ClaimedCommand = ClaimedCommand(
    commandId: string,
    runId: string,
    workflowName: string,
    definitionVersion: string,
    executionId: string,
    kind: CommandKind,
    payload: Value,
    attempts: int,
    maxAttempts: int,
    leaseOwner: string,
    leaseToken: int)

  predicate Eligible(t: Tables, id: string, now: int) {
    id in t.commands &&
    var c := t.commands[id];
    ActiveRun(t, c.runId) &&
    ((c.status.Queued? && c.availableAt <= now)
     || (c.status.Delivering? && c.leaseUntil.Some? && c.leaseUntil.value <= now))
  }

  /**
   The rows picked by the claim: eligible, not skipped because another transaction holds
   their lock, at most `limit`, and none passed over in favour of a younger one.
   */
  ghost predicate ClaimSelects(t: Tables, now: int, limit: int, locked: set<string>, ids: seq<string>) {
    && |ids| <= limit
    && (forall i, j :: 0 <= i < j < |ids| ==> ids[i] != ids[j])
    && (forall i :: 0 <= i < |ids| ==> Eligible(t, ids[i], now) && ids[i] !in locked)
    && (forall e :: Eligible(t, e, now) && e !in locked && e !in ids ==>
          && |ids| == limit
          && forall i :: 0 <= i < |ids| ==> t.commands[ids[i]].createdAt <= t.commands[e].createdAt)
  }

  function ClaimedRow(c: Command, now: int, worker: string, lease: nat): Command {
    c.(status := Delivering,
       attempts := c.attempts + 1,
       leaseOwner := Some(worker),
       leaseToken := c.leaseToken + 1,
       leaseUntil := Some(now + lease),
       updatedAt := now)
  }

  function ClaimRows(t: Tables, ids: seq<string>, now: int, worker: string, lease: nat): (t': Tables)
    ensures t'.runs == t.runs && t'.commands.Keys == t.commands.Keys
  {
    t.(commands := map id | id in t.commands ::
                     if id in ids then ClaimedRow(t.commands[id], now, worker, lease) else t.commands[id])
  }

  function Joined(run: Run, c: Command, worker: string): ClaimedCommand {
    ClaimedCommand(c.commandId, c.runId, run.workflowName, run.definitionVersion, run.executionId,
                   c.kind, c.payload, c.attempts, run.maxAttempts, worker, c.leaseToken)
  }

  // ------------------------------------------------------------------ settling

  datatype Settlement =
    | Deliver
    | RetryAfter(delay: nat, retryError: Value)
    | GiveUp(finalError: Value)

  /** The fence of every settlement statement. */
  predicate HoldsLease(t: Tables, c: ClaimedCommand) {
    c.commandId in t.commands &&
    var row := t.commands[c.commandId];
    row.status.Delivering? && row.leaseOwner == Some(c.leaseOwner) && row.leaseToken == c.leaseToken
  }

  function SettledRow(row: Command, how: Settlement, now: int, appNow: int): Command {
    var released := row.(leaseOwner := None, leaseUntil := None, updatedAt := now);
    match how
    case Deliver =>
      released.(status := Delivered, availableAt := appNow, deliveredAt := Some(now), lastError := None)
    case RetryAfter(delay, error) =>
      released.(status := Queued, availableAt := appNow + delay, lastError := Some(error))
    case GiveUp(error) =>
      released.(status := Abandoned, availableAt := appNow, lastError := Some(error))
  }

  function SettleCommand(t: Tables, c: ClaimedCommand, how: Settlement, now: int, appNow: int): (Tables, bool) {
    if HoldsLease(t, c)
    then (t.(commands := t.commands[c.commandId := SettledRow(t.commands[c.commandId], how, now, appNow)]), true)
    else (t, false)
  }

  // ------------------------------------------------------------------- marking

  function MarkedRow(run: Run, status: RunStatus, result: Option<Value>, error: Option<Value>, now: int, appNow: int): Run {
    run.(status := status,
         result := if result.Some? then result else run.result,
         error := if error.Some? then error else run.error,
         startedAt := if run.startedAt.Some? then run.startedAt
                      else if status.Running? then Some(appNow) else None,
         completedAt := if Terminal(status) && run.completedAt.None? then Some(appNow) else run.completedAt,
         updatedAt := now)
  }

  /** Updates a run that is not terminal yet and leaves every other row alone. */
  function MarkRun(t: Tables, runId: string, status: RunStatus, result: Option<Value>, error: Option<Value>, now: int, appNow: int): Tables {
    if ActiveRun(t, runId)
    then t.(runs := t.runs[runId := MarkedRow(t.runs[runId], status, result, error, now, appNow)])
    else t
  }

  /** A settlement; giving up also fails the run, in the same transaction. */
  function Settle(t: Tables, c: ClaimedCommand, how: Settlement, now: int, appNow: int): (Tables, bool) {
    var (settled, won) := SettleCommand(t, c, how, now, appNow);
    if won && how.GiveUp?
    then (MarkRun(settled, c.runId, RunStatus.Failed, None, Some(how.finalError), now, appNow), won)
    else (settled, won)
  }
}
