/**
 The rows and answers of the store, column by column. Each predicate spells out what one
 statement writes or returns, so that a caller can read it off without the functions that
 compute it, and each lemma says that those functions write exactly that.
 */
module WorkflowColumns {
  import opened Wrappers
  import opened JsNumbers
  import opened JsonValues
  import opened WorkflowTables
  import T = WorkflowTables

  /** One row is new, and the others are as before. */
  predicate Adds<R(==)>(before: map<string, R>, after: map<string, R>, id: string) {
    id !in before && after.Keys == before.Keys + {id} && forall k :: k in before ==> after[k] == before[k]
  }

  /** At most one row is different. */
  predicate Changes<R(==)>(before: map<string, R>, after: map<string, R>, id: string) {
    after.Keys == before.Keys && forall k :: k in before && k != id ==> after[k] == before[k]
  }

  // ---------------------------------------------------------------- enqueueing

  /** Ten attempts unless the request says otherwise. */
  predicate AttemptsOf(attempts: int, req: EnqueueRequest) {
    if req.maxAttempts.Some? then attempts == req.maxAttempts.value else attempts == 10
  }

  predicate IsNewRun(run: Run, req: EnqueueRequest, appNow: int) {
    && run.runId == req.runId && run.workflowName == req.workflowName
    && run.definitionVersion == req.definitionVersion && run.executionId == req.executionId
    && run.idempotencyKey == req.idempotencyKey && run.visibilityKey == req.visibilityKey
    && run.principal == req.principal && run.input == req.payload
    && run.status == RunStatus.Pending && run.result == None && run.error == None
    && AttemptsOf(run.maxAttempts, req)
    && run.runAfter == (if req.runAfter.Some? then req.runAfter.value else appNow)
    && run.startedAt == None && run.completedAt == None
    && run.createdAt == appNow && run.updatedAt == appNow
  }

  predicate IsWaiting(c: Command, commandId: string, runId: string, kind: CommandKind, payload: Value, availableAt: Option<int>, appNow: int) {
    && c.commandId == commandId && c.runId == runId && c.kind == kind && c.payload == payload
    && c.status == Queued && c.attempts == 0
    && c.availableAt == (if availableAt.Some? then availableAt.value else appNow)
    && c.leaseOwner == None && c.leaseToken == 0 && c.leaseUntil == None
    && c.deliveredAt == None && c.lastError == None
    && c.createdAt == appNow && c.updatedAt == appNow
  }

  /** The start command of a run carries its input and waits until the run may start. */
  predicate IsStartOf(c: Command, runId: string, req: EnqueueRequest, appNow: int) {
    IsWaiting(c, "start:" + runId, runId, Start, req.payload, req.runAfter, appNow)
  }

  /** The run has the workflow name and the idempotency key of the request. */
  predicate HasKeyOf(run: Run, req: EnqueueRequest) {
    run.workflowName == req.workflowName && run.idempotencyKey == req.idempotencyKey
  }

  /** The answer to a request whose key belongs to a run already. */
  predicate AnswersAgain(run: Run, req: EnqueueRequest, outcome: Result<Enqueued, EnqueueError>) {
    if run.visibilityKey != req.visibilityKey then outcome == Failure(NotAccessible)
    else if run.definitionVersion == req.definitionVersion && run.input == req.payload && AttemptsOf(run.maxAttempts, req)
    then outcome == Success(Enqueued(run.runId, run.executionId))
    else outcome == Failure(DifferentParameters)
  }

  /** What inserting a run does and answers. */
  ghost predicate InsertsRun(t: Tables, t': Tables, req: EnqueueRequest, appNow: int, outcome: Result<Enqueued, EnqueueError>) {
    && t'.commands == t.commands
    && (forall id :: id in t.runs && HasKeyOf(t.runs[id], req) ==> t' == t && AnswersAgain(t.runs[id], req, outcome))
    && ((forall id :: id in t.runs ==> !HasKeyOf(t.runs[id], req)) ==>
          if req.runId in t.runs then t' == t && outcome == Failure(DuplicateRunId)
          else
            && Adds(t.runs, t'.runs, req.runId) && IsNewRun(t'.runs[req.runId], req, appNow)
            && outcome == Success(Enqueued(req.runId, req.executionId)))
  }

  lemma InsertRunInserts(t: Tables, req: EnqueueRequest, appNow: int)
    requires forall a, b :: Owns(t, a, req) && Owns(t, b, req) ==> a == b
    ensures var (t', outcome) := T.InsertRun(t, req, appNow); InsertsRun(t, t', req, appNow, outcome)
  {
    forall id | id in t.runs && HasKeyOf(t.runs[id], req) ensures Owns(t, id, req) {
    }
  }

  /** What inserting a command does and answers. */
  predicate InsertsCommand(t: Tables, t': Tables, req: CommandRequest, appNow: int, outcome: Result<(), EnqueueError>) {
    && t'.runs == t.runs
    && if req.commandId in t.commands then
         var row := t.commands[req.commandId];
         && t' == t
         && outcome == if row.runId == req.runId && row.kind == req.kind && row.payload == req.payload
                       then Success(()) else Failure(CommandConflict)
       else if req.runId in t.runs && (t.runs[req.runId].status.Pending? || t.runs[req.runId].status.Running?) then
         && Adds(t.commands, t'.commands, req.commandId)
         && IsWaiting(t'.commands[req.commandId], req.commandId, req.runId, req.kind, req.payload, req.availableAt, appNow)
         && outcome == Success(())
       else t' == t && outcome == Failure(NoActiveRun)
  }

  lemma InsertCommandInserts(t: Tables, req: CommandRequest, appNow: int)
    ensures var (t', outcome) := T.InsertCommand(t, req, appNow); InsertsCommand(t, t', req, appNow, outcome)
  {
  }

  /** A request under a new key, with both ids free: the run and its start command are the new rows. */
  lemma EnqueueAdds(t: Tables, req: EnqueueRequest, appNow: int)
    requires forall id :: id in t.runs ==> !HasKeyOf(t.runs[id], req)
    requires req.runId !in t.runs && "start:" + req.runId !in t.commands
    ensures var (t', outcome) := T.Enqueue(t, req, appNow);
            && outcome == Success(Enqueued(req.runId, req.executionId))
            && Adds(t.runs, t'.runs, req.runId) && IsNewRun(t'.runs[req.runId], req, appNow)
            && Adds(t.commands, t'.commands, "start:" + req.runId)
            && IsStartOf(t'.commands["start:" + req.runId], req.runId, req, appNow)
  {
    assert forall id :: !Owns(t, id, req);
  }

  // ------------------------------------------------------------------ claiming

  /** Due for delivery: waiting and available, or leased and expired, and the run is not over. */
  predicate IsDue(t: Tables, id: string, now: int) {
    id in t.commands &&
    var c := t.commands[id];
    && c.runId in t.runs && (t.runs[c.runId].status.Pending? || t.runs[c.runId].status.Running?)
    && ((c.status.Queued? && c.availableAt <= now)
        || (c.status.Delivering? && c.leaseUntil.Some? && c.leaseUntil.value <= now))
  }

  /** The oldest due rows, up to the limit. */
  ghost predicate TakesOldest(t: Tables, now: int, limit: int, locked: set<string>, ids: seq<string>) {
    && |ids| <= limit
    && (forall i :: 0 <= i < |ids| ==> IsDue(t, ids[i], now) && ids[i] !in locked)
    && (forall id :: IsDue(t, id, now) && id !in locked && id !in ids ==>
          |ids| == limit && forall i :: 0 <= i < |ids| ==> t.commands[ids[i]].createdAt <= t.commands[id].createdAt)
  }

  lemma SelectionTakesOldest(t: Tables, now: int, limit: int, locked: set<string>, ids: seq<string>)
    requires ClaimSelects(t, now, limit, locked, ids)
    ensures TakesOldest(t, now, limit, locked, ids)
  {
    forall id | id in t.commands ensures IsDue(t, id, now) <==> Eligible(t, id, now) {
    }
    forall i | 0 <= i < |ids| ensures IsDue(t, ids[i], now) {
      assert Eligible(t, ids[i], now);
    }
  }

  /** The row after a claim: one more attempt, the next token, and a lease from now on. */
  predicate IsLeased(row: Command, row': Command, now: int, worker: string, lease: nat) {
    && row'.commandId == row.commandId && row'.runId == row.runId && row'.kind == row.kind && row'.payload == row.payload
    && row'.status == Delivering && row'.attempts == row.attempts + 1 && row'.availableAt == row.availableAt
    && row'.leaseOwner == Some(worker) && row'.leaseToken == row.leaseToken + 1 && row'.leaseUntil == Some(now + lease)
    && row'.deliveredAt == row.deliveredAt && row'.lastError == row.lastError
    && row'.createdAt == row.createdAt && row'.updatedAt == now
  }

  /** What a claim returns of a leased row and its run. */
  predicate IsClaimOf(c: ClaimedCommand, run: Run, row: Command) {
    && c.commandId == row.commandId && c.runId == row.runId
    && c.workflowName == run.workflowName && c.definitionVersion == run.definitionVersion
    && c.executionId == run.executionId && c.maxAttempts == run.maxAttempts
    && c.kind == row.kind && c.payload == row.payload && c.attempts == row.attempts
    && row.leaseOwner == Some(c.leaseOwner) && c.leaseToken == row.leaseToken
  }

  /** A claim leases the rows it picks and no other. */
  predicate GrantsLeases(t: Tables, t': Tables, ids: seq<string>, now: int, worker: string, lease: nat) {
    && t'.runs == t.runs && t'.commands.Keys == t.commands.Keys
    && forall id :: id in t.commands ==>
         if id in ids then IsLeased(t.commands[id], t'.commands[id], now, worker, lease)
         else t'.commands[id] == t.commands[id]
  }

  lemma ClaimLeases(t: Tables, ids: seq<string>, now: int, worker: string, lease: nat)
    ensures GrantsLeases(t, ClaimRows(t, ids, now, worker, lease), ids, now, worker, lease)
  {
  }

  // ------------------------------------------------------------------ settling

  /** The row is being delivered under the owner and the token of the claim. */
  predicate IsHeldBy(commands: map<string, Command>, c: ClaimedCommand) {
    && c.commandId in commands && commands[c.commandId].status == Delivering
    && commands[c.commandId].leaseOwner == Some(c.leaseOwner) && commands[c.commandId].leaseToken == c.leaseToken
  }

  /** The settled row: released, and waiting, delivered or failed. */
  predicate IsSettled(row: Command, row': Command, how: Settlement, now: int, appNow: int) {
    && row'.commandId == row.commandId && row'.runId == row.runId && row'.kind == row.kind && row'.payload == row.payload
    && row'.attempts == row.attempts && row'.leaseToken == row.leaseToken && row'.createdAt == row.createdAt
    && row'.leaseOwner == None && row'.leaseUntil == None && row'.updatedAt == now
    && match how
       case Deliver =>
         row'.status == Delivered && row'.availableAt == appNow && row'.deliveredAt == Some(now) && row'.lastError == None
       case RetryAfter(delay, error) =>
         && row'.status == Queued && row'.availableAt == appNow + delay
         && row'.deliveredAt == row.deliveredAt && row'.lastError == Some(error)
       case GiveUp(error) =>
         && row'.status == Abandoned && row'.availableAt == appNow
         && row'.deliveredAt == row.deliveredAt && row'.lastError == Some(error)
  }

  /** A settlement statement: the fence decides, and only the fenced row changes. */
  predicate SettlesCommand(commands: map<string, Command>, commands': map<string, Command>, c: ClaimedCommand,
                           how: Settlement, now: int, appNow: int, settled: bool) {
    && settled == IsHeldBy(commands, c)
    && if settled
       then Changes(commands, commands', c.commandId)
            && IsSettled(commands[c.commandId], commands'[c.commandId], how, now, appNow)
       else commands' == commands
  }

  predicate IsOver(run: Run) {
    run.status == RunStatus.Succeeded || run.status == RunStatus.Failed || run.status == RunStatus.Cancelled
  }

  /** The columns of a run that no statement changes after its insertion. */
  predicate SameRequest(run: Run, run': Run) {
    && run'.runId == run.runId && run'.workflowName == run.workflowName
    && run'.definitionVersion == run.definitionVersion && run'.executionId == run.executionId
    && run'.idempotencyKey == run.idempotencyKey && run'.visibilityKey == run.visibilityKey
    && run'.principal == run.principal && run'.input == run.input
    && run'.maxAttempts == run.maxAttempts && run'.runAfter == run.runAfter && run'.createdAt == run.createdAt
  }

  /** The marked row: result and error stay unless given, the first startedAt and completedAt stay. */
  predicate IsMarked(run: Run, run': Run, status: RunStatus, result: Option<Value>, error: Option<Value>, now: int, appNow: int) {
    && SameRequest(run, run') && run'.status == status && run'.updatedAt == now
    && run'.result == (if result == None then run.result else result)
    && run'.error == (if error == None then run.error else error)
    && run'.startedAt == (if run.startedAt == None && status == RunStatus.Running then Some(appNow) else run.startedAt)
    && run'.completedAt == (if run.completedAt == None && status != RunStatus.Pending && status != RunStatus.Running
                            then Some(appNow) else run.completedAt)
  }

  /** Marking changes one run that is not over, and nothing otherwise. */
  predicate MarksRun(runs: map<string, Run>, runs': map<string, Run>, runId: string, status: RunStatus,
                     result: Option<Value>, error: Option<Value>, now: int, appNow: int) {
    if runId in runs && !IsOver(runs[runId])
    then Changes(runs, runs', runId) && IsMarked(runs[runId], runs'[runId], status, result, error, now, appNow)
    else runs' == runs
  }

  lemma MarkedRowIsMarked(run: Run, status: RunStatus, result: Option<Value>, error: Option<Value>, now: int, appNow: int)
    ensures IsMarked(run, MarkedRow(run, status, result, error, now, appNow), status, result, error, now, appNow)
  {
  }

  lemma MarkRunMarks(t: Tables, runId: string, status: RunStatus, result: Option<Value>, error: Option<Value>, now: int, appNow: int)
    ensures var t' := T.MarkRun(t, runId, status, result, error, now, appNow);
            t'.commands == t.commands && MarksRun(t.runs, t'.runs, runId, status, result, error, now, appNow)
  {
    if runId in t.runs {
      MarkedRowIsMarked(t.runs[runId], status, result, error, now, appNow);
    }
  }

  lemma SettleCommandSettles(t: Tables, c: ClaimedCommand, how: Settlement, now: int, appNow: int)
    ensures var (t', settled) := T.SettleCommand(t, c, how, now, appNow);
            t'.runs == t.runs && SettlesCommand(t.commands, t'.commands, c, how, now, appNow, settled)
  {
  }

  /** Giving up fails the run together with the command; a superseded worker changes neither table. */
  predicate FailsBoth(t: Tables, t': Tables, c: ClaimedCommand, error: Value, now: int, appNow: int, settled: bool) {
    && SettlesCommand(t.commands, t'.commands, c, GiveUp(error), now, appNow, settled)
    && if settled then MarksRun(t.runs, t'.runs, c.runId, RunStatus.Failed, None, Some(error), now, appNow)
       else t'.runs == t.runs
  }

  /** A settlement by all three ways: only giving up touches a run. */
  lemma SettleSettles(t: Tables, c: ClaimedCommand, how: Settlement, now: int, appNow: int)
    ensures var (t', settled) := T.Settle(t, c, how, now, appNow);
            && SettlesCommand(t.commands, t'.commands, c, how, now, appNow, settled)
            && (how.GiveUp? ==> FailsBoth(t, t', c, how.finalError, now, appNow, settled))
            && (!how.GiveUp? ==> t'.runs == t.runs)
  {
    SettleCommandSettles(t, c, how, now, appNow);
    if how.GiveUp? {
      MarkRunMarks(T.SettleCommand(t, c, how, now, appNow).0, c.runId, RunStatus.Failed, None, Some(how.finalError), now, appNow);
    }
  }

  // ---------------------------------------------------------------- retrying

  /**
   Another attempt is allowed: fewer attempts than the run's limit and, if a finite limit
   is configured, fewer than that limit rounded down and raised to one.
   */
  predicate MayRetry(attempts: int, maxAttempts: int, cap: Option<Number>) {
    && attempts < maxAttempts
    && (cap.Some? && cap.value.Finite? ==> attempts < 1 || (attempts + 1) as real <= cap.value.value)
  }
}
