/**
 Why a row is as it is, over whole runs of the workflow engine: what made a run running or
 ended it, when a command was given up, what a ticket carries, when a command is claimed
 and what a repeated request is answered.
 */
module WorkflowCauses {
  import opened Wrappers
  import opened JsNumbers
  import opened JsonValues
  import opened WorkflowTables
  import opened WorkflowColumns
  import opened WorkflowSystem
  import opened WorkflowInvariant
  import opened WorkflowSafety

  // ------------------------------------------------------------------- tickets

  /** A ticket carries what its command and its run say, from the claim on and for ever. */
  lemma TicketsCarryTheirRows(states: seq<System>, steps: seq<Step>, k: nat, i: nat)
    requires TraceFromStart(states, steps) && k < |states| && i < |states[k].tickets|
    ensures var (c, t) := (states[k].tickets[i].command, states[k].tables);
            && c.commandId in t.commands && c.runId in t.runs
            && var (row, run) := (t.commands[c.commandId], t.runs[c.runId]);
               && row.runId == c.runId && row.kind == c.kind && row.payload == c.payload
               && run.workflowName == c.workflowName && run.definitionVersion == c.definitionVersion
               && run.executionId == c.executionId && run.maxAttempts == c.maxAttempts
               && c.attempts == c.leaseToken <= row.attempts
  {
    InvariantHolds(states, steps, k);
    var c := states[k].tickets[i].command;
    assert TicketOk(states[k], states[k].tickets[i]);
    assert Accounted(states[k].tables.commands[c.commandId], states[k].tallies[c.commandId], states[k].tables.runs[c.runId].maxAttempts);
  }

  // ------------------------------------------------------------------ claiming

  /** Every claim leases the oldest due commands that are not locked, and nothing else. */
  lemma ClaimsTakeOldestDue(states: seq<System>, steps: seq<Step>, k: nat)
    requires Trace(states, steps) && k < |steps| && steps[k].Claim?
    ensures var (s, step) := (states[k], steps[k]);
            && TakesOldest(s.tables, s.now, NormalizeSqlLimit(step.limit), step.locked, step.ids)
            && GrantsLeases(s.tables, states[k + 1].tables, step.ids, s.now, step.worker, step.lease)
  {
    assert StepAt(states, steps, k);
    SelectionTakesOldest(states[k].tables, states[k].now, NormalizeSqlLimit(steps[k].limit), steps[k].locked, steps[k].ids);
    ClaimLeases(states[k].tables, steps[k].ids, states[k].now, steps[k].worker, steps[k].lease);
  }

  lemma WaitingStaysPut(states: seq<System>, steps: seq<Step>, k: nat, id: string)
    requires TraceFromStart(states, steps) && k < |steps| && id in states[k].tables.commands
    requires states[k].tables.commands[id].status.Queued? && states[k].now < states[k].tables.commands[id].availableAt
    ensures !ClaimsId(steps[k], id)
    ensures id in states[k + 1].tables.commands && states[k + 1].tables.commands[id] == states[k].tables.commands[id]
  {
    assert StepAt(states, steps, k);
    assert ClaimsId(steps[k], id) ==> Eligible(states[k].tables, id, states[k].now);
    TraceStepCounts(states, steps, id, k);
    AttemptAccounting(states, steps, id, k);
    AttemptAccounting(states, steps, id, k + 1);
    TraceStepEvolves(states, steps, k);
    assert CommandEvolves(states[k].tables.commands[id], states[k + 1].tables.commands[id]);
  }

  /** A command that waits keeps its row and is not claimed before it becomes available. */
  lemma {:induction false} WaitsUntilAvailable(states: seq<System>, steps: seq<Step>, a: nat, b: nat, id: string)
    requires TraceFromStart(states, steps) && a <= b < |states| && id in states[a].tables.commands
    requires states[a].tables.commands[id].status.Queued? && states[b].now < states[a].tables.commands[id].availableAt
    ensures id in states[b].tables.commands && states[b].tables.commands[id] == states[a].tables.commands[id]
    ensures b < |steps| ==> !ClaimsId(steps[b], id)
    decreases b
  {
    if a < b {
      TraceStepEvolves(states, steps, b - 1);
      WaitsUntilAvailable(states, steps, a, b - 1, id);
      WaitingStaysPut(states, steps, b - 1, id);
    }
    if b < |steps| {
      WaitingStaysPut(states, steps, b, id);
    }
  }

  // ------------------------------------------------------------------ retrying

  /** The limit of the run and the option of the dispatcher together, in numbers. */
  lemma LimitInNumbers(c: ClaimedCommand, cap: Option<Number>)
    ensures c.attempts < AttemptLimit(c, cap) <==> MayRetry(c.attempts, c.maxAttempts, cap)
  {
  }

  /** What a settlement that holds its lease makes of the row, by the outcome and the row's own numbers. */
  lemma SettlementDecided(states: seq<System>, steps: seq<Step>, k: nat)
    requires TraceFromStart(states, steps) && k < |steps| && steps[k].SettleTicket?
    requires steps[k].ticket < |states[k].tickets|
    requires IsHeldBy(states[k].tables.commands, states[k].tickets[steps[k].ticket].command)
    ensures var (t, ticket) := (states[k].tables, states[k].tickets[steps[k].ticket]);
            var id := ticket.command.commandId;
            && t.commands[id].runId in t.runs && id in states[k + 1].tables.commands
            && var after := states[k + 1].tables.commands[id].status;
               && (after.Delivered? <==> ticket.phase.Succeeded?)
               && (ticket.phase.Errored? ==>
                     if MayRetry(t.commands[id].attempts, t.runs[t.commands[id].runId].maxAttempts, steps[k].cap)
                     then after.Queued? else after.Abandoned?)
  {
    assert StepAt(states, steps, k);
    var c := states[k].tickets[steps[k].ticket].command;
    TicketsCarryTheirRows(states, steps, k, steps[k].ticket);
    AttemptAccounting(states, steps, c.commandId, k);
    LimitInNumbers(c, steps[k].cap);
    SettleSettles(states[k].tables, c, steps[k].how, states[k].now, steps[k].appNow);
  }

  /** The step gives the command up, after a failure and with one of the two limits reached. */
  ghost predicate GivesUp(s: System, step: Step, id: string) {
    && step.SettleTicket? && step.ticket < |s.tickets| && s.tickets[step.ticket].phase.Errored?
    && s.tickets[step.ticket].command.commandId == id && IsHeldBy(s.tables.commands, s.tickets[step.ticket].command)
    && s.tables.commands[id].runId in s.tables.runs
    && var (row, run) := (s.tables.commands[id], s.tables.runs[s.tables.commands[id].runId]);
       || row.attempts >= run.maxAttempts
       || (step.cap.Some? && step.cap.value.Finite? && row.attempts >= 1 && step.cap.value.value < (row.attempts + 1) as real)
  }

  /** The command is failed after the step and was not before. */
  ghost predicate Abandons(s: System, s': System, id: string) {
    && id in s'.tables.commands && s'.tables.commands[id].status.Abandoned?
    && (id in s.tables.commands ==> !s.tables.commands[id].status.Abandoned?)
  }

  lemma OtherStepsAbandonNothing(s: System, step: Step, id: string)
    requires Enabled(s, step) && !step.SettleTicket?
    ensures !Abandons(s, Next(s, step), id)
  {
    if step.EnqueueRun? {
      EnqueueExtends(s.tables, step.run, step.appNow);
    }
  }

  lemma OnlySettlingAbandons(s: System, step: Step, id: string)
    requires Enabled(s, step) && Abandons(s, Next(s, step), id)
    ensures step.SettleTicket? && step.how.GiveUp? && step.ticket < |s.tickets|
    ensures s.tickets[step.ticket].command.commandId == id && IsHeldBy(s.tables.commands, s.tickets[step.ticket].command)
  {
    if step.SettleTicket? {
      SettleSettles(s.tables, s.tickets[step.ticket].command, step.how, s.now, step.appNow);
    } else {
      OtherStepsAbandonNothing(s, step, id);
    }
  }

  lemma AbandoningGivesUp(states: seq<System>, steps: seq<Step>, j: nat, id: string)
    requires TraceFromStart(states, steps) && j < |steps| && Abandons(states[j], states[j + 1], id)
    ensures GivesUp(states[j], steps[j], id)
  {
    assert StepAt(states, steps, j);
    OnlySettlingAbandons(states[j], steps[j], id);
    SettlementDecided(states, steps, j);
  }

  lemma NothingAtFirst(states: seq<System>, steps: seq<Step>, id: string)
    requires TraceFromStart(states, steps)
    ensures id !in states[0].tables.commands && id !in states[0].tables.runs
  {
  }

  /** A command that is failed was given up at one of the two limits, and its row has not changed since. */
  lemma {:induction false} GivenUpAtLimit(states: seq<System>, steps: seq<Step>, k: nat, id: string) returns (j: nat)
    requires TraceFromStart(states, steps) && k < |states| && id in states[k].tables.commands
    requires states[k].tables.commands[id].status.Abandoned?
    ensures j < k && GivesUp(states[j], steps[j], id)
    ensures id in states[j + 1].tables.commands && states[j + 1].tables.commands[id] == states[k].tables.commands[id]
  {
    NothingAtFirst(states, steps, id);
    j := k - 1;
    if Abandons(states[j], states[k], id) {
      AbandoningGivesUp(states, steps, j, id);
    } else {
      TraceStepEvolves(states, steps, j);
      assert CommandEvolves(states[j].tables.commands[id], states[k].tables.commands[id]);
      j := GivenUpAtLimit(states, steps, j, id);
    }
  }

  // ------------------------------------------------------------------- marking

  /** The step marks the run after the engine has accepted a command of it. */
  predicate Executes(s: System, step: Step, id: string) {
    step.Execute? && step.marked && step.ticket < |s.tickets| && s.tickets[step.ticket].command.runId == id
  }

  predicate GivesUpRun(s: System, step: Step, id: string) {
    && step.SettleTicket? && step.how.GiveUp? && step.ticket < |s.tickets|
    && s.tickets[step.ticket].command.runId == id && IsHeldBy(s.tables.commands, s.tickets[step.ticket].command)
  }

  /**
   The step is a cause of the status in the row it leaves: a cancel command cancels, other
   commands set running, a completed poll succeeds, and a broken poll or a command given
   up fails, with the error of that poll or command.
   */
  predicate Causes(s: System, step: Step, id: string, run: Run) {
    match run.status
    case Pending => false
    case Running => Executes(s, step, id) && !s.tickets[step.ticket].command.kind.Cancel?
    case Cancelled => Executes(s, step, id) && s.tickets[step.ticket].command.kind.Cancel?
    case Succeeded =>
      step.Reconcile? && step.runId == id && step.outcome.Completed? && run.result == Some(step.outcome.value)
    case Failed =>
      || (step.Reconcile? && step.runId == id && step.outcome.Broken? && run.error == Some(step.outcome.error))
      || (GivesUpRun(s, step, id) && run.error == Some(step.how.finalError))
  }

  lemma SettleCauses(s: System, step: Step, id: string)
    requires Enabled(s, step) && step.SettleTicket? && id in s.tables.runs
    ensures id in Next(s, step).tables.runs
    ensures Next(s, step).tables.runs[id] != s.tables.runs[id] ==> Causes(s, step, id, Next(s, step).tables.runs[id])
  {
    SettleSettles(s.tables, s.tickets[step.ticket].command, step.how, s.now, step.appNow);
  }

  lemma StepCauses(s: System, step: Step, id: string)
    requires Enabled(s, step) && id in s.tables.runs
    ensures id in Next(s, step).tables.runs
    ensures Next(s, step).tables.runs[id] != s.tables.runs[id] ==> Causes(s, step, id, Next(s, step).tables.runs[id])
  {
    if step.EnqueueRun? {
      EnqueueExtends(s.tables, step.run, step.appNow);
    } else if step.SettleTicket? {
      SettleCauses(s, step, id);
    }
  }

  lemma NewRunsArePending(s: System, step: Step, id: string)
    requires Enabled(s, step) && id !in s.tables.runs && id in Next(s, step).tables.runs
    ensures Next(s, step).tables.runs[id].status.Pending?
  {
    if step.SettleTicket? {
      SettleSettles(s.tables, s.tickets[step.ticket].command, step.how, s.now, step.appNow);
    }
  }

  /** Every status that a run has reached has its cause earlier in the run of the engine. */
  lemma {:induction false} StatusHasCause(states: seq<System>, steps: seq<Step>, k: nat, id: string) returns (j: nat)
    requires TraceFromStart(states, steps) && k < |states| && id in states[k].tables.runs
    requires !states[k].tables.runs[id].status.Pending?
    ensures j < k && id in states[j].tables.runs && id in states[j + 1].tables.runs
    ensures states[j + 1].tables.runs[id] == states[k].tables.runs[id]
    ensures Causes(states[j], steps[j], id, states[j + 1].tables.runs[id])
  {
    j := k - 1;
    assert StepAt(states, steps, j);
    if id !in states[j].tables.runs {
      NewRunsArePending(states[j], steps[j], id);
    } else {
      StepCauses(states[j], steps[j], id);
      if states[k].tables.runs[id] == states[j].tables.runs[id] {
        j := StatusHasCause(states, steps, j, id);
      }
    }
  }

  /** A run is cancelled only by a worker that has executed a cancel command of that run. */
  lemma CancelledByCancelOnly(states: seq<System>, steps: seq<Step>, k: nat, id: string) returns (j: nat)
    requires TraceFromStart(states, steps) && k < |states| && id in states[k].tables.runs
    requires states[k].tables.runs[id].status == RunStatus.Cancelled
    ensures j < k && steps[j].Execute? && steps[j].marked && steps[j].ticket < |states[j].tickets|
    ensures var c := states[j].tickets[steps[j].ticket].command;
            && c.runId == id && c.kind == Cancel
            && c.commandId in states[j].tables.commands && states[j].tables.commands[c.commandId].kind == Cancel
            && states[j].tables.commands[c.commandId].runId == id
  {
    j := StatusHasCause(states, steps, k, id);
    TicketsCarryTheirRows(states, steps, j, steps[j].ticket);
  }

  // ---------------------------------------------------------------- enqueueing

  lemma OwnsIsHasKey(t: Tables, id: string, req: EnqueueRequest)
    ensures Owns(t, id, req) <==> id in t.runs && HasKeyOf(t.runs[id], req)
  {
  }

  /** A repeated key, by columns: nothing changes, and owner and parameters decide the answer. */
  lemma RepeatAnswered(t: Tables, req: EnqueueRequest, appNow: int, id: string)
    requires TablesOk(t) && id in t.runs && HasKeyOf(t.runs[id], req)
    ensures Enqueue(t, req, appNow).0 == t && AnswersAgain(t.runs[id], req, Enqueue(t, req, appNow).1)
  {
    OwnsIsHasKey(t, id, req);
    EnqueueAgain(t, req, appNow, id);
  }

  /** The run that a successful enqueue answers with, as it is in the tables after it. */
  lemma AnswerMatches(t: Tables, req: EnqueueRequest, appNow: int)
    requires TablesOk(t) && Enqueue(t, req, appNow).1.Success?
    ensures var (t', answer) := (Enqueue(t, req, appNow).0, Enqueue(t, req, appNow).1.value);
            && answer.runId in t'.runs
            && var run := t'.runs[answer.runId];
               && run.runId == answer.runId && run.executionId == answer.executionId
               && HasKeyOf(run, req) && SameAsked(run, req)
  {
    if id :| Owns(t, id, req) {
      OwnsIsHasKey(t, id, req);
      RepeatAnswered(t, req, appNow, id);
    } else {
      forall id | id in t.runs ensures !HasKeyOf(t.runs[id], req) {
        OwnsIsHasKey(t, id, req);
      }
      EnqueueNew(t, req, appNow);
      EnqueueAdds(t, req, appNow);
    }
  }

  /** Two requests that ask for the same run. */
  predicate SameAsk(a: EnqueueRequest, b: EnqueueRequest) {
    && a.workflowName == b.workflowName && a.idempotencyKey == b.idempotencyKey && a.visibilityKey == b.visibilityKey
    && a.definitionVersion == b.definitionVersion && a.payload == b.payload
    && (if a.maxAttempts.Some? then a.maxAttempts.value else 10) == (if b.maxAttempts.Some? then b.maxAttempts.value else 10)
  }

  /**
   Once an enqueue has succeeded, every request for the same run succeeds at every later
   moment, with the same answer and without a change, even when the run is long over.
   */
  lemma RepeatSucceeds(states: seq<System>, steps: seq<Step>, a: nat, b: nat, req: EnqueueRequest, appNow: int)
    requires TraceFromStart(states, steps) && a < |steps| && a < b < |states| && steps[a].EnqueueRun?
    requires Enqueue(states[a].tables, steps[a].run, steps[a].appNow).1.Success? && SameAsk(steps[a].run, req)
    ensures Enqueue(states[b].tables, req, appNow)
         == (states[b].tables, Enqueue(states[a].tables, steps[a].run, steps[a].appNow).1)
  {
    InvariantHolds(states, steps, a);
    InvariantHolds(states, steps, b);
    assert StepAt(states, steps, a);
    AnswerMatches(states[a].tables, steps[a].run, steps[a].appNow);
    var id := Enqueue(states[a].tables, steps[a].run, steps[a].appNow).1.value.runId;
    RunsMoveForward(states, steps, a + 1, b, id);
    RepeatAnswered(states[b].tables, req, appNow, id);
  }
}
