/**
 What holds over whole runs of the workflow engine, whatever the interleaving: fencing,
 attempt accounting, the lifecycle of runs, claim safety and idempotent enqueueing.
 */
module WorkflowSafety {
  import opened Wrappers
  import opened JsNumbers
  import opened JsonValues
  import opened WorkflowTables
  import WorkflowColumns
  import opened WorkflowSystem
  import opened WorkflowInvariant

  lemma {:induction false} TraceKeepsInv(states: seq<System>, steps: seq<Step>, k: nat)
    requires Trace(states, steps) && Inv(states[0]) && k < |states|
    ensures Inv(states[k])
  {
    if k > 0 {
      TraceKeepsInv(states, steps, k - 1);
      assert StepAt(states, steps, k - 1);
      StepKeepsInv(states[k - 1], steps[k - 1]);
    }
  }

  lemma InvariantHolds(states: seq<System>, steps: seq<Step>, k: nat)
    requires TraceFromStart(states, steps) && k < |states|
    ensures Inv(states[k])
  {
    TraceKeepsInv(states, steps, k);
  }

  lemma EvolvesReflexive(s: System)
    ensures Evolves(s, s)
  {
  }

  lemma TraceStepEvolves(states: seq<System>, steps: seq<Step>, k: nat)
    requires Trace(states, steps) && k < |steps|
    ensures Evolves(states[k], states[k + 1])
  {
    assert StepAt(states, steps, k);
    StepEvolves(states[k], steps[k]);
  }

  lemma {:induction false} TraceEvolves(states: seq<System>, steps: seq<Step>, a: nat, b: nat)
    requires Trace(states, steps) && a <= b < |states|
    ensures Evolves(states[a], states[b])
    decreases b
  {
    if a == b {
      EvolvesReflexive(states[a]);
    } else {
      TraceEvolves(states, steps, a, b - 1);
      TraceStepEvolves(states, steps, b - 1);
      EvolvesTransitive(states[a], states[b - 1], states[b]);
    }
  }

  // ------------------------------------------------------------------- fencing

  /** Two tickets of one command never share a fencing token, even under one owner id. */
  lemma TokensAreDistinct(states: seq<System>, steps: seq<Step>, k: nat, i: nat, j: nat)
    requires TraceFromStart(states, steps) && k < |states|
    requires i < |states[k].tickets| && j < |states[k].tickets| && i != j
    ensures var (a, b) := (states[k].tickets[i].command, states[k].tickets[j].command);
            a.commandId == b.commandId ==> a.leaseToken != b.leaseToken
  {
    InvariantHolds(states, steps, k);
  }

  /** Step `k` settles a command under a token and wins the fence. */
  ghost predicate Wins(s: System, step: Step, id: string, token: int) {
    step.SettleTicket? && step.ticket < |s.tickets| &&
    var c := s.tickets[step.ticket].command;
    c.commandId == id && c.leaseToken == token && HoldsLease(s.tables, c)
  }

  /** At most one settlement ever succeeds for a command and a token. */
  lemma OneSettlementPerToken(states: seq<System>, steps: seq<Step>, a: nat, b: nat, id: string, token: int)
    requires TraceFromStart(states, steps) && a < |steps| && b < |steps|
    requires Wins(states[a], steps[a], id, token) && Wins(states[b], steps[b], id, token)
    ensures a == b
  {
    if a < b {
      WinnerSettlesForGood(states, steps, a, b, id, token);
    } else if b < a {
      WinnerSettlesForGood(states, steps, b, a, id, token);
    }
  }

  lemma WinnerSettlesForGood(states: seq<System>, steps: seq<Step>, a: nat, b: nat, id: string, token: int)
    requires Trace(states, steps) && a < b < |steps|
    requires Wins(states[a], steps[a], id, token)
    ensures !Wins(states[b], steps[b], id, token)
  {
    var c := states[a].tickets[steps[a].ticket].command;
    assert StepAt(states, steps, a);
    SettleCommandAt(states[a].tables, c, steps[a].how, states[a].now, steps[a].appNow, id);
    TraceEvolves(states, steps, a + 1, b);
    assert CommandEvolves(states[a + 1].tables.commands[id], states[b].tables.commands[id]);
  }

  /**
   Once a command has been claimed again, every settlement of the older ticket, at any
   later time, loses and changes neither table.
   */
  lemma SupersededIsHarmless(states: seq<System>, steps: seq<Step>, a: nat, b: nat, i: nat, j: nat,
                             how: Settlement, now: int, appNow: int)
    requires TraceFromStart(states, steps) && a <= b < |states|
    requires i < j < |states[a].tickets|
    requires states[a].tickets[i].command.commandId == states[a].tickets[j].command.commandId
    ensures Settle(states[b].tables, states[a].tickets[i].command, how, now, appNow) == (states[b].tables, false)
  {
    InvariantHolds(states, steps, a);
    TraceEvolves(states, steps, a, b);
    var c := states[a].tickets[i].command;
    assert TicketOk(states[a], states[a].tickets[j]);
    assert CommandEvolves(states[a].tables.commands[c.commandId], states[b].tables.commands[c.commandId]);
  }

  /** Unless it was superseded, a worker that reaches settlement wins it. */
  lemma CurrentTicketWins(states: seq<System>, steps: seq<Step>, k: nat, i: nat, how: Settlement, appNow: int)
    requires TraceFromStart(states, steps) && k < |states|
    requires i < |states[k].tickets| && Outstanding(states[k].tickets[i])
    ensures var (s, t) := (states[k], states[k].tickets[i]);
            && t.command.commandId in s.tables.commands
            && (Settle(s.tables, t.command, how, s.now, appNow).1
                <==> s.tables.commands[t.command.commandId].leaseToken == t.command.leaseToken)
            && (s.now < t.leaseUntil ==> Settle(s.tables, t.command, how, s.now, appNow).1)
  {
    InvariantHolds(states, steps, k);
    assert TicketOk(states[k], states[k].tickets[i]);
  }

  /** Two unexpired leases never exist for one command, whether their workers live or have crashed. */
  lemma OneLiveLease(states: seq<System>, steps: seq<Step>, k: nat, i: nat, j: nat)
    requires TraceFromStart(states, steps) && k < |states|
    requires i < |states[k].tickets| && j < |states[k].tickets|
    requires states[k].tickets[i].command.commandId == states[k].tickets[j].command.commandId
    requires Unsettled(states[k].tickets[i]) && states[k].now < states[k].tickets[i].leaseUntil
    requires Unsettled(states[k].tickets[j]) && states[k].now < states[k].tickets[j].leaseUntil
    ensures i == j
  {
    InvariantHolds(states, steps, k);
    assert TicketOk(states[k], states[k].tickets[i]) && TicketOk(states[k], states[k].tickets[j]);
    if i != j {
      TokensAreDistinct(states, steps, k, i, j);
    }
  }

  // ---------------------------------------------------------------- accounting

  predicate ClaimsId(step: Step, id: string) {
    step.Claim? && id in step.ids
  }

  /** The claim takes over a lease that has expired. */
  predicate ReclaimsId(s: System, step: Step, id: string) {
    ClaimsId(step, id) && id in s.tables.commands && s.tables.commands[id].status.Delivering?
  }

  predicate RetriesId(s: System, step: Step, id: string) {
    step.SettleTicket? && step.how.RetryAfter? && step.ticket < |s.tickets|
    && s.tickets[step.ticket].command.commandId == id && HoldsLease(s.tables, s.tickets[step.ticket].command)
  }

  function CountClaims(states: seq<System>, steps: seq<Step>, id: string, k: nat): nat
    requires k <= |steps| <= |states|
  {
    if k == 0 then 0
    else CountClaims(states, steps, id, k - 1) + (if ClaimsId(steps[k - 1], id) then 1 else 0)
  }

  function CountReclaims(states: seq<System>, steps: seq<Step>, id: string, k: nat): nat
    requires k <= |steps| <= |states|
  {
    if k == 0 then 0
    else CountReclaims(states, steps, id, k - 1) + (if ReclaimsId(states[k - 1], steps[k - 1], id) then 1 else 0)
  }

  function CountRetries(states: seq<System>, steps: seq<Step>, id: string, k: nat): nat
    requires k <= |steps| <= |states|
  {
    if k == 0 then 0
    else CountRetries(states, steps, id, k - 1) + (if RetriesId(states[k - 1], steps[k - 1], id) then 1 else 0)
  }

  /** One step adds to the tally and the attempts of one command what the counters say. */
  ghost predicate Counts(s: System, step: Step, s': System, id: string) {
    id in s'.tallies && id in s'.tables.commands &&
    var prior := if id in s.tallies then s.tallies[id] else Tally(0, 0);
    var attempts := if id in s.tables.commands then s.tables.commands[id].attempts else 0;
    && s'.tallies[id].retries == prior.retries + (if RetriesId(s, step, id) then 1 else 0)
    && s'.tallies[id].reclaims == prior.reclaims + (if ReclaimsId(s, step, id) then 1 else 0)
    && s'.tables.commands[id].attempts == attempts + (if ClaimsId(step, id) then 1 else 0)
  }

  lemma SettleCounts(s: System, step: Step, id: string)
    requires TalliesOk(s) && Enabled(s, step) && step.SettleTicket? && id in Next(s, step).tables.commands
    ensures Counts(s, step, Next(s, step), id)
  {
    SettleCommandAt(s.tables, s.tickets[step.ticket].command, step.how, s.now, step.appNow, id);
  }

  lemma ClaimCounts(s: System, step: Step, id: string)
    requires TalliesOk(s) && Enabled(s, step) && step.Claim? && id in s.tables.commands
    ensures Counts(s, step, Next(s, step), id)
  {
  }

  lemma EnqueueCounts(s: System, step: Step, id: string)
    requires TalliesOk(s) && (step.EnqueueRun? || step.EnqueueCommand?) && id in Next(s, step).tables.commands
    ensures Counts(s, step, Next(s, step), id)
  {
    if step.EnqueueRun? {
      EnqueueExtends(s.tables, step.run, step.appNow);
    }
  }

  lemma StepCounts(s: System, step: Step, id: string)
    requires TalliesOk(s) && Enabled(s, step) && id in Next(s, step).tables.commands
    ensures Counts(s, step, Next(s, step), id)
  {
    if step.SettleTicket? {
      SettleCounts(s, step, id);
    } else if step.Claim? {
      ClaimCounts(s, step, id);
    } else if step.EnqueueRun? || step.EnqueueCommand? {
      EnqueueCounts(s, step, id);
    }
  }

  lemma AbsentUncounted(s: System, step: Step, id: string)
    requires TicketsOk(s) && Enabled(s, step) && id !in s.tables.commands
    ensures !ClaimsId(step, id) && !RetriesId(s, step, id)
  {
    assert step.SettleTicket? ==> TicketOk(s, s.tickets[step.ticket]);
    assert ClaimsId(step, id) ==> Eligible(s.tables, id, s.now);
  }

  lemma TraceStepCounts(states: seq<System>, steps: seq<Step>, id: string, k: nat)
    requires TraceFromStart(states, steps) && k < |steps|
    ensures id !in states[k].tables.commands ==> !ClaimsId(steps[k], id) && !RetriesId(states[k], steps[k], id)
    ensures id in states[k].tables.commands ==> id in states[k + 1].tables.commands
    ensures id in states[k + 1].tables.commands ==> Counts(states[k], steps[k], states[k + 1], id)
  {
    InvariantHolds(states, steps, k);
    TraceStepEvolves(states, steps, k);
    assert StepAt(states, steps, k);
    if id !in states[k].tables.commands {
      AbsentUncounted(states[k], steps[k], id);
    }
    if id in states[k + 1].tables.commands {
      StepCounts(states[k], steps[k], id);
    }
  }

  ghost predicate CountedBy(s: System, id: string, claims: nat, retries: nat, reclaims: nat) {
    if id in s.tables.commands
    then id in s.tallies && s.tallies[id] == Tally(retries, reclaims) && s.tables.commands[id].attempts == claims
    else id !in s.tallies && claims == retries == reclaims == 0
  }

  lemma CountedOn(s: System, step: Step, s': System, id: string, claims: nat, retries: nat, reclaims: nat)
    requires CountedBy(s, id, claims, retries, reclaims)
    requires id !in s.tables.commands ==> !ClaimsId(step, id) && !RetriesId(s, step, id)
    requires if id in s'.tables.commands then Counts(s, step, s', id) else id !in s.tables.commands && id !in s'.tallies
    ensures CountedBy(s', id, claims + (if ClaimsId(step, id) then 1 else 0), retries + (if RetriesId(s, step, id) then 1 else 0),
                      reclaims + (if ReclaimsId(s, step, id) then 1 else 0))
  {
  }

  lemma UncountedIsUntallied(states: seq<System>, steps: seq<Step>, id: string, k: nat)
    requires TraceFromStart(states, steps) && k < |states|
    ensures id !in states[k].tables.commands ==> id !in states[k].tallies
  {
    InvariantHolds(states, steps, k);
  }

  lemma {:induction false} TalliesCount(states: seq<System>, steps: seq<Step>, id: string, k: nat)
    requires TraceFromStart(states, steps) && k < |states|
    ensures CountedBy(states[k], id, CountClaims(states, steps, id, k), CountRetries(states, steps, id, k), CountReclaims(states, steps, id, k))
  {
    if k > 0 {
      TalliesCount(states, steps, id, k - 1);
      TraceStepCounts(states, steps, id, k - 1);
      UncountedIsUntallied(states, steps, id, k);
      CountedOn(states[k - 1], steps[k - 1], states[k], id, CountClaims(states, steps, id, k - 1),
                CountRetries(states, steps, id, k - 1), CountReclaims(states, steps, id, k - 1));
    }
  }

  /**
   In every reachable state the attempts of a command, its fencing token and the number
   of times it was claimed are one number; it is the number of successful retries, plus
   the reclaims of expired leases, plus one unless the command is waiting. Retries stay
   below the attempt limit of the run, so only reclaims can push claims past it.
   */
  lemma AttemptAccounting(states: seq<System>, steps: seq<Step>, id: string, k: nat)
    requires TraceFromStart(states, steps) && k < |states| && id in states[k].tables.commands
    ensures states[k].tables.commands[id].runId in states[k].tables.runs
    ensures var c := states[k].tables.commands[id];
            var most := states[k].tables.runs[c.runId].maxAttempts;
            var (claims, retries, reclaims) :=
              (CountClaims(states, steps, id, k), CountRetries(states, steps, id, k), CountReclaims(states, steps, id, k));
            && c.attempts == c.leaseToken == claims
            && claims == retries + reclaims + (if c.status.Queued? then 0 else 1)
            && retries <= (if most >= 1 then most - 1 else 0)
            && claims <= (if most >= 1 then most else 1) + reclaims
  {
    InvariantHolds(states, steps, k);
    TalliesCount(states, steps, id, k);
    var c := states[k].tables.commands[id];
    assert Accounted(c, states[k].tallies[id], states[k].tables.runs[c.runId].maxAttempts);
  }

  // ----------------------------------------------------------------- lifecycle

  /**
   A run is never lost and keeps its identity; its status only moves forward; and once
   it is terminal its whole row stays as it is.
   */
  lemma RunsMoveForward(states: seq<System>, steps: seq<Step>, a: nat, b: nat, id: string)
    requires Trace(states, steps) && a <= b < |states| && id in states[a].tables.runs
    ensures id in states[b].tables.runs
    ensures var (before, after) := (states[a].tables.runs[id], states[b].tables.runs[id]);
            && Rank(before.status) <= Rank(after.status)
            && (Terminal(before.status) ==> after == before)
            && (before.startedAt.Some? ==> after.startedAt == before.startedAt)
            && after.workflowName == before.workflowName && after.idempotencyKey == before.idempotencyKey
            && after.executionId == before.executionId && after.input == before.input
            && after.maxAttempts == before.maxAttempts && WorkflowColumns.SameRequest(before, after)
  {
    TraceEvolves(states, steps, a, b);
    assert RunEvolves(states[a].tables.runs[id], states[b].tables.runs[id]);
  }

  /** completedAt is set exactly when a run is terminal, and a run that runs has started. */
  lemma LifecycleTimestamps(states: seq<System>, steps: seq<Step>, k: nat, id: string)
    requires TraceFromStart(states, steps) && k < |states| && id in states[k].tables.runs
    ensures var run := states[k].tables.runs[id];
            && (run.completedAt.Some? <==> Terminal(run.status))
            && (run.status.Running? || run.status.Succeeded? ==> run.startedAt.Some?)
  {
    InvariantHolds(states, steps, k);
    assert LifecycleOk(states[k].tables.runs[id]);
  }

  /** The two tables agree, although workers mark runs without a fence. */
  lemma TablesAgree(states: seq<System>, steps: seq<Step>, k: nat, id: string)
    requires TraceFromStart(states, steps) && k < |states| && id in states[k].tables.commands
    ensures states[k].tables.commands[id].runId in states[k].tables.runs
    ensures var c := states[k].tables.commands[id];
            var run := states[k].tables.runs[c.runId];
            && (c.status.Delivered? ==> !run.status.Pending?)
            && (c.status.Delivered? && c.kind.Cancel? ==> Terminal(run.status))
            && (c.status.Abandoned? ==> Terminal(run.status))
            && (c.leaseOwner.Some? <==> c.status.Delivering?)
            && (c.leaseUntil.Some? <==> c.status.Delivering?)
  {
    InvariantHolds(states, steps, k);
    var c := states[k].tables.commands[id];
    assert Agrees(c, states[k].tables.runs[c.runId]) && LeaseOk(c);
  }

  // ------------------------------------------------------------------ claiming

  /**
   A claim hands out at most the clamped limit of distinct commands of active runs, and
   nobody holds an unexpired lease on any of them, not even a worker that has crashed.
   */
  lemma ClaimsAreSafe(states: seq<System>, steps: seq<Step>, k: nat, i: nat, x: nat)
    requires TraceFromStart(states, steps) && k < |steps| && steps[k].Claim?
    requires i < |steps[k].ids| && x < |states[k].tickets|
    ensures |steps[k].ids| <= NormalizeSqlLimit(steps[k].limit)
    ensures var (s, id) := (states[k], steps[k].ids[i]);
            && id in s.tables.commands
            && ActiveRun(s.tables, s.tables.commands[id].runId)
            && (s.tickets[x].command.commandId == id && Unsettled(s.tickets[x]) ==> s.tickets[x].leaseUntil <= s.now)
  {
    InvariantHolds(states, steps, k);
    assert StepAt(states, steps, k);
    assert Eligible(states[k].tables, steps[k].ids[i], states[k].now);
    assert TicketOk(states[k], states[k].tickets[x]);
  }

  /**
   The lease of a crashed worker stands in the row until it expires: until then the
   command stays leased under its token, and nobody claims it.
   */
  lemma CrashedLeaseStands(states: seq<System>, steps: seq<Step>, a: nat, b: nat, x: nat)
    requires TraceFromStart(states, steps) && a <= b < |states|
    requires x < |states[a].tickets| && states[a].tickets[x].phase.Crashed?
    requires states[b].now < states[a].tickets[x].leaseUntil
    ensures var t := states[a].tickets[x];
            && t.command.commandId in states[b].tables.commands
            && HoldsLease(states[b].tables, t.command)
            && states[b].tables.commands[t.command.commandId].leaseUntil == Some(t.leaseUntil)
            && (b < |steps| ==> !ClaimsId(steps[b], t.command.commandId))
  {
    TraceEvolves(states, steps, a, b);
    InvariantHolds(states, steps, b);
    var t := states[a].tickets[x];
    assert TicketEvolves(t, states[b].tickets[x]);
    assert TicketOk(states[b], t);
    if b < |steps| {
      assert StepAt(states, steps, b);
      assert ClaimsId(steps[b], t.command.commandId) ==> Eligible(states[b].tables, t.command.commandId, states[b].now);
    }
  }

  /** A delivered or failed command keeps its row for ever and is never claimed again. */
  lemma SettledForEver(states: seq<System>, steps: seq<Step>, a: nat, b: nat, id: string)
    requires Trace(states, steps) && a <= b < |steps| && id in states[a].tables.commands
    requires states[a].tables.commands[id].status.Delivered? || states[a].tables.commands[id].status.Abandoned?
    ensures id in states[b].tables.commands && states[b].tables.commands[id] == states[a].tables.commands[id]
    ensures !ClaimsId(steps[b], id)
  {
    TraceEvolves(states, steps, a, b);
    assert CommandEvolves(states[a].tables.commands[id], states[b].tables.commands[id]);
    assert StepAt(states, steps, b);
    assert ClaimsId(steps[b], id) ==> Eligible(states[b].tables, id, states[b].now);
  }

  /** Once its run is terminal, a command is never claimed again. */
  lemma TerminalRunsAreLeftAlone(states: seq<System>, steps: seq<Step>, a: nat, b: nat, id: string)
    requires TraceFromStart(states, steps) && a <= b < |steps| && id in states[a].tables.commands
    requires var t := states[a].tables; t.commands[id].runId in t.runs && Terminal(t.runs[t.commands[id].runId].status)
    ensures !ClaimsId(steps[b], id)
  {
    var runId := states[a].tables.commands[id].runId;
    TraceEvolves(states, steps, a, b);
    assert CommandEvolves(states[a].tables.commands[id], states[b].tables.commands[id]);
    assert RunEvolves(states[a].tables.runs[runId], states[b].tables.runs[runId]);
    assert StepAt(states, steps, b);
    assert ClaimsId(steps[b], id) ==> Eligible(states[b].tables, id, states[b].now);
  }

  // ---------------------------------------------------------------- enqueueing

  /** The owner and the parameters of the run are those of the request. */
  predicate SameAsked(run: Run, req: EnqueueRequest) {
    && run.visibilityKey == req.visibilityKey && run.definitionVersion == req.definitionVersion
    && run.input == req.payload && WorkflowColumns.AttemptsOf(run.maxAttempts, req)
  }

  /** What decides an enqueue, read off the tables before it. */
  ghost predicate Accepts(t: Tables, req: EnqueueRequest) {
    if exists id :: id in t.runs && WorkflowColumns.HasKeyOf(t.runs[id], req)
    then exists id :: id in t.runs && WorkflowColumns.HasKeyOf(t.runs[id], req) && SameAsked(t.runs[id], req)
    else req.runId !in t.runs && "start:" + req.runId !in t.commands
  }

  /** A repeated key: the tables stay as they are, and the answer is the run of the key. */
  lemma EnqueueAgain(t: Tables, req: EnqueueRequest, appNow: int, id: string)
    requires TablesOk(t) && Owns(t, id, req)
    ensures Enqueue(t, req, appNow).0 == t
    ensures Enqueue(t, req, appNow).1 ==
            if t.runs[id].visibilityKey != req.visibilityKey then Failure(NotAccessible)
            else if !SameParameters(t.runs[id], req) then Failure(DifferentParameters)
            else Success(Enqueued(id, t.runs[id].executionId))
  {
    assert HasStart(t, id);
    forall other | Owns(t, other, req) ensures other == id {
      assert SameKey(t.runs[id], t.runs[other]);
    }
  }

  /** A new key: both ids have to be free, and the run comes with its start command. */
  lemma EnqueueNew(t: Tables, req: EnqueueRequest, appNow: int)
    requires TablesOk(t) && forall id :: !Owns(t, id, req)
    ensures var (t', outcome) := Enqueue(t, req, appNow);
            var start := StartCommandId(req.runId);
            if req.runId !in t.runs && start !in t.commands
            then
              && outcome == Success(Enqueued(req.runId, req.executionId))
              && t'.runs == t.runs[req.runId := NewRun(req, appNow)]
              && t'.commands == t.commands[start := NewCommand(StartRequest(req.runId, req), appNow)]
              && HasStart(t', req.runId)
              && WorkflowColumns.IsNewRun(t'.runs[req.runId], req, appNow)
              && WorkflowColumns.IsStartOf(t'.commands["start:" + req.runId], req.runId, req, appNow)
            else t' == t && outcome == Failure(if req.runId in t.runs then DuplicateRunId else CommandConflict)
  {
    var start := StartCommandId(req.runId);
    assert start in t.commands && req.runId !in t.runs ==> t.commands[start].runId != req.runId;
  }

  /**
   An enqueue succeeds exactly when its key is new and its ids are free, or the key
   belongs to a run with the same visibility and parameters. A failed enqueue changes
   nothing.
   */
  lemma EnqueueExactly(t: Tables, req: EnqueueRequest, appNow: int)
    requires TablesOk(t)
    ensures Enqueue(t, req, appNow).1.Success? <==> Accepts(t, req)
    ensures Enqueue(t, req, appNow).1.Failure? ==> Enqueue(t, req, appNow).0 == t
  {
    forall id | id in t.runs ensures WorkflowColumns.HasKeyOf(t.runs[id], req) <==> Owns(t, id, req) {
    }
    if id :| Owns(t, id, req) {
      EnqueueAgain(t, req, appNow, id);
      forall other | Owns(t, other, req) ensures other == id {
        assert SameKey(t.runs[id], t.runs[other]);
      }
      assert WorkflowColumns.HasKeyOf(t.runs[id], req);
    } else {
      EnqueueNew(t, req, appNow);
    }
  }

  /** After a successful enqueue the answer owns the key. */
  lemma AnswerOwnsKey(states: seq<System>, steps: seq<Step>, a: nat)
    requires TraceFromStart(states, steps) && a < |steps| && steps[a].EnqueueRun?
    requires Enqueue(states[a].tables, steps[a].run, steps[a].appNow).1.Success?
    ensures var answer := Enqueue(states[a].tables, steps[a].run, steps[a].appNow).1.value;
            && Owns(states[a + 1].tables, answer.runId, steps[a].run)
            && states[a + 1].tables.runs[answer.runId].executionId == answer.executionId
  {
    InvariantHolds(states, steps, a);
    assert StepAt(states, steps, a);
    if id :| Owns(states[a].tables, id, steps[a].run) {
      EnqueueAgain(states[a].tables, steps[a].run, steps[a].appNow, id);
    } else {
      EnqueueNew(states[a].tables, steps[a].run, steps[a].appNow);
    }
  }

  /**
   The first request of a key wins: whenever two requests with one workflow name and
   idempotency key succeed, they are answered with the same run, however long the run
   has been terminal by then.
   */
  lemma FirstRequestWins(states: seq<System>, steps: seq<Step>, a: nat, b: nat)
    requires TraceFromStart(states, steps) && a < b < |steps|
    requires steps[a].EnqueueRun? && steps[b].EnqueueRun?
    requires steps[a].run.workflowName == steps[b].run.workflowName
    requires steps[a].run.idempotencyKey == steps[b].run.idempotencyKey
    requires Enqueue(states[a].tables, steps[a].run, steps[a].appNow).1.Success?
    requires Enqueue(states[b].tables, steps[b].run, steps[b].appNow).1.Success?
    ensures Enqueue(states[a].tables, steps[a].run, steps[a].appNow).1
         == Enqueue(states[b].tables, steps[b].run, steps[b].appNow).1
  {
    AnswerOwnsKey(states, steps, a);
    var first := Enqueue(states[a].tables, steps[a].run, steps[a].appNow).1.value;
    RunsMoveForward(states, steps, a + 1, b, first.runId);
    InvariantHolds(states, steps, b);
    EnqueueAgain(states[b].tables, steps[b].run, steps[b].appNow, first.runId);
  }

  /** One run per key, and every run has its start command, carrying its input. */
  lemma OneRunPerKey(states: seq<System>, steps: seq<Step>, k: nat, x: string, y: string)
    requires TraceFromStart(states, steps) && k < |states|
    requires x in states[k].tables.runs && y in states[k].tables.runs
    ensures SameKey(states[k].tables.runs[x], states[k].tables.runs[y]) ==> x == y
    ensures HasStart(states[k].tables, x)
  {
    InvariantHolds(states, steps, k);
  }
}
