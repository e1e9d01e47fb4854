/** Every step of the engine keeps the invariant. */
module WorkflowInvariant {
  import opened Wrappers
  import opened JsNumbers
  import opened JsonValues
  import opened WorkflowTables
  import opened WorkflowSystem

  // ------------------------------------------------------------ table statements

  lemma StartIdsDiffer(a: string, b: string)
    ensures StartCommandId(a) == StartCommandId(b) ==> a == b
  {
    assert StartCommandId(a)[6..] == a && StartCommandId(b)[6..] == b;
  }

  /** A new row of the command table, waiting for its first claim. */
  predicate Fresh(t: Tables, c: Command) {
    c.commandId !in t.commands && c.runId in t.runs && c.status.Queued? && c.leaseOwner.None? && c.leaseUntil.None?
  }

  lemma NewCommandKeepsTables(t: Tables, c: Command)
    requires TablesOk(t) && Fresh(t, c)
    ensures TablesOk(t.(commands := t.commands[c.commandId := c]))
  {
    var t' := t.(commands := t.commands[c.commandId := c]);
    forall id | id in t'.runs ensures HasStart(t', id) {
      assert HasStart(t, id);
    }
    forall id | id in t'.commands ensures LeaseOk(t'.commands[id]) && Agrees(t'.commands[id], t'.runs[t'.commands[id].runId]) {
      assert id in t.commands ==> LeaseOk(t.commands[id]) && Agrees(t.commands[id], t.runs[t.commands[id].runId]);
    }
  }

  lemma InsertCommandKeepsTables(t: Tables, req: CommandRequest, appNow: int)
    requires TablesOk(t)
    ensures TablesOk(InsertCommand(t, req, appNow).0)
  {
    if req.commandId !in t.commands && ActiveRun(t, req.runId) {
      NewCommandKeepsTables(t, NewCommand(req, appNow));
    }
  }

  /** A run under a new key, together with its start command. */
  lemma NewRunKeepsTables(t: Tables, req: EnqueueRequest, appNow: int)
    requires TablesOk(t)
    requires forall id :: !Owns(t, id, req)
    requires req.runId !in t.runs && StartCommandId(req.runId) !in t.commands
    ensures var start := NewCommand(StartRequest(req.runId, req), appNow);
            TablesOk(Tables(t.runs[req.runId := NewRun(req, appNow)], t.commands[start.commandId := start]))
  {
    var start := NewCommand(StartRequest(req.runId, req), appNow);
    var t' := Tables(t.runs[req.runId := NewRun(req, appNow)], t.commands[start.commandId := start]);
    forall a, b | a in t'.runs && b in t'.runs && SameKey(t'.runs[a], t'.runs[b]) ensures a == b {
      assert !Owns(t, a, req) && !Owns(t, b, req);
    }
    forall id | id in t'.runs ensures HasStart(t', id) && LifecycleOk(t'.runs[id]) {
      StartIdsDiffer(id, req.runId);
      if id != req.runId { assert HasStart(t, id) && LifecycleOk(t.runs[id]); }
    }
    forall id | id in t'.commands ensures LeaseOk(t'.commands[id]) && Agrees(t'.commands[id], t'.runs[t'.commands[id].runId]) {
      assert id in t.commands ==> LeaseOk(t.commands[id]) && Agrees(t.commands[id], t.runs[t.commands[id].runId]);
    }
  }

  lemma EnqueueKeepsTables(t: Tables, req: EnqueueRequest, appNow: int)
    requires TablesOk(t)
    ensures TablesOk(Enqueue(t, req, appNow).0)
  {
    var (t1, inserted) := InsertRun(t, req, appNow);
    if inserted.Success? {
      var start := StartRequest(inserted.value.runId, req);
      if t1 == t {
        InsertCommandKeepsTables(t, start, appNow);
      } else if start.commandId !in t.commands {
        NewRunKeepsTables(t, req, appNow);
        assert InsertCommand(t1, start, appNow).0 ==
               Tables(t.runs[req.runId := NewRun(req, appNow)], t.commands[start.commandId := NewCommand(start, appNow)]);
      }
    }
  }

  predicate RowKept(t: Tables, c: Command, c': Command) {
    && c'.commandId == c.commandId && c'.runId == c.runId && c'.kind == c.kind && c'.payload == c.payload
    && LeaseOk(c')
    && (c.runId in t.runs ==> Agrees(c', t.runs[c.runId]))
  }

  /** A statement that only updates command rows. */
  lemma CommandUpdateKeepsTables(t: Tables, t': Tables)
    requires TablesOk(t)
    requires t'.runs == t.runs && t'.commands.Keys == t.commands.Keys
    requires forall id :: id in t.commands ==> RowKept(t, t.commands[id], t'.commands[id])
    ensures TablesOk(t')
  {
    forall id | id in t'.runs ensures HasStart(t', id) {
      assert HasStart(t, id);
    }
    forall id | id in t'.commands
      ensures t'.commands[id].commandId == id && t'.commands[id].runId in t'.runs
      ensures LeaseOk(t'.commands[id]) && Agrees(t'.commands[id], t'.runs[t'.commands[id].runId])
    {
      assert RowKept(t, t.commands[id], t'.commands[id]);
    }
  }

  lemma ClaimKeepsTables(t: Tables, ids: seq<string>, now: int, worker: string, lease: nat)
    requires TablesOk(t)
    ensures TablesOk(ClaimRows(t, ids, now, worker, lease))
  {
    var t' := ClaimRows(t, ids, now, worker, lease);
    forall id | id in t.commands ensures RowKept(t, t.commands[id], t'.commands[id]) {
      assert LeaseOk(t.commands[id]) && Agrees(t.commands[id], t.runs[t.commands[id].runId]);
    }
    CommandUpdateKeepsTables(t, t');
  }

  lemma MarkKeepsKeys(t: Tables, t': Tables)
    requires Keyed(t) && UniqueKeys(t) && Started(t)
    requires t'.commands == t.commands && t'.runs.Keys == t.runs.Keys
    requires forall id :: id in t.runs ==> RunKept(t.runs[id], t'.runs[id])
    ensures Keyed(t') && UniqueKeys(t') && Started(t')
  {
    forall id | id in t'.runs ensures t'.runs[id].runId == id && HasStart(t', id) {
      assert RunKept(t.runs[id], t'.runs[id]) && HasStart(t, id);
    }
    forall x, y | x in t'.runs && y in t'.runs && SameKey(t'.runs[x], t'.runs[y]) ensures x == y {
      assert RunKept(t.runs[x], t'.runs[x]) && RunKept(t.runs[y], t'.runs[y]);
      assert SameKey(t.runs[x], t.runs[y]);
    }
  }

  /** What marking a run keeps of its row. */
  predicate RunKept(run: Run, run': Run) {
    && run'.runId == run.runId && run'.workflowName == run.workflowName
    && run'.idempotencyKey == run.idempotencyKey && run'.input == run.input
  }

  lemma MarkKeepsAgreement(t: Tables, runId: string, row: Run)
    requires Keyed(t) && Lifecycles(t) && CrossTable(t)
    requires runId in t.runs && !Terminal(t.runs[runId].status) && LifecycleOk(row) && !row.status.Pending?
    ensures Lifecycles(t.(runs := t.runs[runId := row])) && CrossTable(t.(runs := t.runs[runId := row]))
  {
    var t' := t.(runs := t.runs[runId := row]);
    forall id | id in t'.commands && t'.commands[id].runId in t'.runs
      ensures Agrees(t'.commands[id], t'.runs[t'.commands[id].runId])
    {
      assert Agrees(t.commands[id], t.runs[t.commands[id].runId]);
    }
  }

  lemma MarkKeepsTables(t: Tables, runId: string, status: RunStatus, result: Option<Value>, error: Option<Value>, now: int, appNow: int)
    requires TablesOk(t)
    requires !status.Pending?
    requires ActiveRun(t, runId) && status.Succeeded? ==> t.runs[runId].startedAt.Some?
    ensures TablesOk(MarkRun(t, runId, status, result, error, now, appNow))
  {
    if ActiveRun(t, runId) {
      var row := MarkedRow(t.runs[runId], status, result, error, now, appNow);
      assert LifecycleOk(t.runs[runId]) && LifecycleOk(row);
      MarkKeepsAgreement(t, runId, row);
      MarkKeepsKeys(t, t.(runs := t.runs[runId := row]));
    }
  }

  lemma SettleCommandKeepsTables(t: Tables, c: ClaimedCommand, how: Settlement, now: int, appNow: int)
    requires TablesOk(t)
    requires HoldsLease(t, c) ==> Agrees(SettledRow(t.commands[c.commandId], how, now, appNow), t.runs[t.commands[c.commandId].runId])
    ensures TablesOk(SettleCommand(t, c, how, now, appNow).0)
  {
    if HoldsLease(t, c) {
      var t' := SettleCommand(t, c, how, now, appNow).0;
      forall id | id in t.commands ensures RowKept(t, t.commands[id], t'.commands[id]) {
        assert LeaseOk(t.commands[id]) && Agrees(t.commands[id], t.runs[t.commands[id].runId]);
      }
      CommandUpdateKeepsTables(t, t');
    }
  }

  /** Giving up settles the command of a run that the same transaction has made terminal. */
  lemma SettleKeepsTables(t: Tables, c: ClaimedCommand, how: Settlement, now: int, appNow: int)
    requires TablesOk(t)
    requires HoldsLease(t, c) ==> t.commands[c.commandId].runId == c.runId && t.commands[c.commandId].kind == c.kind
    requires how.Deliver? && HoldsLease(t, c) ==>
               !t.runs[c.runId].status.Pending? && (c.kind.Cancel? ==> Terminal(t.runs[c.runId].status))
    ensures TablesOk(Settle(t, c, how, now, appNow).0)
  {
    if how.GiveUp? && HoldsLease(t, c) {
      var t1 := MarkRun(t, c.runId, RunStatus.Failed, None, Some(how.finalError), now, appNow);
      MarkKeepsTables(t, c.runId, RunStatus.Failed, None, Some(how.finalError), now, appNow);
      SettleCommandKeepsTables(t1, c, how, now, appNow);
      assert SettleCommand(t1, c, how, now, appNow).0 == Settle(t, c, how, now, appNow).0;
    } else {
      SettleCommandKeepsTables(t, c, how, now, appNow);
    }
  }

  // ----------------------------------------------------------------- evolution

  /** Old rows stay as they are. */
  ghost predicate Extends(t: Tables, t': Tables) {
    && (forall id :: id in t.runs ==> id in t'.runs && t'.runs[id] == t.runs[id])
    && (forall id :: id in t.commands ==> id in t'.commands && t'.commands[id] == t.commands[id])
  }

  lemma EnqueueExtends(t: Tables, req: EnqueueRequest, appNow: int)
    ensures Extends(t, Enqueue(t, req, appNow).0)
  {
  }

  lemma ExtendsEvolves(t: Tables, t': Tables)
    requires Extends(t, t')
    ensures RunsEvolve(t, t') && CommandsEvolve(t, t')
  {
  }

  lemma MarkEvolves(t: Tables, runId: string, status: RunStatus, result: Option<Value>, error: Option<Value>, now: int, appNow: int)
    requires !status.Pending?
    ensures RunsEvolve(t, MarkRun(t, runId, status, result, error, now, appNow))
    ensures MarkRun(t, runId, status, result, error, now, appNow).commands == t.commands
  {
    if ActiveRun(t, runId) {
      assert RunEvolves(t.runs[runId], MarkedRow(t.runs[runId], status, result, error, now, appNow));
    }
  }

  lemma ClaimEvolves(t: Tables, ids: seq<string>, now: int, worker: string, lease: nat)
    requires forall i :: 0 <= i < |ids| ==> Eligible(t, ids[i], now)
    ensures CommandsEvolve(t, ClaimRows(t, ids, now, worker, lease))
  {
    var t' := ClaimRows(t, ids, now, worker, lease);
    forall id | id in t.commands ensures CommandEvolves(t.commands[id], t'.commands[id]) {
      if id in ids {
        assert Eligible(t, id, now);
        assert CommandEvolves(t.commands[id], ClaimedRow(t.commands[id], now, worker, lease));
      }
    }
  }

  lemma SettleEvolves(t: Tables, c: ClaimedCommand, how: Settlement, now: int, appNow: int)
    ensures RunsEvolve(t, Settle(t, c, how, now, appNow).0)
    ensures CommandsEvolve(t, Settle(t, c, how, now, appNow).0)
  {
    var t1 := SettleCommand(t, c, how, now, appNow).0;
    if HoldsLease(t, c) {
      assert CommandEvolves(t.commands[c.commandId], SettledRow(t.commands[c.commandId], how, now, appNow));
    }
    assert RunsEvolve(t, t1) && CommandsEvolve(t, t1);
    if how.GiveUp? {
      MarkEvolves(t1, c.runId, RunStatus.Failed, None, Some(how.finalError), now, appNow);
    }
  }

  lemma StepEvolvesTables(s: System, step: Step)
    requires Enabled(s, step)
    ensures RunsEvolve(s.tables, Next(s, step).tables)
    ensures CommandsEvolve(s.tables, Next(s, step).tables)
  {
    match step
    case EnqueueRun(req, appNow) =>
      EnqueueExtends(s.tables, req, appNow);
      ExtendsEvolves(s.tables, Enqueue(s.tables, req, appNow).0);
    case EnqueueCommand(req, appNow) =>
      ExtendsEvolves(s.tables, InsertCommand(s.tables, req, appNow).0);
    case Claim(_, worker, lease, _, ids) =>
      ClaimEvolves(s.tables, ids, s.now, worker, lease);
    case Execute(i, _, _, appNow) =>
      var c := s.tickets[i].command;
      MarkEvolves(s.tables, c.runId, MarkFor(c.kind), None, None, s.now, appNow);
    case SettleTicket(i, how, _, appNow) =>
      SettleEvolves(s.tables, s.tickets[i].command, how, s.now, appNow);
    case Reconcile(id, Completed(value), appNow) =>
      MarkEvolves(s.tables, id, RunStatus.Succeeded, Some(value), None, s.now, appNow);
    case Reconcile(id, Broken(error), appNow) =>
      MarkEvolves(s.tables, id, RunStatus.Failed, None, Some(error), s.now, appNow);
    case _ =>
  }

  lemma StepEvolves(s: System, step: Step)
    requires Enabled(s, step)
    ensures Evolves(s, Next(s, step))
  {
    StepEvolvesTables(s, step);
  }

  lemma EvolvesTransitive(a: System, b: System, c: System)
    requires Evolves(a, b) && Evolves(b, c)
    ensures Evolves(a, c)
  {
    forall id | id in a.tables.runs ensures id in c.tables.runs && RunEvolves(a.tables.runs[id], c.tables.runs[id]) {
      assert RunEvolves(a.tables.runs[id], b.tables.runs[id]) && RunEvolves(b.tables.runs[id], c.tables.runs[id]);
    }
    forall id | id in a.tables.commands
      ensures id in c.tables.commands && CommandEvolves(a.tables.commands[id], c.tables.commands[id])
    {
      assert CommandEvolves(a.tables.commands[id], b.tables.commands[id]);
      assert CommandEvolves(b.tables.commands[id], c.tables.commands[id]);
    }
  }

  // ------------------------------------------------------------------- tickets

  /** A step that leaves the commands alone leaves a ticket in order. */
  lemma CarryTicket(s: System, s': System, t: Ticket)
    requires TicketOk(s, t)
    requires s.now <= s'.now && RunsEvolve(s.tables, s'.tables)
    requires t.command.commandId in s'.tables.commands
    requires s'.tables.commands[t.command.commandId] == s.tables.commands[t.command.commandId]
    ensures TicketOk(s', t)
  {
    assert RunEvolves(s.tables.runs[t.command.runId], s'.tables.runs[t.command.runId]);
  }

  lemma CarryTickets(s: System, s': System)
    requires TicketsOk(s)
    requires s'.tickets == s.tickets && s.now <= s'.now && RunsEvolve(s.tables, s'.tables)
    requires forall id :: id in s.tables.commands ==> id in s'.tables.commands && s'.tables.commands[id] == s.tables.commands[id]
    ensures TicketsOk(s')
  {
    forall i | 0 <= i < |s'.tickets| ensures TicketOk(s', s'.tickets[i]) {
      CarryTicket(s, s', s.tickets[i]);
    }
  }

  lemma ExecuteKeepsTickets(s: System, i: nat, marked: bool, ok: bool, appNow: int)
    requires TicketsOk(s) && i < |s.tickets| && s.tickets[i].phase.Executing? && (ok ==> marked)
    ensures TicketsOk(ExecuteState(s, i, marked, ok, appNow))
  {
    var s' := ExecuteState(s, i, marked, ok, appNow);
    forall k | 0 <= k < |s'.tickets| ensures TicketOk(s', s'.tickets[k]) {
      CarryTicket(s, s', s.tickets[k]);
    }
  }

  lemma SettleCommandAt(t: Tables, c: ClaimedCommand, how: Settlement, now: int, appNow: int, id: string)
    requires id in t.commands
    ensures var t' := Settle(t, c, how, now, appNow).0;
            && t'.commands.Keys == t.commands.Keys
            && t'.commands[id] == if HoldsLease(t, c) && id == c.commandId
                                  then SettledRow(t.commands[id], how, now, appNow) else t.commands[id]
  {
  }

  lemma SettleKeepsTickets(s: System, i: nat, how: Settlement, appNow: int)
    requires TicketsOk(s) && i < |s.tickets| && Outstanding(s.tickets[i])
    ensures TicketsOk(SettleState(s, i, how, appNow))
  {
    var s' := SettleState(s, i, how, appNow);
    var c := s.tickets[i].command;
    SettleEvolves(s.tables, c, how, s.now, appNow);
    forall k | 0 <= k < |s'.tickets| ensures TicketOk(s', s'.tickets[k]) {
      SettleKeepsTicket(s, s', i, how, appNow, k);
    }
  }

  lemma SettleKeepsTicket(s: System, s': System, i: nat, how: Settlement, appNow: int, k: nat)
    requires TicketsOk(s) && i < |s.tickets| && Outstanding(s.tickets[i]) && k < |s.tickets|
    requires s' == SettleState(s, i, how, appNow)
    requires RunsEvolve(s.tables, s'.tables)
    ensures TicketOk(s', s'.tickets[k])
  {
    var c := s.tickets[i].command;
    var t := s.tickets[k];
    assert TicketOk(s, t) && TicketOk(s, s.tickets[i]);
    SettleCommandAt(s.tables, c, how, s.now, appNow, t.command.commandId);
    if t.command.commandId != c.commandId || !HoldsLease(s.tables, c) {
      CarryTicket(s, s', t);
    } else {
      assert RunEvolves(s.tables.runs[t.command.runId], s'.tables.runs[t.command.runId]);
      assert k != i ==> t.command.leaseToken != c.leaseToken;
    }
  }

  lemma ClaimKeepsTickets(s: System, s': System, worker: string, lease: nat, ids: seq<string>)
    requires Keyed(s.tables) && TalliesOk(s) && TicketsOk(s)
    requires forall i :: 0 <= i < |ids| ==> Eligible(s.tables, ids[i], s.now)
    requires s' == ClaimState(s, worker, lease, ids)
    ensures forall k :: 0 <= k < |s'.tickets| ==> TicketOk(s', s'.tickets[k])
  {
    forall k | 0 <= k < |s'.tickets| ensures TicketOk(s', s'.tickets[k]) {
      ClaimKeepsTicket(s, s', worker, lease, ids, k);
    }
  }

  lemma ClaimKeepsTicket(s: System, s': System, worker: string, lease: nat, ids: seq<string>, k: nat)
    requires Keyed(s.tables) && TalliesOk(s) && TicketsOk(s)
    requires forall i :: 0 <= i < |ids| ==> Eligible(s.tables, ids[i], s.now)
    requires s' == ClaimState(s, worker, lease, ids)
    requires k < |s'.tickets|
    ensures TicketOk(s', s'.tickets[k])
  {
    if k < |s.tickets| {
      ClaimKeepsOldTicket(s, s', worker, lease, ids, s.tickets[k]);
    } else {
      ClaimMakesTicket(s, s', worker, lease, ids, k - |s.tickets|);
    }
  }

  lemma ClaimTokensIncrease(s: System, worker: string, lease: nat, ids: seq<string>)
    requires Keyed(s.tables) && TalliesOk(s) && TicketsOk(s)
    requires forall i :: 0 <= i < |ids| ==> Eligible(s.tables, ids[i], s.now)
    requires forall i, j :: 0 <= i < j < |ids| ==> ids[i] != ids[j]
    ensures TokensIncrease(ClaimState(s, worker, lease, ids).tickets)
  {
    var s' := ClaimState(s, worker, lease, ids);
    var n := |s.tickets|;
    forall i, j | 0 <= i < j < |s'.tickets| && s'.tickets[i].command.commandId == s'.tickets[j].command.commandId
      ensures s'.tickets[i].command.leaseToken < s'.tickets[j].command.leaseToken
    {
      if n <= j {
        ClaimMakesTicket(s, s', worker, lease, ids, j - n);
        if i < n {
          assert TicketOk(s, s.tickets[i]);
        } else {
          assert false;
        }
      }
    }
  }

  lemma ClaimKeepsOldTicket(s: System, s': System, worker: string, lease: nat, ids: seq<string>, t: Ticket)
    requires forall i :: 0 <= i < |ids| ==> Eligible(s.tables, ids[i], s.now)
    requires s' == ClaimState(s, worker, lease, ids)
    requires TicketOk(s, t)
    ensures TicketOk(s', t)
  {
    var id := t.command.commandId;
    if id in ids {
      assert Eligible(s.tables, id, s.now);
      assert s'.tables.commands[id] == ClaimedRow(s.tables.commands[id], s.now, worker, lease);
    }
  }

  lemma ClaimMakesTicket(s: System, s': System, worker: string, lease: nat, ids: seq<string>, k: nat)
    requires Keyed(s.tables) && TalliesOk(s)
    requires forall i :: 0 <= i < |ids| ==> Eligible(s.tables, ids[i], s.now)
    requires s' == ClaimState(s, worker, lease, ids)
    requires k < |ids|
    ensures TicketOk(s', s'.tickets[|s.tickets| + k])
    ensures s'.tickets[|s.tickets| + k].command.commandId == ids[k]
    ensures s'.tickets[|s.tickets| + k].command.leaseToken == s.tables.commands[ids[k]].leaseToken + 1
  {
    var c := s.tables.commands[ids[k]];
    assert Eligible(s.tables, ids[k], s.now);
    assert Accounted(c, s.tallies[ids[k]], s.tables.runs[c.runId].maxAttempts);
    assert s'.tables.commands[ids[k]] == ClaimedRow(c, s.now, worker, lease);
  }

  lemma CrashKeepsTickets(s: System, i: nat)
    requires TicketsOk(s) && i < |s.tickets| && Outstanding(s.tickets[i])
    ensures TicketsOk(s.(tickets := s.tickets[i := s.tickets[i].(phase := Crashed)]))
  {
    var s' := s.(tickets := s.tickets[i := s.tickets[i].(phase := Crashed)]);
    forall k | 0 <= k < |s'.tickets| ensures TicketOk(s', s'.tickets[k]) {
      assert TicketOk(s, s.tickets[k]);
    }
  }

  /** Steps that touch neither an existing command nor a ticket. */
  predicate Quiet(step: Step) {
    step.Tick? || step.EnqueueRun? || step.EnqueueCommand? || step.ListRunning? || step.Reconcile?
  }

  lemma QuietKeepsTickets(s: System, step: Step)
    requires TicketsOk(s) && Enabled(s, step) && Quiet(step)
    ensures TicketsOk(Next(s, step))
  {
    StepEvolvesTables(s, step);
    if step.EnqueueRun? {
      EnqueueExtends(s.tables, step.run, step.appNow);
    }
    CarryTickets(s, Next(s, step));
  }

  lemma StepKeepsTickets(s: System, step: Step)
    requires Inv(s) && Enabled(s, step)
    ensures TicketsOk(Next(s, step))
  {
    if Quiet(step) {
      QuietKeepsTickets(s, step);
    } else {
      match step
      case Claim(_, worker, lease, _, ids) =>
        ClaimKeepsTickets(s, Next(s, step), worker, lease, ids);
        ClaimTokensIncrease(s, worker, lease, ids);
      case Execute(i, marked, ok, appNow) => ExecuteKeepsTickets(s, i, marked, ok, appNow);
      case SettleTicket(i, how, _, appNow) => SettleKeepsTickets(s, i, how, appNow);
      case Crash(i) => CrashKeepsTickets(s, i);
    }
  }

  // ------------------------------------------------------------------- tallies

  ghost predicate TallyOk(s: System, id: string)
    requires id in s.tables.commands && id in s.tallies
  {
    var c := s.tables.commands[id];
    c.runId in s.tables.runs ==> Accounted(c, s.tallies[id], s.tables.runs[c.runId].maxAttempts)
  }

  /** A command that the step leaves alone, tally included. */
  lemma CarryTally(s: System, s': System, id: string)
    requires Keyed(s.tables) && TalliesOk(s) && RunsEvolve(s.tables, s'.tables)
    requires id in s.tables.commands && id in s'.tables.commands && id in s'.tallies
    requires s'.tables.commands[id] == s.tables.commands[id] && s'.tallies[id] == s.tallies[id]
    ensures TallyOk(s', id)
  {
    var c := s.tables.commands[id];
    assert RunEvolves(s.tables.runs[c.runId], s'.tables.runs[c.runId]);
  }

  lemma ClaimKeepsTallies(s: System, worker: string, lease: nat, ids: seq<string>)
    requires Keyed(s.tables) && Leases(s.tables) && TalliesOk(s)
    requires forall i :: 0 <= i < |ids| ==> Eligible(s.tables, ids[i], s.now)
    ensures TalliesOk(ClaimState(s, worker, lease, ids))
  {
    var s' := ClaimState(s, worker, lease, ids);
    forall id | id in s'.tables.commands ensures TallyOk(s', id) {
      if id in ids {
        assert Eligible(s.tables, id, s.now);
        assert TallyOk(s, id);
        assert s'.tables.commands[id] == ClaimedRow(s.tables.commands[id], s.now, worker, lease);
      } else {
        CarryTally(s, s', id);
      }
    }
  }

  /** A retry that wins the fence was decided on the attempts the row still has. */
  lemma SettleKeepsKeys(s: System, i: nat, how: Settlement, appNow: int)
    requires i < |s.tickets| && s.tallies.Keys == s.tables.commands.Keys
    ensures var s' := SettleState(s, i, how, appNow);
            s'.tables.commands.Keys == s.tables.commands.Keys == s'.tallies.Keys
  {
  }

  lemma SettleKeepsTallies(s: System, i: nat, how: Settlement, cap: Option<Number>, appNow: int)
    requires Keyed(s.tables) && TalliesOk(s) && i < |s.tickets| && Decides(s.tickets[i], how, cap)
    requires TicketOk(s, s.tickets[i])
    ensures TalliesOk(SettleState(s, i, how, appNow))
  {
    var s' := SettleState(s, i, how, appNow);
    var c := s.tickets[i].command;
    SettleEvolves(s.tables, c, how, s.now, appNow);
    SettleKeepsKeys(s, i, how, appNow);
    forall id | id in s'.tables.commands ensures TallyOk(s', id) {
      SettleCommandAt(s.tables, c, how, s.now, appNow, id);
      SettleKeepsTally(s, s', i, how, cap, appNow, id);
    }
  }

  lemma SettleKeepsTally(s: System, s': System, i: nat, how: Settlement, cap: Option<Number>, appNow: int, id: string)
    requires Keyed(s.tables) && TalliesOk(s) && i < |s.tickets| && Decides(s.tickets[i], how, cap)
    requires TicketOk(s, s.tickets[i]) && s' == SettleState(s, i, how, appNow)
    requires RunsEvolve(s.tables, s'.tables) && s'.tables.commands.Keys == s.tables.commands.Keys == s'.tallies.Keys
    requires id in s.tables.commands
    requires var c := s.tickets[i].command;
             s'.tables.commands[id] == if HoldsLease(s.tables, c) && id == c.commandId
                                       then SettledRow(s.tables.commands[id], how, s.now, appNow) else s.tables.commands[id]
    ensures TallyOk(s', id)
  {
    var c := s.tickets[i].command;
    if HoldsLease(s.tables, c) && id == c.commandId {
      assert TallyOk(s, id);
      assert RunEvolves(s.tables.runs[c.runId], s'.tables.runs[c.runId]);
    } else {
      CarryTally(s, s', id);
    }
  }

  lemma ExtendKeepsTallies(s: System, t: Tables)
    requires Keyed(s.tables) && TalliesOk(s) && Extends(s.tables, t)
    requires forall id :: id in t.commands && id !in s.tables.commands ==>
               t.commands[id].status.Queued? && t.commands[id].attempts == t.commands[id].leaseToken == 0
    ensures TalliesOk(Retabled(s, t))
  {
    var s' := Retabled(s, t);
    ExtendsEvolves(s.tables, t);
    forall id | id in s'.tables.commands ensures TallyOk(s', id) {
      if id in s.tables.commands {
        CarryTally(s, s', id);
      }
    }
  }

  lemma CarryTallies(s: System, s': System)
    requires Keyed(s.tables) && TalliesOk(s) && RunsEvolve(s.tables, s'.tables)
    requires s'.tables.commands == s.tables.commands && s'.tallies == s.tallies
    ensures TalliesOk(s')
  {
    forall id | id in s'.tables.commands ensures TallyOk(s', id) {
      CarryTally(s, s', id);
    }
  }

  lemma EnqueueKeepsTallies(s: System, step: Step)
    requires Keyed(s.tables) && TalliesOk(s) && (step.EnqueueRun? || step.EnqueueCommand?)
    ensures TalliesOk(Next(s, step))
  {
    match step
    case EnqueueRun(req, appNow) =>
      EnqueueExtends(s.tables, req, appNow);
      ExtendKeepsTallies(s, Enqueue(s.tables, req, appNow).0);
    case EnqueueCommand(req, appNow) =>
      ExtendKeepsTallies(s, InsertCommand(s.tables, req, appNow).0);
  }

  /** Steps that neither claim, settle nor enqueue. */
  predicate LeavesCommands(step: Step) {
    !step.EnqueueRun? && !step.EnqueueCommand? && !step.Claim? && !step.SettleTicket?
  }

  lemma OtherStepsLeaveCommands(s: System, step: Step, s': System)
    requires Enabled(s, step) && LeavesCommands(step) && s' == Next(s, step)
    ensures s'.tables.commands == s.tables.commands && s'.tallies == s.tallies
  {
  }

  lemma OtherStepsKeepTallies(s: System, step: Step, s': System)
    requires Keyed(s.tables) && TalliesOk(s) && RunsEvolve(s.tables, s'.tables)
    requires Enabled(s, step) && LeavesCommands(step) && s' == Next(s, step)
    ensures TalliesOk(s')
  {
    OtherStepsLeaveCommands(s, step, s');
    CarryTallies(s, s');
  }

  lemma StepKeepsTallies(s: System, step: Step)
    requires Inv(s) && Enabled(s, step)
    ensures TalliesOk(Next(s, step))
  {
    if step.EnqueueRun? || step.EnqueueCommand? {
      EnqueueKeepsTallies(s, step);
    } else if step.Claim? {
      ClaimKeepsTallies(s, step.worker, step.lease, step.ids);
    } else if step.SettleTicket? {
      SettleKeepsTallies(s, step.ticket, step.how, step.cap, step.appNow);
    } else {
      StepEvolvesTables(s, step);
      OtherStepsKeepTallies(s, step, Next(s, step));
    }
  }

  // -------------------------------------------------------------------- tables

  lemma StepKeepsTables(s: System, step: Step)
    requires Inv(s) && Enabled(s, step)
    ensures TablesOk(Next(s, step).tables)
  {
    match step
    case EnqueueRun(req, appNow) => EnqueueKeepsTables(s.tables, req, appNow);
    case EnqueueCommand(req, appNow) => InsertCommandKeepsTables(s.tables, req, appNow);
    case Claim(_, worker, lease, _, ids) => ClaimKeepsTables(s.tables, ids, s.now, worker, lease);
    case Execute(i, _, _, appNow) =>
      var c := s.tickets[i].command;
      MarkKeepsTables(s.tables, c.runId, MarkFor(c.kind), None, None, s.now, appNow);
    case SettleTicket(i, how, _, appNow) =>
      assert TicketOk(s, s.tickets[i]);
      SettleKeepsTables(s.tables, s.tickets[i].command, how, s.now, appNow);
    case Reconcile(id, Completed(value), appNow) =>
      assert LifecycleOk(s.tables.runs[id]);
      MarkKeepsTables(s.tables, id, RunStatus.Succeeded, Some(value), None, s.now, appNow);
    case Reconcile(id, Broken(error), appNow) =>
      MarkKeepsTables(s.tables, id, RunStatus.Failed, None, Some(error), s.now, appNow);
    case _ =>
  }

  lemma StepKeepsListed(s: System, step: Step)
    requires Inv(s) && Enabled(s, step)
    ensures ListedOk(Next(s, step))
  {
    StepEvolves(s, step);
    var s' := Next(s, step);
    forall id | id in s'.listed ensures id in s'.tables.runs && !s'.tables.runs[id].status.Pending? {
      assert RunEvolves(s.tables.runs[id], s'.tables.runs[id]);
    }
  }

  lemma StepKeepsInv(s: System, step: Step)
    requires Inv(s) && Enabled(s, step)
    ensures Inv(Next(s, step))
  {
    StepKeepsTables(s, step);
    StepKeepsTickets(s, step);
    StepKeepsTallies(s, step);
    StepKeepsListed(s, step);
  }
}
