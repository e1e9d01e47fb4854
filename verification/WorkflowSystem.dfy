/**
 The workflow engine as a state machine: the two tables, the database clock, one ticket
 for every command ever handed to a dispatch worker, and the runs a reconciler has seen
 running. Every SQL statement or transaction is one step; the steps of any number of
 enqueuers, workers and reconcilers interleave freely, and a worker can vanish between
 any two of them.
 */
module WorkflowSystem {
  import opened Wrappers
  import opened JsNumbers
  import opened JsonValues
  import opened WorkflowTables

  /**
   Where a worker is with a claimed command: it is executing it, the execution has
   succeeded or failed, the settlement statement has run (and won the fence or not), or
   the worker is gone.
   */
  datatype Phase = Executing | Succeeded | Errored | Settled(won: bool) | Crashed

  datatype Ticket = Ticket(command: ClaimedCommand, leaseUntil: int, phase: Phase)

  /** Per command: successful retries, and claims that took over an expired lease. */
  datatype Tally = Tally(retries: int, reclaims: int)

  datatype System = System(
    tables: Tables,
    now: int,
    tickets: seq<Ticket>,
    tallies: map<string, Tally>,
    listed: set<string>)

  datatype Outcome = Completed(value: Value) | Broken(error: Value)

  datatype Step =
    | Tick(to: int)
    | EnqueueRun(run: EnqueueRequest, appNow: int)
    | EnqueueCommand(command: CommandRequest, appNow: int)
    | Claim(limit: Number, worker: string, lease: nat, locked: set<string>, ids: seq<string>)
    | Execute(ticket: nat, marked: bool, ok: bool, appNow: int)
    | SettleTicket(ticket: nat, how: Settlement, cap: Option<Number>, appNow: int)
    | Crash(ticket: nat)
    | ListRunning(page: set<string>)
    | Reconcile(runId: string, outcome: Outcome, appNow: int)

  predicate Outstanding(t: Ticket) {
    t.phase.Executing? || t.phase.Succeeded? || t.phase.Errored?
  }

  /** A ticket that has not settled: its worker is at work, or has crashed. */
  predicate Unsettled(t: Ticket) {
    !t.phase.Settled?
  }

  /** The status the runtime writes once the engine has accepted a command. */
  function MarkFor(kind: CommandKind): RunStatus {
    if kind.Cancel? then RunStatus.Cancelled else RunStatus.Running
  }

  /** The attempt limit of a worker: its own option can only lower the limit of the run. */
  function AttemptLimit(c: ClaimedCommand, cap: Option<Number>): int {
    match cap
    case Some(number) =>
      var own := AtLeastOne(number, c.maxAttempts);
      if own < c.maxAttempts then own else c.maxAttempts
    case None => c.maxAttempts
  }

  /** Deliver after a success; after a failure retry below the attempt limit, else give up. */
  predicate Decides(t: Ticket, how: Settlement, cap: Option<Number>) {
    match how
    case Deliver => t.phase.Succeeded?
    case RetryAfter(_, _) => t.phase.Errored? && t.command.attempts < AttemptLimit(t.command, cap)
    case GiveUp(_) => t.phase.Errored? && t.command.attempts >= AttemptLimit(t.command, cap)
  }

  ghost predicate Enabled(s: System, step: Step) {
    match step
    case Tick(to) => s.now <= to
    case EnqueueRun(_, _) => true
    case EnqueueCommand(_, _) => true
    case Claim(limit, _, _, locked, ids) =>
      ClaimSelects(s.tables, s.now, NormalizeSqlLimit(limit), locked, ids)
    case Execute(i, marked, ok, _) =>
      i < |s.tickets| && s.tickets[i].phase.Executing? && (ok ==> marked)
    case SettleTicket(i, how, cap, _) =>
      i < |s.tickets| && Decides(s.tickets[i], how, cap)
    case Crash(i) => i < |s.tickets| && Outstanding(s.tickets[i])
    case ListRunning(page) =>
      forall id :: id in page ==> id in s.tables.runs && s.tables.runs[id].status.Running?
    case Reconcile(id, _, _) => id in s.listed
  }

  function NewTickets(t: Tables, ids: seq<string>, until: int, worker: string): (tickets: seq<Ticket>)
    requires forall i :: 0 <= i < |ids| ==> ids[i] in t.commands && t.commands[ids[i]].runId in t.runs
    ensures |tickets| == |ids|
  {
    seq(|ids|, i requires 0 <= i < |ids| =>
          var c := t.commands[ids[i]];
          Ticket(Joined(t.runs[c.runId], c, worker), until, Executing))
  }

  /** A claimed command that was still leased is a reclaim. */
  function TallyClaims(tallies: map<string, Tally>, t: Tables, ids: seq<string>): map<string, Tally> {
    map id | id in tallies ::
      if id in ids && id in t.commands && t.commands[id].status.Delivering?
      then tallies[id].(reclaims := tallies[id].reclaims + 1)
      else tallies[id]
  }

  function ClaimState(s: System, worker: string, lease: nat, ids: seq<string>): System
    requires forall i :: 0 <= i < |ids| ==> Eligible(s.tables, ids[i], s.now)
  {
    var t := ClaimRows(s.tables, ids, s.now, worker, lease);
    assert forall i :: 0 <= i < |ids| ==> Eligible(s.tables, ids[i], s.now) && ids[i] in t.commands;
    s.(tables := t,
       tickets := s.tickets + NewTickets(t, ids, s.now + lease, worker),
       tallies := TallyClaims(s.tallies, s.tables, ids))
  }

  function ExecuteState(s: System, i: nat, marked: bool, ok: bool, appNow: int): System
    requires i < |s.tickets|
  {
    var c := s.tickets[i].command;
    s.(tables := if marked then MarkRun(s.tables, c.runId, MarkFor(c.kind), None, None, s.now, appNow) else s.tables,
       tickets := s.tickets[i := s.tickets[i].(phase := if ok then Phase.Succeeded else Errored)])
  }

  function SettleState(s: System, i: nat, how: Settlement, appNow: int): System
    requires i < |s.tickets|
  {
    var c := s.tickets[i].command;
    var (t, won) := Settle(s.tables, c, how, s.now, appNow);
    s.(tables := t,
       tickets := s.tickets[i := s.tickets[i].(phase := Settled(won))],
       tallies := if won && how.RetryAfter? && c.commandId in s.tallies
                  then s.tallies[c.commandId := s.tallies[c.commandId].(retries := s.tallies[c.commandId].retries + 1)]
                  else s.tallies)
  }

  function ReconcileState(s: System, runId: string, outcome: Outcome, appNow: int): System {
    s.(tables := match outcome
                 case Completed(value) => MarkRun(s.tables, runId, RunStatus.Succeeded, Some(value), None, s.now, appNow)
                 case Broken(error) => MarkRun(s.tables, runId, RunStatus.Failed, None, Some(error), s.now, appNow))
  }

  /** New commands start with an empty tally. */
  function TallyNew(tallies: map<string, Tally>, t: Tables): map<string, Tally> {
    map id | id in t.commands :: if id in tallies then tallies[id] else Tally(0, 0)
  }

  function Retabled(s: System, t: Tables): System {
    s.(tables := t, tallies := TallyNew(s.tallies, t))
  }

  ghost function Next(s: System, step: Step): System
    requires Enabled(s, step)
  {
    match step
    case Tick(to) => s.(now := to)
    case EnqueueRun(req, appNow) => Retabled(s, Enqueue(s.tables, req, appNow).0)
    case EnqueueCommand(req, appNow) => Retabled(s, InsertCommand(s.tables, req, appNow).0)
    case Claim(_, worker, lease, _, ids) => ClaimState(s, worker, lease, ids)
    case Execute(i, marked, ok, appNow) => ExecuteState(s, i, marked, ok, appNow)
    case SettleTicket(i, how, _, appNow) => SettleState(s, i, how, appNow)
    case Crash(i) => s.(tickets := s.tickets[i := s.tickets[i].(phase := Crashed)])
    case ListRunning(page) => s.(listed := s.listed + page)
    case Reconcile(id, outcome, appNow) => ReconcileState(s, id, outcome, appNow)
  }

  ghost predicate Initial(s: System) {
    s.tables == Tables(map[], map[]) && s.tickets == [] && s.tallies == map[] && s.listed == {}
  }

  ghost predicate StepAt(states: seq<System>, steps: seq<Step>, k: nat)
    requires k < |steps| && |states| == |steps| + 1
  {
    Enabled(states[k], steps[k]) && states[k + 1] == Next(states[k], steps[k])
  }

  /** An interleaving: `states[k + 1]` follows from `states[k]` by `steps[k]`. */
  ghost predicate Trace(states: seq<System>, steps: seq<Step>) {
    |states| == |steps| + 1 && forall k: nat :: k < |steps| ==> StepAt(states, steps, k)
  }

  ghost predicate TraceFromStart(states: seq<System>, steps: seq<Step>) {
    Trace(states, steps) && Initial(states[0])
  }

  // ----------------------------------------------------------------- evolution

  function Rank(status: RunStatus): nat {
    if status.Pending? then 0 else if status.Running? then 1 else 2
  }

  /** Identity is fixed, the status only moves forward and a terminal row is frozen. */
  predicate RunEvolves(a: Run, b: Run) {
    && b == a.(status := b.status, result := b.result, error := b.error,
               startedAt := b.startedAt, completedAt := b.completedAt, updatedAt := b.updatedAt)
    && Rank(a.status) <= Rank(b.status)
    && (a.startedAt.Some? ==> b.startedAt == a.startedAt)
    && (Terminal(a.status) ==> a == b)
  }

  /**
   Identity is fixed, the fencing token never falls, and a row is frozen once it is
   delivered or failed, or while its token stays the same and nobody holds a lease.
   */
  predicate CommandEvolves(a: Command, b: Command) {
    && b == a.(status := b.status, attempts := b.attempts, availableAt := b.availableAt,
               leaseOwner := b.leaseOwner, leaseToken := b.leaseToken, leaseUntil := b.leaseUntil,
               deliveredAt := b.deliveredAt, lastError := b.lastError, updatedAt := b.updatedAt)
    && a.leaseToken <= b.leaseToken
    && (a.status.Delivered? || a.status.Abandoned? ==> a == b)
    && (a.leaseToken == b.leaseToken && !a.status.Delivering? ==> a == b)
  }

  ghost predicate RunsEvolve(t: Tables, t': Tables) {
    forall id :: id in t.runs ==> id in t'.runs && RunEvolves(t.runs[id], t'.runs[id])
  }

  ghost predicate CommandsEvolve(t: Tables, t': Tables) {
    forall id :: id in t.commands ==> id in t'.commands && CommandEvolves(t.commands[id], t'.commands[id])
  }

  /** A ticket keeps its command, and a settled or lost one keeps its phase. */
  predicate TicketEvolves(a: Ticket, b: Ticket) {
    a.command == b.command && a.leaseUntil == b.leaseUntil && (Outstanding(a) || a == b)
  }

  ghost predicate Evolves(s: System, s': System) {
    && s.now <= s'.now
    && RunsEvolve(s.tables, s'.tables)
    && CommandsEvolve(s.tables, s'.tables)
    && |s.tickets| <= |s'.tickets|
    && (forall i :: 0 <= i < |s.tickets| ==> TicketEvolves(s.tickets[i], s'.tickets[i]))
  }

  // ----------------------------------------------------------------- invariant

  /** Rows sit under their primary keys, and a command belongs to a run. */
  ghost predicate Keyed(t: Tables) {
    && (forall id :: id in t.runs ==> t.runs[id].runId == id)
    && (forall id :: id in t.commands ==> t.commands[id].commandId == id && t.commands[id].runId in t.runs)
  }

  /** At most one run for a workflow name and idempotency key. */
  ghost predicate UniqueKeys(t: Tables) {
    forall a, b :: a in t.runs && b in t.runs && SameKey(t.runs[a], t.runs[b]) ==> a == b
  }

  predicate HasStart(t: Tables, runId: string)
    requires runId in t.runs
  {
    StartCommandId(runId) in t.commands &&
    var c := t.commands[StartCommandId(runId)];
    c.runId == runId && c.kind == Start && c.payload == t.runs[runId].input
  }

  ghost predicate Started(t: Tables) {
    forall id :: id in t.runs ==> HasStart(t, id)
  }

  predicate LifecycleOk(run: Run) {
    && (run.completedAt.Some? <==> Terminal(run.status))
    && (run.status.Running? || run.status.Succeeded? ==> run.startedAt.Some?)
  }

  ghost predicate Lifecycles(t: Tables) {
    forall id :: id in t.runs ==> LifecycleOk(t.runs[id])
  }

  /** The lease columns are set exactly while a command is being delivered. */
  predicate LeaseOk(c: Command) {
    && (c.leaseOwner.Some? <==> c.status.Delivering?)
    && (c.leaseUntil.Some? <==> c.status.Delivering?)
    && !c.status.Withdrawn?
  }

  ghost predicate Leases(t: Tables) {
    forall id :: id in t.commands ==> LeaseOk(t.commands[id])
  }

  /** What a command's status says about the status of its run. */
  predicate Agrees(c: Command, run: Run) {
    && (c.status.Delivered? ==> !run.status.Pending?)
    && (c.status.Delivered? && c.kind.Cancel? ==> Terminal(run.status))
    && (c.status.Abandoned? ==> Terminal(run.status))
  }

  ghost predicate CrossTable(t: Tables) {
    forall id :: id in t.commands && t.commands[id].runId in t.runs ==> Agrees(t.commands[id], t.runs[t.commands[id].runId])
  }

  ghost predicate TablesOk(t: Tables) {
    Keyed(t) && UniqueKeys(t) && Started(t) && Lifecycles(t) && Leases(t) && CrossTable(t)
  }

  function Claims(c: Command): int {
    if c.status.Queued? then 0 else 1
  }

  /** Attempts, the fencing token and the tallies of one command agree. */
  predicate Accounted(c: Command, n: Tally, maxAttempts: int) {
    && n.retries >= 0 && n.reclaims >= 0
    && c.attempts == c.leaseToken
    && c.attempts == n.retries + n.reclaims + Claims(c)
    && n.retries <= (if maxAttempts >= 1 then maxAttempts - 1 else 0)
  }

  ghost predicate TalliesOk(s: System) {
    && s.tallies.Keys == s.tables.commands.Keys
    && forall id :: id in s.tables.commands && s.tables.commands[id].runId in s.tables.runs ==>
         Accounted(s.tables.commands[id], s.tallies[id], s.tables.runs[s.tables.commands[id].runId].maxAttempts)
  }

  /** A ticket against the row it was claimed from. */
  predicate TicketOk(s: System, t: Ticket) {
    var c := t.command;
    c.commandId in s.tables.commands && c.runId in s.tables.runs &&
    var row := s.tables.commands[c.commandId];
    var run := s.tables.runs[c.runId];
    && row.runId == c.runId && row.kind == c.kind && row.payload == c.payload
    && run.workflowName == c.workflowName && run.definitionVersion == c.definitionVersion
    && run.executionId == c.executionId && run.maxAttempts == c.maxAttempts
    && 1 <= c.leaseToken <= row.leaseToken
    && c.attempts == c.leaseToken
    && (t.phase.Succeeded? ==> !run.status.Pending? && (c.kind.Cancel? ==> Terminal(run.status)))
    // while it holds the latest token, an unsettled ticket is the lease in the row
    && (Unsettled(t) && c.leaseToken == row.leaseToken ==>
          row.status.Delivering? && row.leaseOwner == Some(c.leaseOwner) && row.leaseUntil == Some(t.leaseUntil))
    // an unsettled ticket whose lease has not expired holds the latest token
    && (Unsettled(t) && s.now < t.leaseUntil ==> c.leaseToken == row.leaseToken)
    && (t.phase.Settled? && c.leaseToken == row.leaseToken && t.phase.won ==> !row.status.Delivering?)
  }

  /** Tickets of one command carry strictly increasing tokens. */
  predicate TokensIncrease(tickets: seq<Ticket>) {
    forall i, j :: 0 <= i < j < |tickets| && tickets[i].command.commandId == tickets[j].command.commandId ==>
      tickets[i].command.leaseToken < tickets[j].command.leaseToken
  }

  predicate TicketsOk(s: System) {
    && (forall i :: 0 <= i < |s.tickets| ==> TicketOk(s, s.tickets[i]))
    && TokensIncrease(s.tickets)
  }

  ghost predicate ListedOk(s: System) {
    forall id :: id in s.listed ==> id in s.tables.runs && !s.tables.runs[id].status.Pending?
  }

  ghost predicate Inv(s: System) {
    TablesOk(s.tables) && TalliesOk(s) && TicketsOk(s) && ListedOk(s)
  }
}
