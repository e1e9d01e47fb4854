/**
 The dispatcher: claim a batch, execute every command, and settle it by the outcome. The
 method is proved to be a run of the state machine, so whatever holds of every
 interleaving holds of it.
 */
module WorkflowDispatcher {
  import opened Wrappers
  import opened JsNumbers
  import opened JsonValues
  import opened WorkflowTables
  import opened WorkflowSystem
  import opened WorkflowInvariant
  import opened WorkflowSafety
  import opened WorkflowColumns
  import opened WorkflowCauses
  import opened WorkflowStore
  import opened WorkflowRuntime

  datatype DispatcherOptions = DispatcherOptions(
    workerId: Option<string>,
    batchSize: Option<Number>,
    maxAttempts: Option<Number>)

  /** 25 unless a finite size is given; that is truncated, and raised to one. */
  function BatchSize(options: DispatcherOptions): (n: int)
    ensures n >= 1
    ensures options.batchSize.None? || !options.batchSize.value.Finite? ==> n == 25
    ensures options.batchSize.Some? && options.batchSize.value.Finite? ==>
              var size := options.batchSize.value.value;
              if size < 1.0 then n == 1 else n as real <= size < (n + 1) as real
  {
    match options.batchSize
    case None => 25
    case Some(size) => AtLeastOne(size, 25)
  }

  /** What surrounds the delivery of one command. */
  datatype Surroundings = Surroundings(
    elapsed: nat,
    interrupted: bool,
    reply: Reply,
    /** Whether the settlement statement reaches the database. */
    persists: bool,
    error: Value,
    delay: nat,
    appNow: int)

  /** The settlement a worker chooses. */
  function Choice(c: ClaimedCommand, around: Surroundings, cap: Option<Number>): Settlement {
    if Succeeds(c, around.reply) then Deliver
    else if c.attempts >= AttemptLimit(c, cap) then GiveUp(around.error)
    else RetryAfter(around.delay, around.error)
  }

  function StepsFor(i: nat, c: ClaimedCommand, around: Surroundings, cap: Option<Number>, now: int): seq<Step> {
    if around.interrupted then [Tick(now + around.elapsed), Crash(i)]
    else [Tick(now + around.elapsed),
          Execute(i, Marks(c, around.reply), Succeeds(c, around.reply), around.appNow),
          LastStep(i, c, around, cap)]
  }

  /** `s'` is reached from `s` by a trace with these steps. */
  ghost predicate Leads(s: System, steps: seq<Step>, s': System) {
    exists states :: Trace(states, steps) && states[0] == s && states[|steps|] == s'
  }

  lemma LeadsNowhere(s: System)
    ensures Leads(s, [], s)
  {
    assert Trace([s], []) && [s][0] == s;
  }

  lemma LeadsOne(s: System, step: Step, s': System)
    requires Enabled(s, step) && s' == Next(s, step)
    ensures Leads(s, [step], s')
  {
    var states := [s, s'];
    assert StepAt(states, [step], 0);
    assert Trace(states, [step]) && states[0] == s && states[|[step]|] == s';
  }

  lemma LeadsOn(a: System, xs: seq<Step>, b: System, ys: seq<Step>, c: System)
    requires Leads(a, xs, b) && Leads(b, ys, c)
    ensures Leads(a, xs + ys, c)
  {
    var us :| Trace(us, xs) && us[0] == a && us[|xs|] == b;
    var vs :| Trace(vs, ys) && vs[0] == b && vs[|ys|] == c;
    var states := us + vs[1..];
    TracesJoin(us, xs, vs, ys);
    assert states[0] == a && states[|xs + ys|] == c;
  }

  lemma TracesJoin(us: seq<System>, xs: seq<Step>, vs: seq<System>, ys: seq<Step>)
    requires Trace(us, xs) && Trace(vs, ys) && us[|xs|] == vs[0]
    ensures Trace(us + vs[1..], xs + ys)
  {
    var (states, steps) := (us + vs[1..], xs + ys);
    forall k: nat | k < |steps| ensures StepAt(states, steps, k) {
      if k < |xs| {
        assert StepAt(us, xs, k) && states[k] == us[k] && states[k + 1] == us[k + 1] && steps[k] == xs[k];
      } else {
        var m := k - |xs|;
        assert StepAt(vs, ys, m) && states[k] == vs[m] && states[k + 1] == vs[m + 1] && steps[k] == ys[m];
      }
    }
  }

  lemma LeadsKeepsInv(s: System, steps: seq<Step>, s': System)
    requires Inv(s) && Leads(s, steps, s')
    ensures Inv(s')
  {
    var states :| Trace(states, steps) && states[0] == s && states[|steps|] == s';
    TraceKeepsInv(states, steps, |steps|);
  }

  /** What a row looks like after its command went through a worker nobody superseded. */
  predicate Concluded(row: Command, c: ClaimedCommand, around: Surroundings, cap: Option<Number>) {
    if !around.persists then row.status.Delivering? && row.leaseToken == c.leaseToken
    else if Succeeds(c, around.reply) then row.status.Delivered?
    else
      && row.lastError == Some(around.error)
      && if MayRetry(c.attempts, c.maxAttempts, cap)
         then row.status.Queued? && row.availableAt == around.appNow + around.delay
         else row.status.Abandoned?
  }

  /** The settlement that is chosen, in numbers. */
  lemma ChoiceInNumbers(c: ClaimedCommand, around: Surroundings, cap: Option<Number>)
    ensures Choice(c, around, cap) ==
            if Succeeds(c, around.reply) then Deliver
            else if MayRetry(c.attempts, c.maxAttempts, cap) then RetryAfter(around.delay, around.error)
            else GiveUp(around.error)
  {
    LimitInNumbers(c, cap);
  }

  /** The state after the steps of one command. */
  function DispatchedState(s: System, i: nat, c: ClaimedCommand, around: Surroundings, cap: Option<Number>): System
    requires i < |s.tickets|
  {
    var s1 := s.(now := s.now + around.elapsed);
    if around.interrupted then Crashed(s1, i)
    else
      var s2 := ExecuteState(s1, i, Marks(c, around.reply), Succeeds(c, around.reply), around.appNow);
      if around.persists then SettleState(s2, i, Choice(c, around, cap), around.appNow) else Crashed(s2, i)
  }

  function Crashed(s: System, i: nat): System
    requires i < |s.tickets|
  {
    s.(tickets := s.tickets[i := s.tickets[i].(phase := Phase.Crashed)])
  }

  function LastStep(i: nat, c: ClaimedCommand, around: Surroundings, cap: Option<Number>): Step {
    if around.persists then SettleTicket(i, Choice(c, around, cap), cap, around.appNow) else Crash(i)
  }

  lemma LeadsLast(s: System, i: nat, c: ClaimedCommand, around: Surroundings, cap: Option<Number>)
    requires i < |s.tickets| && s.tickets[i].command == c
    ensures var s' := ExecuteState(s, i, Marks(c, around.reply), Succeeds(c, around.reply), around.appNow);
            Leads(s', [LastStep(i, c, around, cap)],
                  if around.persists then SettleState(s', i, Choice(c, around, cap), around.appNow) else Crashed(s', i))
  {
    var s' := ExecuteState(s, i, Marks(c, around.reply), Succeeds(c, around.reply), around.appNow);
    LeadsOne(s', LastStep(i, c, around, cap),
             if around.persists then SettleState(s', i, Choice(c, around, cap), around.appNow) else Crashed(s', i));
  }

  lemma LeadsExecute(s: System, i: nat, c: ClaimedCommand, around: Surroundings)
    requires i < |s.tickets| && s.tickets[i].phase.Executing?
    ensures Leads(s, [Execute(i, Marks(c, around.reply), Succeeds(c, around.reply), around.appNow)],
                  ExecuteState(s, i, Marks(c, around.reply), Succeeds(c, around.reply), around.appNow))
  {
    LeadsOne(s, Execute(i, Marks(c, around.reply), Succeeds(c, around.reply), around.appNow),
             ExecuteState(s, i, Marks(c, around.reply), Succeeds(c, around.reply), around.appNow));
  }

  lemma LeadsTick(s: System, elapsed: nat)
    ensures Leads(s, [Tick(s.now + elapsed)], s.(now := s.now + elapsed))
  {
    LeadsOne(s, Tick(s.now + elapsed), s.(now := s.now + elapsed));
  }

  lemma LeadsCrash(s: System, i: nat)
    requires i < |s.tickets| && Outstanding(s.tickets[i])
    ensures Leads(s, [Crash(i)], Crashed(s, i))
  {
    LeadsOne(s, Crash(i), Crashed(s, i));
  }

  lemma DispatchLeads(s: System, i: nat, c: ClaimedCommand, around: Surroundings, cap: Option<Number>)
    requires i < |s.tickets| && s.tickets[i].command == c && s.tickets[i].phase.Executing?
    ensures Leads(s, StepsFor(i, c, around, cap, s.now), DispatchedState(s, i, c, around, cap))
  {
    var tick := [Tick(s.now + around.elapsed)];
    var s1 := s.(now := s.now + around.elapsed);
    var s3 := DispatchedState(s, i, c, around, cap);
    LeadsTick(s, around.elapsed);
    if around.interrupted {
      LeadsCrash(s1, i);
      LeadsOn(s, tick, s1, [Crash(i)], s3);
      assert tick + [Crash(i)] == StepsFor(i, c, around, cap, s.now);
    } else {
      var execute := [Execute(i, Marks(c, around.reply), Succeeds(c, around.reply), around.appNow)];
      var s2 := ExecuteState(s1, i, Marks(c, around.reply), Succeeds(c, around.reply), around.appNow);
      LeadsExecute(s1, i, c, around);
      LeadsLast(s1, i, c, around, cap);
      LeadsOn(s, tick, s1, execute, s2);
      LeadsOn(s, tick + execute, s2, [LastStep(i, c, around, cap)], s3);
      assert tick + execute + [LastStep(i, c, around, cap)] == StepsFor(i, c, around, cap, s.now);
    }
  }

  /** A worker that holds the lease settles its own command and no other. */
  lemma DispatchConcludes(s: System, i: nat, c: ClaimedCommand, around: Surroundings, cap: Option<Number>)
    requires i < |s.tickets| && s.tickets[i].command == c && HoldsLease(s.tables, c)
    ensures var s' := DispatchedState(s, i, c, around, cap);
            && s'.tables.commands.Keys == s.tables.commands.Keys
            && (forall id :: id in s.tables.commands && id != c.commandId ==> s'.tables.commands[id] == s.tables.commands[id])
            && (!around.interrupted ==> Concluded(s'.tables.commands[c.commandId], c, around, cap))
            && |s'.tickets| == |s.tickets|
            && (forall k :: 0 <= k < |s.tickets| && k != i ==> s'.tickets[k] == s.tickets[k])
            && s'.tickets[i].command == c
            && s'.tickets[i].phase == if !around.interrupted && around.persists then Settled(true) else Phase.Crashed
  {
    ChoiceInNumbers(c, around, cap);
  }

  /** The run after its command went through a worker that holds the lease: marked, failed, both or neither. */
  predicate RunConcluded(run: Run, run': Run, c: ClaimedCommand, around: Surroundings, cap: Option<Number>) {
    var marked := !around.interrupted && Marks(c, around.reply) && !IsOver(run);
    var over := IsOver(run) || (marked && c.kind == Cancel);
    var fails := !around.interrupted && around.persists && !Succeeds(c, around.reply) && !MayRetry(c.attempts, c.maxAttempts, cap);
    && SameRequest(run, run') && run'.result == run.result
    && run'.status == (if fails && !over then RunStatus.Failed
                       else if marked then (if c.kind == Cancel then RunStatus.Cancelled else RunStatus.Running)
                       else run.status)
    && run'.error == (if fails && !over then Some(around.error) else run.error)
  }

  /** The run's row after the marking, and after giving up. */
  lemma RunRowConcludes(run: Run, run1: Run, run2: Run, c: ClaimedCommand, around: Surroundings, cap: Option<Number>, t1: int, t2: int)
    requires !around.interrupted
    requires if Marks(c, around.reply) && !IsOver(run)
             then IsMarked(run, run1, if c.kind == Cancel then RunStatus.Cancelled else RunStatus.Running, None, None, t1, around.appNow)
             else run1 == run
    requires if around.persists && !Succeeds(c, around.reply) && !MayRetry(c.attempts, c.maxAttempts, cap) && !IsOver(run1)
             then IsMarked(run1, run2, RunStatus.Failed, None, Some(around.error), t2, around.appNow)
             else run2 == run1
    ensures RunConcluded(run, run2, c, around, cap)
  {
  }

  lemma RunsConclude(runs: map<string, Run>, runs1: map<string, Run>, runs2: map<string, Run>,
                     c: ClaimedCommand, around: Surroundings, cap: Option<Number>, t1: int, t2: int)
    requires !around.interrupted && c.runId in runs
    requires if Marks(c, around.reply)
             then MarksRun(runs, runs1, c.runId, if c.kind == Cancel then RunStatus.Cancelled else RunStatus.Running, None, None, t1, around.appNow)
             else runs1 == runs
    requires if around.persists && !Succeeds(c, around.reply) && !MayRetry(c.attempts, c.maxAttempts, cap)
             then MarksRun(runs1, runs2, c.runId, RunStatus.Failed, None, Some(around.error), t2, around.appNow)
             else runs2 == runs1
    ensures Changes(runs, runs2, c.runId) && RunConcluded(runs[c.runId], runs2[c.runId], c, around, cap)
  {
    RunRowConcludes(runs[c.runId], runs1[c.runId], runs2[c.runId], c, around, cap, t1, t2);
  }

  lemma ExecutionMarksRun(s: System, i: nat, c: ClaimedCommand, around: Surroundings)
    requires i < |s.tickets| && s.tickets[i].command == c
    ensures var s' := ExecuteState(s, i, Marks(c, around.reply), Succeeds(c, around.reply), around.appNow);
            && s'.tables.commands == s.tables.commands
            && if Marks(c, around.reply)
               then MarksRun(s.tables.runs, s'.tables.runs, c.runId, if c.kind == Cancel then RunStatus.Cancelled else RunStatus.Running,
                             None, None, s.now, around.appNow)
               else s'.tables.runs == s.tables.runs
  {
    MarkRunMarks(s.tables, c.runId, MarkFor(c.kind), None, None, s.now, around.appNow);
  }

  lemma SettlementFailsRun(s: System, i: nat, c: ClaimedCommand, around: Surroundings, cap: Option<Number>)
    requires i < |s.tickets| && s.tickets[i].command == c && HoldsLease(s.tables, c)
    ensures var s' := SettleState(s, i, Choice(c, around, cap), around.appNow);
            if !Succeeds(c, around.reply) && !MayRetry(c.attempts, c.maxAttempts, cap)
            then MarksRun(s.tables.runs, s'.tables.runs, c.runId, RunStatus.Failed, None, Some(around.error), s.now, around.appNow)
            else s'.tables.runs == s.tables.runs
  {
    ChoiceInNumbers(c, around, cap);
    SettleSettles(s.tables, c, Choice(c, around, cap), s.now, around.appNow);
  }

  lemma AfterExecution(s: System, i: nat, c: ClaimedCommand, around: Surroundings, cap: Option<Number>,
                       runs: map<string, Run>, now: int, s': System)
    requires i < |s.tickets| && s.tickets[i].command == c && HoldsLease(s.tables, c)
    requires s' == if around.persists then SettleState(s, i, Choice(c, around, cap), around.appNow) else Crashed(s, i)
    requires !around.interrupted && c.runId in runs
    requires if Marks(c, around.reply)
             then MarksRun(runs, s.tables.runs, c.runId, if c.kind == Cancel then RunStatus.Cancelled else RunStatus.Running, None, None, now, around.appNow)
             else s.tables.runs == runs
    ensures Changes(runs, s'.tables.runs, c.runId) && RunConcluded(runs[c.runId], s'.tables.runs[c.runId], c, around, cap)
  {
    SettlementFailsRun(s, i, c, around, cap);
    RunsConclude(runs, s.tables.runs, s'.tables.runs, c, around, cap, now, s.now);
  }

  /** A worker that holds the lease changes the run of its command and no other. */
  lemma DispatchConcludesRun(s: System, i: nat, c: ClaimedCommand, around: Surroundings, cap: Option<Number>, s': System)
    requires i < |s.tickets| && s.tickets[i].command == c && HoldsLease(s.tables, c) && c.runId in s.tables.runs
    requires s' == DispatchedState(s, i, c, around, cap)
    ensures Changes(s.tables.runs, s'.tables.runs, c.runId)
    ensures RunConcluded(s.tables.runs[c.runId], s'.tables.runs[c.runId], c, around, cap)
  {
    if around.interrupted {
      assert s'.tables == s.tables;
    } else {
      var s1 := s.(now := s.now + around.elapsed);
      var s2 := ExecuteState(s1, i, Marks(c, around.reply), Succeeds(c, around.reply), around.appNow);
      ExecutionMarksRun(s1, i, c, around);
      AfterExecution(s2, i, c, around, cap, s.tables.runs, s1.now, s');
    }
  }

  /** One command of the batch, from its execution to its settlement. */
  method Dispatch(store: Store, c: ClaimedCommand, around: Surroundings, cap: Option<Number>, ghost s: System, ghost i: nat)
    returns (interrupted: bool)
    requires s.tables == store.Contents() && s.now == store.now
    requires i < |s.tickets| && s.tickets[i].command == c
    modifies store`runs, store`commands, store`now
    ensures interrupted == around.interrupted
    ensures store.Contents() == DispatchedState(s, i, c, around, cap).tables
    ensures store.now == DispatchedState(s, i, c, around, cap).now
    ensures HoldsLease(s.tables, c) ==>
              c.commandId in store.commands
              && (!around.interrupted ==> Concluded(store.commands[c.commandId], c, around, cap))
    ensures HoldsLease(s.tables, c) && c.runId in s.tables.runs ==>
              c.runId in store.runs && RunConcluded(s.tables.runs[c.runId], store.runs[c.runId], c, around, cap)
  {
    interrupted := Attempt(store, c, around, cap, s, i);
    if HoldsLease(s.tables, c) {
      DispatchConcludes(s, i, c, around, cap);
      if c.runId in s.tables.runs {
        DispatchConcludesRun(s, i, c, around, cap, DispatchedState(s, i, c, around, cap));
      }
    }
  }

  /** The execution and the settlement, or the interrupt. */
  method Attempt(store: Store, c: ClaimedCommand, around: Surroundings, cap: Option<Number>, ghost s: System, ghost i: nat)
    returns (interrupted: bool)
    requires s.tables == store.Contents() && s.now == store.now
    requires i < |s.tickets| && s.tickets[i].command == c
    modifies store`runs, store`commands, store`now
    ensures interrupted == around.interrupted
    ensures store.Contents() == DispatchedState(s, i, c, around, cap).tables
    ensures store.now == DispatchedState(s, i, c, around, cap).now
  {
    store.Tick(around.elapsed);
    if around.interrupted {
      return true;
    }
    var ok := ExecuteWorkflowCommand(store, c, around.reply, around.appNow);
    if around.persists {
      Settlement(store, c, ok, around, cap);
    }
    interrupted := false;
  }

  /** Deliver, give up or retry. */
  method Settlement(store: Store, c: ClaimedCommand, ok: bool, around: Surroundings, cap: Option<Number>)
    requires ok == Succeeds(c, around.reply)
    modifies store`runs, store`commands
    ensures store.Contents() == Settle(old(store.Contents()), c, Choice(c, around, cap), store.now, around.appNow).0
  {
    var settled;
    if ok {
      settled := store.MarkCommandDelivered(c, around.appNow);
    } else if c.attempts >= AttemptLimit(c, cap) {
      settled := store.FailCommand(c, around.error, around.appNow);
    } else {
      settled := store.RetryCommand(c, around.delay, around.error, around.appNow);
    }
  }

  /** The `k`-th ticket of a batch, when the first `i` commands of the batch are done. */
  predicate Slot(s: System, base: nat, c: ClaimedCommand, i: nat, k: nat, around: Surroundings, cap: Option<Number>) {
    base + k < |s.tickets| && s.tickets[base + k].command == c && c.commandId in s.tables.commands &&
    if i <= k then s.tickets[base + k].phase.Executing? && HoldsLease(s.tables, c)
    else !Outstanding(s.tickets[base + k]) && Concluded(s.tables.commands[c.commandId], c, around, cap)
  }

  /**
   A batch whose first `i` commands are done and whose other commands are still held by
   this worker; `base` counts the tickets handed out before.
   */
  ghost predicate InFlight(s: System, base: nat, claimed: seq<ClaimedCommand>, i: nat, around: ClaimedCommand -> Surroundings, cap: Option<Number>) {
    && |s.tickets| == base + |claimed|
    && (forall j, k :: 0 <= j < k < |claimed| ==> claimed[j].commandId != claimed[k].commandId)
    && (forall k :: 0 <= k < |claimed| ==> Slot(s, base, claimed[k], i, k, around(claimed[k]), cap))
  }

  lemma BatchAdvances(s: System, base: nat, claimed: seq<ClaimedCommand>, i: nat, around: ClaimedCommand -> Surroundings, cap: Option<Number>)
    requires InFlight(s, base, claimed, i, around, cap) && i < |claimed| && !around(claimed[i]).interrupted
    ensures InFlight(DispatchedState(s, base + i, claimed[i], around(claimed[i]), cap), base, claimed, i + 1, around, cap)
  {
    var s' := DispatchedState(s, base + i, claimed[i], around(claimed[i]), cap);
    assert Slot(s, base, claimed[i], i, i, around(claimed[i]), cap);
    forall k | 0 <= k < |claimed| ensures Slot(s', base, claimed[k], i + 1, k, around(claimed[k]), cap) {
      SlotAdvances(s, base, claimed[i], i, around(claimed[i]), claimed[k], k, around(claimed[k]), cap);
    }
    DispatchConcludes(s, base + i, claimed[i], around(claimed[i]), cap);
  }

  lemma SlotAdvances(s: System, base: nat, done: ClaimedCommand, i: nat, aroundDone: Surroundings,
                     c: ClaimedCommand, k: nat, around: Surroundings, cap: Option<Number>)
    requires Slot(s, base, done, i, i, aroundDone, cap) && !aroundDone.interrupted
    requires Slot(s, base, c, i, k, around, cap)
    requires if k == i then c == done && around == aroundDone else c.commandId != done.commandId
    ensures Slot(DispatchedState(s, base + i, done, aroundDone, cap), base, c, i + 1, k, around, cap)
  {
    DispatchConcludes(s, base + i, done, aroundDone, cap);
  }

  lemma TakesOff(s: System, worker: string, lease: nat, ids: seq<string>, c: ClaimedCommand, k: nat)
    requires Keyed(s.tables) && forall i :: 0 <= i < |ids| ==> Eligible(s.tables, ids[i], s.now)
    requires k < |ids|
    requires var t := ClaimRows(s.tables, ids, s.now, worker, lease);
             ids[k] in t.commands && t.commands[ids[k]].runId in t.runs
             && c == Joined(t.runs[t.commands[ids[k]].runId], t.commands[ids[k]], worker)
    ensures var s' := ClaimState(s, worker, lease, ids);
            && c.commandId == ids[k] && ids[k] in s'.tables.commands
            && s'.tickets[|s.tickets| + k].command == c && s'.tickets[|s.tickets| + k].phase.Executing?
            && HoldsLease(s'.tables, c)
  {
    assert Eligible(s.tables, ids[k], s.now);
    assert ClaimState(s, worker, lease, ids).tables.commands[ids[k]] == ClaimedRow(s.tables.commands[ids[k]], s.now, worker, lease);
  }

  lemma ClaimTakesOff(s: System, worker: string, lease: nat, ids: seq<string>,
                      claimed: seq<ClaimedCommand>, around: ClaimedCommand -> Surroundings, cap: Option<Number>)
    requires Keyed(s.tables) && forall i :: 0 <= i < |ids| ==> Eligible(s.tables, ids[i], s.now)
    requires forall i, j :: 0 <= i < j < |ids| ==> ids[i] != ids[j]
    requires |claimed| == |ids|
    requires var t := ClaimRows(s.tables, ids, s.now, worker, lease);
             forall i :: 0 <= i < |ids| ==>
               && ids[i] in t.commands && t.commands[ids[i]].runId in t.runs
               && claimed[i] == Joined(t.runs[t.commands[ids[i]].runId], t.commands[ids[i]], worker)
    ensures InFlight(ClaimState(s, worker, lease, ids), |s.tickets|, claimed, 0, around, cap)
  {
    forall k | 0 <= k < |claimed|
      ensures claimed[k].commandId == ids[k]
      ensures Slot(ClaimState(s, worker, lease, ids), |s.tickets|, claimed[k], 0, k, around(claimed[k]), cap)
    {
      TakesOff(s, worker, lease, ids, claimed[k], k);
    }
  }

  function CommandIds(claimed: seq<ClaimedCommand>): (ids: seq<string>)
    ensures |ids| == |claimed| && forall i :: 0 <= i < |ids| ==> ids[i] == claimed[i].commandId
  {
    seq(|claimed|, i requires 0 <= i < |claimed| => claimed[i].commandId)
  }

  lemma BatchLimit(n: int)
    requires n >= 1
    ensures NormalizeSqlLimit(Finite(n as real)) == n
  {
  }

  /** The claim of a batch, as a step of the state machine. */
  method ClaimBatch(store: Store, options: DispatcherOptions, locked: set<string>, around: ClaimedCommand -> Surroundings, ghost s: System)
    returns (claimed: seq<ClaimedCommand>, ghost steps: seq<Step>, ghost s': System)
    requires Inv(s) && s.tables == store.Contents() && s.now == store.now
    modifies store`commands
    ensures Leads(s, steps, s') && s'.tables == store.Contents() && s'.now == s.now
    ensures |claimed| <= BatchSize(options) && TakesOldest(s.tables, s.now, BatchSize(options), locked, CommandIds(claimed))
    ensures |s'.tickets| == |s.tickets| + |claimed| && InFlight(s', |s.tickets|, claimed, 0, around, options.maxAttempts)
    ensures forall k :: 0 <= k < |claimed| ==>
              claimed[k].leaseOwner == if options.workerId.Some? then options.workerId.value else "workflow-dispatcher"
  {
    var worker := OrElse(options.workerId, "workflow-dispatcher");
    var limit := Finite(BatchSize(options) as real);
    var ids;
    ids, claimed := store.Claim(limit, worker, locked);
    BatchLimit(BatchSize(options));
    assert CommandIds(claimed) == ids;
    ghost var claim := Step.Claim(limit, worker, store.claimLease, locked, ids);
    ClaimTakesOff(s, worker, store.claimLease, ids, claimed, around, options.maxAttempts);
    steps, s' := [claim], ClaimState(s, worker, store.claimLease, ids);
    LeadsOne(s, claim, s');
  }

  /**
   The batch. Every claimed command is settled once, unless the worker is interrupted or
   the database refuses the statement; then it stays leased until the lease expires.
   */
  method DispatchWorkflowCommandBatch(store: Store, options: DispatcherOptions, claimFails: bool, locked: set<string>,
                                      around: ClaimedCommand -> Surroundings, ghost s: System)
    returns (dispatched: nat, interrupted: bool, claimed: seq<ClaimedCommand>, ghost steps: seq<Step>, ghost s': System)
    requires Inv(s) && s.tables == store.Contents() && s.now == store.now
    modifies store`runs, store`commands, store`now
    ensures Leads(s, steps, s') && Inv(s')
    ensures s'.tables == store.Contents() && s'.now == store.now
    ensures dispatched == |claimed| <= BatchSize(options)
    ensures claimFails ==> claimed == [] && s' == s
    ensures !claimFails ==> TakesOldest(s.tables, s.now, BatchSize(options), locked, CommandIds(claimed))
    ensures forall k :: 0 <= k < |claimed| ==>
              claimed[k].leaseOwner == if options.workerId.Some? then options.workerId.value else "workflow-dispatcher"
    ensures !interrupted ==> InFlight(s', |s.tickets|, claimed, |claimed|, around, options.maxAttempts)
    ensures interrupted ==> exists k :: 0 <= k < |claimed| && around(claimed[k]).interrupted
  {
    steps, s', claimed, dispatched, interrupted := [], s, [], 0, false;
    LeadsNowhere(s);
    if claimFails {
      return;
    }
    claimed, steps, s' := ClaimBatch(store, options, locked, around, s);
    dispatched := |claimed|;
    interrupted, steps, s' := SettleBatch(store, options.maxAttempts, claimed, around, s, steps, s');
    LeadsKeepsInv(s, steps, s');
  }

  method SettleBatch(store: Store, cap: Option<Number>, claimed: seq<ClaimedCommand>, around: ClaimedCommand -> Surroundings,
                     ghost start: System, ghost steps0: seq<Step>, ghost s: System)
    returns (interrupted: bool, ghost steps: seq<Step>, ghost s': System)
    requires Leads(start, steps0, s)
    requires s.tables == store.Contents() && s.now == store.now
    requires |claimed| <= |s.tickets| && InFlight(s, |s.tickets| - |claimed|, claimed, 0, around, cap)
    modifies store`runs, store`commands, store`now
    ensures Leads(start, steps, s')
    ensures s'.tables == store.Contents() && s'.now == store.now
    ensures !interrupted ==> InFlight(s', |s.tickets| - |claimed|, claimed, |claimed|, around, cap)
    ensures interrupted ==> exists k :: 0 <= k < |claimed| && around(claimed[k]).interrupted
  {
    steps, s' := steps0, s;
    ghost var base := |s.tickets| - |claimed|;
    for i := 0 to |claimed|
      invariant Leads(start, steps, s')
      invariant s'.tables == store.Contents() && s'.now == store.now
      invariant InFlight(s', base, claimed, i, around, cap)
    {
      var c := claimed[i];
      ghost var next := DispatchedState(s', base + i, c, around(c), cap);
      DispatchLeads(s', base + i, c, around(c), cap);
      LeadsOn(start, steps, s', StepsFor(base + i, c, around(c), cap, s'.now), next);
      steps := steps + StepsFor(base + i, c, around(c), cap, s'.now);
      if !around(c).interrupted {
        BatchAdvances(s', base, claimed, i, around, cap);
      }
      interrupted := Dispatch(store, c, around(c), cap, s', base + i);
      s' := next;
      if interrupted {
        return;
      }
    }
    interrupted := false;
  }
}
