/**
 The reconciler: list a page of running runs, poll the engine for each, mark the ones
 that have finished, and move the cursor to the end of the page.
 */
module WorkflowReconciler {
  import opened Wrappers
  import opened JsNumbers
  import opened JsonValues
  import opened WorkflowTables
  import opened WorkflowSystem
  import opened WorkflowInvariant
  import opened WorkflowStore
  import opened WorkflowDispatcher
  import opened Pages
  import opened ReconcilerSweep

  /** What polling one run comes to. */
  datatype Poll =
    | UnknownWorkflow
    | NoResult
    | Suspended
    | Success(value: Value)
    | Failure(error: Value)
    | Undecodable(message: Value)
    | PollFails
    | Interrupted

  /** Finished runs are marked; so is a run whose stored state cannot be decoded. */
  function Verdict(poll: Poll): Option<Outcome> {
    match poll
    case Success(value) => Some(Completed(value))
    case Failure(error) => Some(Broken(error))
    case Undecodable(message) => Some(Broken(message))
    case _ => None
  }

  class CursorRef {
    var value: Option<Cursor>

    constructor ()
      ensures value == None
    {
      value := None;
    }
  }

  function ReconcileRunState(s: System, run: Run, poll: Poll, appNow: int): System {
    match Verdict(poll)
    case Some(outcome) => ReconcileState(s, run.runId, outcome, appNow)
    case None => s
  }

  /** The first `i` runs of the page reconciled one after the other. */
  function ReconcileRuns(s: System, page: seq<Run>, i: nat, polls: Run -> Poll, appNow: int): System
    requires i <= |page|
  {
    if i == 0 then s
    else ReconcileRunState(ReconcileRuns(s, page, i - 1, polls, appNow), page[i - 1], polls(page[i - 1]), appNow)
  }

  function PageIds(page: seq<Run>): set<string> {
    set run | run in page :: run.runId
  }

  method ReconcileRun(store: Store, run: Run, poll: Poll, appNow: int, ghost s: System)
    requires s.tables == store.Contents() && s.now == store.now
    modifies store`runs
    ensures store.Contents() == ReconcileRunState(s, run, poll, appNow).tables
  {
    match poll {
      case Success(value) =>
        store.MarkRun(run.runId, RunStatus.Succeeded, Some(value), None, appNow);
      case Failure(error) =>
        store.MarkRun(run.runId, RunStatus.Failed, None, Some(error), appNow);
      case Undecodable(message) =>
        store.MarkRun(run.runId, RunStatus.Failed, None, Some(message), appNow);
      case _ =>
    }
  }

  lemma ReconcileRunLeads(s: System, run: Run, poll: Poll, appNow: int) returns (steps: seq<Step>)
    requires run.runId in s.listed
    ensures Leads(s, steps, ReconcileRunState(s, run, poll, appNow))
    ensures ReconcileRunState(s, run, poll, appNow).listed == s.listed
    ensures ReconcileRunState(s, run, poll, appNow).now == s.now
  {
    match Verdict(poll)
    case Some(outcome) =>
      steps := [Reconcile(run.runId, outcome, appNow)];
      LeadsOne(s, steps[0], ReconcileState(s, run.runId, outcome, appNow));
    case None =>
      steps := [];
      LeadsNowhere(s);
  }

  lemma ReconcileNext(s: System, steps: seq<Step>, s': System, run: Run, poll: Poll, appNow: int)
    returns (steps': seq<Step>, next: System)
    requires Leads(s, steps, s') && run.runId in s'.listed
    ensures next == ReconcileRunState(s', run, poll, appNow) && Leads(s, steps', next)
    ensures next.listed == s'.listed && next.now == s'.now
  {
    var more := ReconcileRunLeads(s', run, poll, appNow);
    next := ReconcileRunState(s', run, poll, appNow);
    LeadsOn(s, steps, s', more, next);
    steps' := steps + more;
  }

  /** The loop over a listed page, which an interrupt cuts short. */
  method ReconcilePage(store: Store, page: seq<Run>, polls: Run -> Poll, appNow: int,
                       ghost s: System, ghost steps: seq<Step>, ghost first: System)
    returns (interrupted: bool, ghost steps': seq<Step>, ghost s': System)
    requires Leads(s, steps, first) && first.tables == store.Contents() && first.now == store.now
    requires forall i :: 0 <= i < |page| ==> page[i].runId in first.listed
    modifies store`runs
    ensures Leads(s, steps', s') && s'.tables == store.Contents()
    ensures !interrupted ==> s' == ReconcileRuns(first, page, |page|, polls, appNow)
    ensures interrupted ==> exists run :: run in page && polls(run).Interrupted?
  {
    interrupted, steps', s' := false, steps, first;
    for i := 0 to |page|
      invariant Leads(s, steps', s') && !interrupted
      invariant s' == ReconcileRuns(first, page, i, polls, appNow)
      invariant s'.tables == store.Contents() && s'.now == store.now && s'.listed == first.listed
    {
      if polls(page[i]).Interrupted? {
        interrupted := true;
        return;
      }
      ReconcileRun(store, page[i], polls(page[i]), appNow, s');
      steps', s' := ReconcileNext(s, steps', s', page[i], polls(page[i]), appNow);
    }
  }

  /** The listing of one page, as a step of the state machine. */
  method ListPage(store: Store, batchSize: Option<Number>, at: Option<Cursor>, ghost s: System)
    returns (page: seq<Run>, ghost steps: seq<Step>, ghost s': System)
    requires Inv(s) && s.tables == store.Contents() && s.now == store.now
    ensures IsPage(s.tables, RunStatus.Running, NormalizeSqlLimit(OrElse(batchSize, Finite(100.0))), at, page)
    ensures s' == s.(listed := s.listed + PageIds(page)) && Leads(s, steps, s')
    ensures forall i :: 0 <= i < |page| ==> page[i].runId in s'.listed
  {
    page := store.ListRuns(RunStatus.Running, OrElse(batchSize, Finite(100.0)), at);
    steps, s' := [ListRunning(PageIds(page))], s.(listed := s.listed + PageIds(page));
    LeadsOne(s, steps[0], s');
  }

  /**
   One call of the reconciler. It lists one page, marks exactly the listed runs whose poll
   gave a verdict, and leaves the cursor behind the page, or back at the start after an
   empty one. It is a run of the state machine.
   */
  method ReconcileWorkflowRuns(store: Store, cursor: CursorRef?, batchSize: Option<Number>, listFails: bool,
                               polls: Run -> Poll, appNow: int, ghost s: System)
    returns (listed: nat, interrupted: bool, page: seq<Run>, ghost steps: seq<Step>, ghost s': System)
    requires Inv(s) && s.tables == store.Contents() && s.now == store.now
    modifies store`runs, cursor
    ensures Leads(s, steps, s') && Inv(s') && s'.tables == store.Contents()
    ensures listFails ==> page == [] && s' == s && (cursor != null ==> cursor.value == old(cursor.value))
    ensures !listFails ==>
              IsPage(s.tables, RunStatus.Running, NormalizeSqlLimit(OrElse(batchSize, Finite(100.0))),
                     if cursor == null then None else old(cursor.value), page)
    ensures !listFails && !interrupted ==>
              && listed == |page|
              && s' == ReconcileRuns(s.(listed := s.listed + PageIds(page)), page, |page|, polls, appNow)
              && (cursor != null ==> cursor.value == NextCursor(page))
    ensures interrupted ==> exists run :: run in page && polls(run).Interrupted?
    ensures interrupted && cursor != null ==> cursor.value == old(cursor.value)
  {
    listed, interrupted, page, steps, s' := 0, false, [], [], s;
    LeadsNowhere(s);
    if listFails {
      return;
    }
    var at := if cursor == null then None else cursor.value;
    page, steps, s' := ListPage(store, batchSize, at, s);
    interrupted, steps, s' := ReconcilePage(store, page, polls, appNow, s, steps, s');
    LeadsKeepsInv(s, steps, s');
    if interrupted {
      return;
    }
    if cursor != null {
      cursor.value := NextCursor(page);
    }
    listed := |page|;
  }

  /** What a poll makes of an active run. */
  predicate Marks(poll: Poll, before: Run, after: Run) {
    match poll
    case Success(value) => after.status.Succeeded? && after.result == Some(value)
    case Failure(error) => after.status.Failed? && after.error == Some(error)
    case Undecodable(message) => after.status.Failed? && after.error == Some(message)
    case _ => after == before
  }

  lemma MarksOneRun(s: System, run: Run, poll: Poll, appNow: int, id: string)
    requires id in s.tables.runs
    ensures var next := ReconcileRunState(s, run, poll, appNow);
            && next.now == s.now && id in next.tables.runs
            && (run.runId != id || Verdict(poll).None? ==> next.tables.runs[id] == s.tables.runs[id])
            && (run.runId == id && !Terminal(s.tables.runs[id].status) ==> Marks(poll, s.tables.runs[id], next.tables.runs[id]))
  {
  }

  /** The runs a call marks, and what becomes of them. */
  lemma {:induction false} MarksListedRuns(s: System, page: seq<Run>, i: nat, polls: Run -> Poll, appNow: int, id: string)
    requires i <= |page| && id in s.tables.runs
    requires forall j, k :: 0 <= j < k < |page| ==> page[j].runId != page[k].runId
    ensures ReconcileRuns(s, page, i, polls, appNow).now == s.now
    ensures id in ReconcileRuns(s, page, i, polls, appNow).tables.runs
    ensures (forall k :: 0 <= k < i ==> page[k].runId != id || Verdict(polls(page[k])).None?) ==>
              ReconcileRuns(s, page, i, polls, appNow).tables.runs[id] == s.tables.runs[id]
    ensures forall k :: 0 <= k < i && page[k].runId == id && !Terminal(s.tables.runs[id].status) ==>
              Marks(polls(page[k]), s.tables.runs[id], ReconcileRuns(s, page, i, polls, appNow).tables.runs[id])
  {
    if i > 0 {
      MarksListedRuns(s, page, i - 1, polls, appNow, id);
      MarksOneRun(ReconcileRuns(s, page, i - 1, polls, appNow), page[i - 1], polls(page[i - 1]), appNow, id);
    }
  }
}
