/**
 The workflow store as the object the dispatcher, the runtime and the reconciler call.
 Each method is one SQL statement or transaction; its contract equates the tables after
 it with the specification function of `WorkflowTables` for that statement.
 */
module WorkflowStore {
  import opened Wrappers
  import opened JsNumbers
  import opened JsonValues
  import opened WorkflowTables
  import T = WorkflowTables
  import opened WorkflowColumns
  import opened Pages

  class Store {
    var runs: map<string, Run>
    var commands: map<string, Command>
    /** The database clock, which never goes back. */
    var now: int
    const claimLease: nat

    constructor (claimLease: nat, now: int)
      ensures Contents() == Tables(map[], map[]) && this.now == now && this.claimLease == claimLease
    {
      runs, commands := map[], map[];
      this.now := now;
      this.claimLease := claimLease;
    }

    function Contents(): Tables
      reads this
    {
      Tables(runs, commands)
    }

    method Tick(elapsed: nat)
      modifies this`now
      ensures now == old(now) + elapsed
    {
      now := now + elapsed;
    }

    method InsertRun(req: EnqueueRequest, appNow: int) returns (outcome: Result<Enqueued, EnqueueError>)
      requires forall a, b :: Owns(Contents(), a, req) && Owns(Contents(), b, req) ==> a == b
      modifies this`runs
      ensures (Contents(), outcome) == T.InsertRun(old(Contents()), req, appNow)
      ensures InsertsRun(old(Contents()), Contents(), req, appNow, outcome)
    {
      InsertRunInserts(Contents(), req, appNow);
      if id :| id in runs && KeyedBy(runs[id], req) {
        assert Owns(Contents(), id, req);
        var run := runs[id];
        if run.visibilityKey != req.visibilityKey {
          return Failure(NotAccessible);
        }
        if run.definitionVersion != req.definitionVersion || run.input != req.payload
           || run.maxAttempts != OrElse(req.maxAttempts, DEFAULT_MAX_ATTEMPTS) {
          return Failure(DifferentParameters);
        }
        return Success(Enqueued(run.runId, run.executionId));
      }
      if req.runId in runs {
        return Failure(DuplicateRunId);
      }
      runs := runs[req.runId := NewRun(req, appNow)];
      return Success(Enqueued(req.runId, req.executionId));
    }

    method InsertCommand(req: CommandRequest, appNow: int) returns (outcome: Result<(), EnqueueError>)
      modifies this`commands
      ensures (Contents(), outcome) == T.InsertCommand(old(Contents()), req, appNow)
      ensures InsertsCommand(old(Contents()), Contents(), req, appNow, outcome)
    {
      if req.runId in runs && !Terminal(runs[req.runId].status) && req.commandId !in commands {
        commands := commands[req.commandId := NewCommand(req, appNow)];
        return Success(());
      }
      if req.commandId !in commands {
        return Failure(NoActiveRun);
      }
      var row := commands[req.commandId];
      if row.runId == req.runId && row.kind == req.kind && row.payload == req.payload {
        return Success(());
      }
      return Failure(CommandConflict);
    }

    /** Both inserts in one transaction, rolled back when either fails. */
    method Enqueue(req: EnqueueRequest, appNow: int) returns (outcome: Result<Enqueued, EnqueueError>)
      requires forall a, b :: Owns(Contents(), a, req) && Owns(Contents(), b, req) ==> a == b
      modifies this`runs, this`commands
      ensures (Contents(), outcome) == T.Enqueue(old(Contents()), req, appNow)
      ensures outcome.Failure? ==> Contents() == old(Contents())
      ensures (forall id :: id in old(runs) ==> !HasKeyOf(old(runs)[id], req))
              && req.runId !in old(runs) && "start:" + req.runId !in old(commands) ==>
                && outcome == Success(Enqueued(req.runId, req.executionId))
                && Adds(old(runs), runs, req.runId) && IsNewRun(runs[req.runId], req, appNow)
                && Adds(old(commands), commands, "start:" + req.runId)
                && IsStartOf(commands["start:" + req.runId], req.runId, req, appNow)
    {
      var savepoint := runs;
      outcome := InsertRun(req, appNow);
      if outcome.Success? {
        var started := InsertCommand(StartRequest(outcome.value.runId, req), appNow);
        if started.Failure? {
          runs := savepoint;
          outcome := Failure(started.error);
        }
      }
    }

    /**
     Picks the oldest eligible rows that no other transaction has locked, leases them and
     returns them joined with their runs.
     */
    method Claim(limit: Number, worker: string, locked: set<string>)
      returns (ids: seq<string>, claimed: seq<ClaimedCommand>)
      requires forall id :: id in commands ==> commands[id].commandId == id
      modifies this`commands
      ensures ClaimSelects(old(Contents()), now, NormalizeSqlLimit(limit), locked, ids)
      ensures TakesOldest(old(Contents()), now, NormalizeSqlLimit(limit), locked, ids)
      ensures GrantsLeases(old(Contents()), Contents(), ids, now, worker, claimLease)
      ensures Contents() == ClaimRows(old(Contents()), ids, now, worker, claimLease)
      ensures |claimed| == |ids|
      ensures forall i :: 0 <= i < |ids| ==>
                && ids[i] in commands && commands[ids[i]].runId in runs
                && claimed[i] == Joined(runs[commands[ids[i]].runId], commands[ids[i]], worker)
                && claimed[i].commandId == ids[i] && claimed[i].leaseOwner == worker
                && IsClaimOf(claimed[i], runs[commands[ids[i]].runId], commands[ids[i]])
    {
      ids := OldestEligible(NormalizeSqlLimit(limit), locked);
      SelectionTakesOldest(Contents(), now, NormalizeSqlLimit(limit), locked, ids);
      SelectedHaveRuns(Contents(), now, NormalizeSqlLimit(limit), locked, ids);
      LeaseRows(ids, worker);
      claimed := JoinRows(ids, worker);
    }

    static lemma SelectedHaveRuns(t: Tables, now: int, limit: int, locked: set<string>, ids: seq<string>)
      requires ClaimSelects(t, now, limit, locked, ids)
      ensures forall i :: 0 <= i < |ids| ==> ids[i] in t.commands && t.commands[ids[i]].runId in t.runs
    {
      forall i | 0 <= i < |ids| ensures ids[i] in t.commands && t.commands[ids[i]].runId in t.runs {
        assert Eligible(t, ids[i], now);
      }
    }

    /** The update of the selected rows. */
    method LeaseRows(ids: seq<string>, worker: string)
      modifies this`commands
      ensures Contents() == ClaimRows(old(Contents()), ids, now, worker, claimLease)
      ensures GrantsLeases(old(Contents()), Contents(), ids, now, worker, claimLease)
    {
      commands := map id | id in commands ::
        if id in ids then ClaimedRow(commands[id], now, worker, claimLease) else commands[id];
    }

    /** The leased rows joined with their runs. */
    method JoinRows(ids: seq<string>, worker: string) returns (claimed: seq<ClaimedCommand>)
      requires forall i :: 0 <= i < |ids| ==>
                 && ids[i] in commands && commands[ids[i]].runId in runs
                 && commands[ids[i]].leaseOwner == Some(worker) && commands[ids[i]].commandId == ids[i]
      ensures |claimed| == |ids|
      ensures forall i :: 0 <= i < |ids| ==> claimed[i] == Joined(runs[commands[ids[i]].runId], commands[ids[i]], worker)
      ensures forall i :: 0 <= i < |ids| ==>
                && IsClaimOf(claimed[i], runs[commands[ids[i]].runId], commands[ids[i]])
                && claimed[i].commandId == ids[i] && claimed[i].leaseOwner == worker
    {
      claimed := [];
      for i := 0 to |ids|
        invariant |claimed| == i
        invariant forall k :: 0 <= k < i ==> claimed[k] == Joined(runs[commands[ids[k]].runId], commands[ids[k]], worker)
      {
        claimed := claimed + [Joined(runs[commands[ids[i]].runId], commands[ids[i]], worker)];
      }
    }

    /** The ordered and limited selection inside the claim. */
    method OldestEligible(limit: int, locked: set<string>) returns (ids: seq<string>)
      requires limit >= 1
      ensures ClaimSelects(Contents(), now, limit, locked, ids)
    {
      var waiting := set id | id in commands && Eligible(Contents(), id, now) && id !in locked;
      var all := waiting;
      ids := [];
      while |ids| < limit && waiting != {}
        invariant |ids| <= limit
        invariant waiting <= all
        invariant forall id :: id in all <==> id in waiting || id in ids
        invariant forall i :: 0 <= i < |ids| ==> ids[i] in all && ids[i] !in waiting
        invariant forall i, j :: 0 <= i < j < |ids| ==> ids[i] != ids[j]
        invariant forall i, w :: 0 <= i < |ids| && w in waiting ==> commands[ids[i]].createdAt <= commands[w].createdAt
        decreases waiting
      {
        OldestExists(waiting);
        var oldest :| oldest in waiting && forall w :: w in waiting ==> commands[oldest].createdAt <= commands[w].createdAt;
        ids := ids + [oldest];
        waiting := waiting - {oldest};
      }
    }

    lemma OldestExists(waiting: set<string>)
      requires waiting != {} && waiting <= commands.Keys
      ensures exists x :: x in waiting && forall w :: w in waiting ==> commands[x].createdAt <= commands[w].createdAt
    {
      var x :| x in waiting;
      var rest := waiting - {x};
      if rest != {} {
        OldestExists(rest);
        var y :| y in rest && forall w :: w in rest ==> commands[y].createdAt <= commands[w].createdAt;
        var z := if commands[x].createdAt <= commands[y].createdAt then x else y;
        assert forall w :: w in waiting ==> w == x || w in rest;
        assert z in waiting && forall w :: w in waiting ==> commands[z].createdAt <= commands[w].createdAt;
      } else {
        assert waiting == {x};
      }
    }

    method SettleCommand(c: ClaimedCommand, how: Settlement, appNow: int) returns (settled: bool)
      modifies this`commands
      ensures (Contents(), settled) == T.SettleCommand(old(Contents()), c, how, now, appNow)
      ensures SettlesCommand(old(commands), commands, c, how, now, appNow, settled)
    {
      settled := c.commandId in commands
                 && commands[c.commandId].status.Delivering?
                 && commands[c.commandId].leaseOwner == Some(c.leaseOwner)
                 && commands[c.commandId].leaseToken == c.leaseToken;
      if settled {
        commands := commands[c.commandId := SettledRow(commands[c.commandId], how, now, appNow)];
      }
    }

    method MarkCommandDelivered(c: ClaimedCommand, appNow: int) returns (settled: bool)
      modifies this`commands
      ensures (Contents(), settled) == Settle(old(Contents()), c, Deliver, now, appNow)
      ensures SettlesCommand(old(commands), commands, c, Deliver, now, appNow, settled)
    {
      settled := SettleCommand(c, Deliver, appNow);
    }

    method RetryCommand(c: ClaimedCommand, delay: nat, error: Value, appNow: int) returns (settled: bool)
      modifies this`commands
      ensures (Contents(), settled) == Settle(old(Contents()), c, RetryAfter(delay, error), now, appNow)
      ensures SettlesCommand(old(commands), commands, c, RetryAfter(delay, error), now, appNow, settled)
    {
      settled := SettleCommand(c, RetryAfter(delay, error), appNow);
    }

    /** The settlement and the failure of the run in one transaction. */
    method FailCommand(c: ClaimedCommand, error: Value, appNow: int) returns (settled: bool)
      modifies this`runs, this`commands
      ensures (Contents(), settled) == Settle(old(Contents()), c, GiveUp(error), now, appNow)
      ensures SettlesCommand(old(commands), commands, c, GiveUp(error), now, appNow, settled)
      ensures !settled ==> runs == old(runs) && commands == old(commands)
      ensures settled && c.runId in old(runs) && (old(runs)[c.runId].status.Pending? || old(runs)[c.runId].status.Running?) ==>
                && Changes(old(runs), runs, c.runId)
                && runs[c.runId].status == RunStatus.Failed && runs[c.runId].error == Some(error)
                && runs[c.runId].result == old(runs)[c.runId].result && runs[c.runId].completedAt.Some?
                && IsMarked(old(runs)[c.runId], runs[c.runId], RunStatus.Failed, None, Some(error), now, appNow)
      ensures settled && (c.runId !in old(runs) || IsOver(old(runs)[c.runId])) ==> runs == old(runs)
    {
      settled := SettleCommand(c, GiveUp(error), appNow);
      if settled {
        MarkRun(c.runId, RunStatus.Failed, None, Some(error), appNow);
      }
    }

    method MarkRun(runId: string, status: RunStatus, result: Option<Value>, error: Option<Value>, appNow: int)
      modifies this`runs
      ensures Contents() == T.MarkRun(old(Contents()), runId, status, result, error, now, appNow)
      ensures MarksRun(old(runs), runs, runId, status, result, error, now, appNow)
    {
      if runId in runs && !Terminal(runs[runId].status) {
        runs := runs[runId := MarkedRow(runs[runId], status, result, error, now, appNow)];
      }
    }

    /** One page of the runs with a status, in the order of (updated_at, run_id). */
    method ListRuns(status: RunStatus, limit: Number, cursor: Option<Cursor>) returns (page: seq<Run>)
      requires forall id :: id in runs ==> runs[id].runId == id
      ensures IsPage(Contents(), status, NormalizeSqlLimit(limit), cursor, page)
    {
      var ids := FirstListed(status, NormalizeSqlLimit(limit), cursor);
      page := seq(|ids|, i requires 0 <= i < |ids| && ids[i] in runs reads this => runs[ids[i]]);
      PageOfIds(Contents(), status, NormalizeSqlLimit(limit), cursor, ids, page);
    }

    /** The ordered and limited selection inside the listing. */
    method FirstListed(status: RunStatus, limit: int, cursor: Option<Cursor>) returns (ids: seq<string>)
      requires limit >= 1
      requires forall id :: id in runs ==> runs[id].runId == id
      ensures |ids| <= limit
      ensures forall i :: 0 <= i < |ids| ==> ids[i] in runs && Listed(Contents(), ids[i], status, cursor)
      ensures forall i, j :: 0 <= i < j < |ids| ==> Before(runs[ids[i]], runs[ids[j]])
      ensures forall id :: Listed(Contents(), id, status, cursor) && id !in ids ==>
                |ids| == limit && forall i :: 0 <= i < |ids| ==> Before(runs[ids[i]], runs[id])
    {
      var all := set id | id in runs && Listed(Contents(), id, status, cursor);
      ids := FirstOf(all, limit);
    }

    /** The first rows of a selection, in order. */
    method FirstOf(all: set<string>, limit: int) returns (ids: seq<string>)
      requires limit >= 1 && all <= runs.Keys
      requires forall id :: id in runs ==> runs[id].runId == id
      ensures |ids| <= limit
      ensures forall i :: 0 <= i < |ids| ==> ids[i] in all
      ensures forall i, j :: 0 <= i < j < |ids| ==> Before(runs[ids[i]], runs[ids[j]])
      ensures forall id :: id in all && id !in ids ==>
                |ids| == limit && forall i :: 0 <= i < |ids| ==> Before(runs[ids[i]], runs[id])
    {
      var waiting := all;
      ids := [];
      while |ids| < limit && waiting != {}
        invariant |ids| <= limit
        invariant waiting <= all
        invariant forall id :: id in all <==> id in waiting || id in ids
        invariant forall i :: 0 <= i < |ids| ==> ids[i] in all && ids[i] !in waiting
        invariant forall i, j :: 0 <= i < j < |ids| ==> Before(runs[ids[i]], runs[ids[j]])
        invariant forall i, w :: 0 <= i < |ids| && w in waiting ==> Before(runs[ids[i]], runs[w])
        decreases waiting
      {
        FirstExists(runs, waiting);
        var first :| first in waiting && forall w :: w in waiting && w != first ==> Before(runs[first], runs[w]);
        ids := ids + [first];
        waiting := waiting - {first};
      }
    }
  }
}
