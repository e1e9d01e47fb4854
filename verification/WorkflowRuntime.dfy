/**
 The runtime: what a worker does with a claimed command. The workflow engine is outside
 the model; everything it and the registrations answer arrives as one `Reply`.
 */
module WorkflowRuntime {
  import opened Wrappers
  import opened JsonValues
  import opened WorkflowTables
  import opened WorkflowColumns
  import opened WorkflowSystem
  import opened WorkflowStore

  /** The workflow and the execution that an event id names. */
  datatype EventTarget = EventTarget(workflowName: string, executionId: string)

  datatype Reply = Reply(
    /** The version registered under the workflow's name, if any. */
    registered: Option<string>,
    payloadDecodes: bool,
    /** Whether the engine call, or the delivery of the event, goes through. */
    engineAccepts: bool,
    /** The execution id the engine starts. */
    executionId: string,
    /** What the event id of the payload names, if it can be read. */
    event: Option<EventTarget>,
    eventRegistered: bool,
    /** Whether the statement that marks the run is written, and whether it reports so. */
    markWritten: bool,
    markReported: bool)

  /** Whether the command gets as far as marking its run. */
  predicate ReachesMark(c: ClaimedCommand, reply: Reply) {
    && reply.registered == Some(c.definitionVersion)
    && match c.kind
       case Start => reply.payloadDecodes && reply.engineAccepts && reply.executionId == c.executionId
       case Cancel => reply.engineAccepts
       case Resume => reply.engineAccepts
       case Event =>
         && reply.payloadDecodes && reply.event == Some(EventTarget(c.workflowName, c.executionId))
         && reply.eventRegistered && reply.engineAccepts
  }

  predicate Marks(c: ClaimedCommand, reply: Reply) {
    ReachesMark(c, reply) && reply.markWritten
  }

  predicate Succeeds(c: ClaimedCommand, reply: Reply) {
    ReachesMark(c, reply) && reply.markWritten && reply.markReported
  }

  method ExecuteStartCommand(store: Store, c: ClaimedCommand, reply: Reply, appNow: int) returns (ok: bool)
    modifies store`runs
    ensures ok ==> reply.payloadDecodes && reply.engineAccepts && reply.executionId == c.executionId && reply.markWritten && reply.markReported
    ensures !ok ==> !(reply.payloadDecodes && reply.engineAccepts && reply.executionId == c.executionId && reply.markWritten && reply.markReported)
    ensures store.Contents() ==
            if reply.payloadDecodes && reply.engineAccepts && reply.executionId == c.executionId && reply.markWritten
            then MarkRun(old(store.Contents()), c.runId, RunStatus.Running, None, None, store.now, appNow)
            else old(store.Contents())
    ensures if reply.payloadDecodes && reply.engineAccepts && reply.executionId == c.executionId && reply.markWritten
            then MarksRun(old(store.runs), store.runs, c.runId, RunStatus.Running, None, None, store.now, appNow)
            else store.runs == old(store.runs)
  {
    if !reply.payloadDecodes || !reply.engineAccepts {
      return false;
    }
    if reply.executionId != c.executionId {
      return false;
    }
    ok := MarkThrough(store, c.runId, RunStatus.Running, reply, appNow);
  }

  /** A marking statement can be lost before it is written, or its success can be. */
  method MarkThrough(store: Store, runId: string, status: RunStatus, reply: Reply, appNow: int) returns (ok: bool)
    modifies store`runs
    ensures ok == (reply.markWritten && reply.markReported)
    ensures store.Contents() ==
            if reply.markWritten then MarkRun(old(store.Contents()), runId, status, None, None, store.now, appNow)
            else old(store.Contents())
    ensures if reply.markWritten then MarksRun(old(store.runs), store.runs, runId, status, None, None, store.now, appNow)
            else store.runs == old(store.runs)
  {
    if reply.markWritten {
      store.MarkRun(runId, status, None, None, appNow);
    }
    ok := reply.markWritten && reply.markReported;
  }

  method ExecuteWorkflowCommand(store: Store, c: ClaimedCommand, reply: Reply, appNow: int) returns (ok: bool)
    modifies store`runs
    ensures ok == Succeeds(c, reply)
    ensures var accepted :=
              && reply.registered == Some(c.definitionVersion) && reply.engineAccepts
              && (c.kind == Start ==> reply.payloadDecodes && reply.executionId == c.executionId)
              && (c.kind == Event ==>
                    && reply.payloadDecodes && reply.eventRegistered && reply.event.Some?
                    && reply.event.value.workflowName == c.workflowName && reply.event.value.executionId == c.executionId);
            && (ok <==> accepted && reply.markWritten && reply.markReported)
            && (!accepted || !reply.markWritten ==> store.runs == old(store.runs))
            && (accepted && reply.markWritten ==>
                  MarksRun(old(store.runs), store.runs, c.runId, if c.kind == Cancel then RunStatus.Cancelled else RunStatus.Running,
                           None, None, store.now, appNow))
    ensures store.Contents() ==
            if Marks(c, reply)
            then MarkRun(old(store.Contents()), c.runId, MarkFor(c.kind), None, None, store.now, appNow)
            else old(store.Contents())
    ensures if Marks(c, reply)
            then MarksRun(old(store.runs), store.runs, c.runId, if c.kind == Cancel then RunStatus.Cancelled else RunStatus.Running,
                          None, None, store.now, appNow)
            else store.runs == old(store.runs)
  {
    if reply.registered.None? || reply.registered.value != c.definitionVersion {
      return false;
    }
    match c.kind {
      case Start =>
        ok := ExecuteStartCommand(store, c, reply, appNow);
      case Cancel =>
        if !reply.engineAccepts {
          return false;
        }
        ok := MarkThrough(store, c.runId, RunStatus.Cancelled, reply, appNow);
      case Resume =>
        if !reply.engineAccepts {
          return false;
        }
        ok := MarkThrough(store, c.runId, RunStatus.Running, reply, appNow);
      case Event =>
        if !reply.payloadDecodes || reply.event.None? {
          return false;
        }
        if reply.event.value.workflowName != c.workflowName || reply.event.value.executionId != c.executionId {
          return false;
        }
        if !reply.eventRegistered || !reply.engineAccepts {
          return false;
        }
        ok := MarkThrough(store, c.runId, RunStatus.Running, reply, appNow);
    }
  }
}
