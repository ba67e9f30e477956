/**
 * WorkflowsController: the three HTTP actions over the workflows service and
 * the loader API. What the loader API answers is a parameter: the snapshot a
 * fetch returns, or `None` when the fetch throws, and what a run request does
 * for a given id text.
 */
module Controllers {
  import opened Wrappers
  import opened Domain
  import opened Reconcile
  import opened Store
  import opened WorkflowsServices
  import opened SyncPass
  import opened Convergence
  import opened Decimal

  /** A response body: a bare string, an object with a message, the workflows, or the sync summary. */
  datatype Body =
    | Text(text: string)
    | Message(message: string)
    | WorkflowList(workflows: seq<Workflow>)
    | SyncSummary(message: string, inserted: nat, deleted: nat, updated: nat)

  datatype Response = Response(status: int, body: Body)

  /** What the loader API does with a run request: reports success, reports failure, or throws. */
  datatype RunOutcome = Triggered | NotTriggered | Threw

  const InternalServerError := "Internal server error"
  const TriggeredMessage := "Workflow triggered successfully"
  const NotTriggeredMessage := "Failed to trigger workflow"
  const SyncedMessage := "Synchronization completed successfully"

  /**
   * RunWorkflow: asks the loader API to run the workflow named by the decimal
   * text of its id, and answers 200 when it ran, 400 when the API refused and
   * 500 when the call threw, each with a message object.
   */
  function RunWorkflow(workflowId: Int32, runWorkflowAsync: string -> RunOutcome): (r: Response)
    ensures var outcome := runWorkflowAsync(DecimalString(workflowId));
            && (r.status == 200 <==> outcome == Triggered)
            && (r.status == 400 <==> outcome == NotTriggered)
            && (r.status == 500 <==> outcome == Threw)
            && r.body.Message?
            && (r.status == 200 ==> r.body.message == TriggeredMessage)
            && (r.status == 400 ==> r.body.message == NotTriggeredMessage)
            && (r.status == 500 ==> r.body.message == InternalServerError)
  {
    match runWorkflowAsync(DecimalString(workflowId))
    case Triggered => Response(200, Message(TriggeredMessage))
    case NotTriggered => Response(400, Message(NotTriggeredMessage))
    case Threw => Response(500, Message(InternalServerError))
  }

  /**
   * The API is asked with the id's own decimal text, zero, negative ids and
   * the largest id included: an API that answers only for that text is the
   * one that decides the response.
   */
  lemma RunWorkflowSendsDecimalId()
    ensures RunWorkflow(0, t => if t == "0" then Triggered else Threw).status == 200
    ensures RunWorkflow(-1, t => if t == "-1" then NotTriggered else Threw).status == 400
    ensures RunWorkflow(2147483647, t => if t == "2147483647" then Triggered else Threw).status == 200
  {
    DecimalSamples();
    MaxIdText();
  }

  class WorkflowsController {
    const service: WorkflowsService

    ghost predicate Valid()
      reads this, service, service.db, service.db.database
    {
      service.Valid()
    }

    constructor (service: WorkflowsService)
      requires service.Valid()
      ensures Valid() && this.service == service
    {
      this.service := service;
    }

    /**
     * GetWorkflows: 200 with every stored workflow, or 500 with the bare
     * string when the store cannot be read. A request has a scope of its own,
     * so its context starts fresh.
     */
    method GetWorkflows() returns (r: Response)
      requires Valid() && service.db.Fresh()
      modifies service.db`entities, service.db`calls
      ensures Valid()
      ensures service.db.database.reachable ==>
                r.status == 200 && r.body.WorkflowList? && IsListingOf(r.body.workflows, service.db.database.rows)
      ensures !service.db.database.reachable ==> r == Response(500, Text(InternalServerError))
    {
      var all := service.GetAllWorkflows();
      if all.Failure? {
        return Response(500, Text(InternalServerError));
      }
      r := Response(200, WorkflowList(all.value));
    }

    /**
     * SyncWorkflows: one pass against the fetched snapshot, answered with the
     * sizes of the three lists, or 500 with no counts when the fetch, the read
     * or the commit fails. `local` is the listing the pass read.
     */
    method SyncWorkflows(fetched: Option<seq<WorkflowDto>>) returns (r: Response, ghost local: seq<Workflow>)
      requires Valid() && service.db.Fresh()
      modifies service.db`entities, service.db`staged, service.db`calls, service.db.database`rows
      ensures Valid()
      ensures fetched.None? ==>
                && r == Response(500, Message(InternalServerError))
                && service.db.database.rows == old(service.db.database.rows)
                && service.db.calls == old(service.db.calls)
      ensures fetched.Some? && !service.db.database.reachable ==>
                r == Response(500, Message(InternalServerError)) && service.db.database.rows == old(service.db.database.rows)
      ensures fetched.Some? && service.db.database.reachable ==>
                var d := ComputeDiff(fetched.value, local);
                && IsListingOf(local, old(service.db.database.rows))
                && service.db.calls == old(service.db.calls) + [ToListCall] + SyncCalls(d.toInsert, d.toDelete, d.toUpdate)
      ensures fetched.Some? && service.db.database.reachable ==>
                var d := ComputeDiff(fetched.value, local);
                var outcome := PassOutcome(old(service.db.database.rows), fetched.value, local);
                if outcome.Success? then
                  && r == Response(200, SyncSummary(SyncedMessage, |d.toInsert|, |d.toDelete|, |d.toUpdate|))
                  && service.db.database.rows == outcome.value
                else
                  && r == Response(500, Message(InternalServerError))
                  && service.db.database.rows == old(service.db.database.rows)
      ensures fetched.Some? && Mirrorable(fetched.value) && r.status == 200 ==>
                service.db.database.rows == RemoteTable(fetched.value)
    {
      local := [];
      if fetched.None? {
        return Response(500, Message(InternalServerError)), local;
      }
      var remote := fetched.value;
      ghost var rows := service.db.database.rows;
      var listed, d, res := RunPass(service, remote);
      local := listed;
      if res.Failure? {
        return Response(500, Message(InternalServerError)), local;
      }
      if Mirrorable(remote) {
        PassConverges(rows, remote, local);
      }
      r := Response(200, SyncSummary(SyncedMessage, |d.toInsert|, |d.toDelete|, |d.toUpdate|));
    }
  }
}
