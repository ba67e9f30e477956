/**
 * WorkflowSyncService: the hosted background loop. Each tick runs one pass in
 * a scope of its own (a fresh context and service over the same table); a
 * failing pass is caught and the loop goes on. The ticks are given as the
 * sequence of what the loader API's fetch returned on each of them, `None`
 * where it threw; the loop stops after the last one, where cancellation is
 * requested.
 */
module Background {
  import opened Wrappers
  import opened Domain
  import opened Reconcile
  import opened Store
  import opened WorkflowsServices
  import opened SyncPass
  import opened Convergence

  /** Why a pass failed: the fetch threw, or the store refused the read or the commit. */
  datatype PassError = FetchFailed | StoreFailed(error: DbError)

  /**
   * What one tick may do to the table: a failed fetch, and only that, is
   * reported as FetchFailed; a failed pass leaves the table as it was; a pass
   * that succeeds against a snapshot the table can mirror leaves the snapshot.
   */
  ghost predicate Tick(fetched: Option<seq<WorkflowDto>>, r: Result<(), PassError>, before: map<int, Workflow>, after: map<int, Workflow>) {
    && (r == Failure(FetchFailed) <==> fetched.None?)
    && (r.Failure? ==> after == before)
    && (r.Success? ==> fetched.Some? && (Mirrorable(fetched.value) ==> after == RemoteTable(fetched.value)))
  }

  class WorkflowSyncService {
    const database: Database

    ghost predicate Valid()
      reads this, database
    {
      database.Valid()
    }

    constructor (database: Database)
      requires database.Valid()
      ensures Valid() && this.database == database
    {
      this.database := database;
    }

    /**
     * SyncWorkflowsAsync: one pass in a new scope. `local` is the listing the
     * pass read. A pass that succeeds against a snapshot the table can mirror
     * leaves the table equal to the snapshot.
     */
    method SyncWorkflowsAsync(fetched: Option<seq<WorkflowDto>>) returns (r: Result<(), PassError>, ghost local: seq<Workflow>)
      requires Valid()
      modifies database`rows
      ensures Valid()
      ensures fetched.None? ==> r == Failure(FetchFailed) && database.rows == old(database.rows)
      ensures fetched.Some? && !database.reachable ==>
                r == Failure(StoreFailed(Unreachable)) && database.rows == old(database.rows)
      ensures fetched.Some? && database.reachable ==>
                var outcome := PassOutcome(old(database.rows), fetched.value, local);
                && IsListingOf(local, old(database.rows))
                && (outcome.Success? ==> r == Success(()) && database.rows == outcome.value)
                && (outcome.Failure? ==> r == Failure(StoreFailed(outcome.error)) && database.rows == old(database.rows))
      ensures r.Success? ==> fetched.Some?
      ensures fetched.Some? && Mirrorable(fetched.value) && r.Success? ==> database.rows == RemoteTable(fetched.value)
      ensures Tick(fetched, r, old(database.rows), database.rows)
    {
      local := [];
      if fetched.None? {
        return Failure(FetchFailed), local;
      }
      var remote := fetched.value;
      ghost var rows := database.rows;
      var db := new DbContext(database);
      var service := new WorkflowsService(db);
      var listed, d, res := RunPass(service, remote);
      local := listed;
      if res.Failure? {
        return Failure(StoreFailed(res.error)), local;
      }
      if Mirrorable(remote) {
        PassConverges(rows, remote, local);
      }
      r := Success(());
    }

    /**
     * ExecuteAsync: one pass per tick, whatever became of the previous one.
     * `tables` holds the table before the first tick and after each. A failed
     * pass leaves the table as it was; a pass that succeeds against a snapshot
     * the table can mirror leaves exactly that snapshot.
     */
    method ExecuteAsync(fetches: seq<Option<seq<WorkflowDto>>>)
      returns (outcomes: seq<Result<(), PassError>>, ghost tables: seq<map<int, Workflow>>)
      requires Valid()
      modifies database`rows
      ensures Valid()
      ensures |outcomes| == |fetches| && |tables| == |fetches| + 1
      ensures tables[0] == old(database.rows) && tables[|fetches|] == database.rows
      ensures forall i :: 0 <= i < |tables| ==> ValidTable(tables[i])
      ensures forall i :: 0 <= i < |fetches| ==> Tick(fetches[i], outcomes[i], tables[i], tables[i + 1])
    {
      outcomes := [];
      tables := [database.rows];
      var i := 0;
      while i < |fetches|
        invariant 0 <= i <= |fetches|
        invariant Valid()
        invariant |outcomes| == i && |tables| == i + 1
        invariant tables[0] == old(database.rows) && tables[i] == database.rows
        invariant forall j :: 0 <= j < |tables| ==> ValidTable(tables[j])
        invariant forall j :: 0 <= j < i ==> Tick(fetches[j], outcomes[j], tables[j], tables[j + 1])
      {
        var r, _ := SyncWorkflowsAsync(fetches[i]);
        outcomes := outcomes + [r];
        tables := tables + [database.rows];
        i := i + 1;
      }
    }
  }
}
