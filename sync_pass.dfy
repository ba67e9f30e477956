/**
 * One synchronisation pass, as both call sites run it: read the local table,
 * classify it against the remote snapshot, overwrite the tracked entities that
 * have a remote counterpart, and hand the three lists to the service, which
 * commits them in one SaveChanges.
 */
module SyncPass {
  import opened Wrappers
  import opened Domain
  import opened Reconcile
  import opened Store
  import opened WorkflowsServices

  /** The changes a pass stages: its inserts, then its deletes. */
  function PassStaged(d: Diff): seq<Change> {
    AddedAll(d.toInsert) + DeletedAll(d.toDelete)
  }

  /**
   * What a fresh scope tracks when the pass commits: every stored row, the
   * overwritten update targets in place of their rows, the deleted ones gone.
   */
  function PassEntities(rows: map<int, Workflow>, d: Diff): map<int, Workflow> {
    (rows + TableOf(d.toUpdate)) - WorkflowIds(d.toDelete)
  }

  /** The commit at the end of a pass over `rows` that computed `d`. */
  function PassCommit(rows: map<int, Workflow>, d: Diff): Result<Committed, DbError> {
    Commit(rows, PassStaged(d), PassEntities(rows, d))
  }

  /**
   * The table after a pass over `rows` that read the listing `local`, or the
   * commit's refusal. With all three lists empty there is no SaveChanges at all.
   */
  function PassOutcome(rows: map<int, Workflow>, remote: seq<WorkflowDto>, local: seq<Workflow>): (r: Result<map<int, Workflow>, DbError>)
    ensures r.Failure? ==> PassCommit(rows, ComputeDiff(remote, local)).Failure?
    ensures remote == [] && local == [] ==> r == Success(rows)
  {
    var d := ComputeDiff(remote, local);
    if d.toInsert == [] && d.toDelete == [] && d.toUpdate == [] then Success(rows)
    else
      match PassCommit(rows, d)
      case Failure(e) => Failure(e)
      case Success(c) => Success(c.rows)
  }

  /** A list that agrees with Overwritten element by element is Overwritten. */
  lemma OverwrittenElements(targets: seq<Workflow>, remote: seq<WorkflowDto>, updated: seq<Workflow>)
    requires forall w :: w in targets ==> w.workflowId in RemoteIds(remote)
    requires |updated| == |targets|
    requires forall j :: 0 <= j < |targets| ==>
               updated[j] == Overwrite(targets[j], FirstWithId(remote, targets[j].workflowId).value)
    ensures updated == Overwritten(targets, remote)
  {
  }

  /** A pass stages its changes onto an empty unit of work. */
  lemma StagedFromEmpty(d: Diff)
    ensures [] + AddedAll(d.toInsert) + DeletedAll(d.toDelete) == PassStaged(d)
  {
  }

  /** When the pass commits, its outcome is that of the one SaveChanges it makes. */
  lemma SaveIsPassOutcome(rows: map<int, Workflow>, remote: seq<WorkflowDto>, local: seq<Workflow>)
    ensures var d := ComputeDiff(remote, local);
            var s := Save(true, rows, PassStaged(d), PassEntities(rows, d));
            var outcome := PassOutcome(rows, remote, local);
            d.toInsert != [] || d.toDelete != [] || d.toUpdate != [] ==>
              && (outcome.Success? <==> s.result.Success?)
              && (outcome.Success? ==> outcome.value == s.rows)
              && (outcome.Failure? ==> s.result == Failure(outcome.error) && s.rows == rows)
  {
    var d := ComputeDiff(remote, local);
    var staged, entities := PassStaged(d), PassEntities(rows, d);
    if !HasChanges(rows, staged, entities) {
      SaveSkipsEmptyCommit(true, rows, staged, entities);
    }
  }

  /** Entering one more overwritten record keeps the tracked entities equal to the start overlaid with the list so far. */
  lemma OverwriteStep(start: map<int, Workflow>, updated: seq<Workflow>, w: Workflow)
    ensures (start + TableOf(updated))[w.workflowId := w] == start + TableOf(updated + [w])
  {
    TableOfSnoc(updated, w);
    UnionUpdate(start, TableOf(updated), w.workflowId, w);
  }

  /**
   * The update loop: every target, which is a tracked entity, gets the name,
   * the active flag and the execution behaviour of the first remote record
   * with its id. The targets are the tracked entities themselves, so the
   * overwritten values are what the context tracks once the loop is done.
   */
  method OverwriteTracked(db: DbContext, targets: seq<Workflow>, remote: seq<WorkflowDto>) returns (updated: seq<Workflow>)
    requires db.Valid()
    requires forall w :: w in targets ==> w.workflowId in RemoteIds(remote)
    modifies db`entities
    ensures db.Valid()
    ensures updated == Overwritten(targets, remote)
    ensures db.entities == old(db.entities) + TableOf(updated)
  {
    var tracked;
    updated, tracked := OverwriteEach(db.entities, targets, remote);
    TableOfKeys(updated);
    db.entities := tracked;
  }

  /** The loop itself, over the tracked entities `start`: the overwritten targets, and `start` with them entered. */
  method OverwriteEach(start: map<int, Workflow>, targets: seq<Workflow>, remote: seq<WorkflowDto>)
    returns (updated: seq<Workflow>, tracked: map<int, Workflow>)
    requires forall w :: w in targets ==> w.workflowId in RemoteIds(remote)
    ensures updated == Overwritten(targets, remote)
    ensures tracked == start + TableOf(updated)
  {
    tracked := start;
    updated := [];
    for i := 0 to |targets|
      invariant |updated| == i
      invariant forall j :: 0 <= j < i ==>
                  updated[j] == Overwrite(targets[j], FirstWithId(remote, targets[j].workflowId).value)
      invariant tracked == start + TableOf(updated)
    {
      var api := FirstWithId(remote, targets[i].workflowId).value;
      var w := Overwrite(targets[i], api);
      OverwriteStep(start, updated, w);
      tracked := tracked[w.workflowId := w];
      updated := updated + [w];
    }
    OverwrittenElements(targets, remote, updated);
  }

  /**
   * The part of a pass after the read: classify the listing against the
   * snapshot, overwrite the tracked update targets, and hand the lists to the
   * service. The listing is what the context read, so its records are the
   * tracked entities themselves; the context holds nothing staged.
   */
  method ApplyDiff(service: WorkflowsService, remote: seq<WorkflowDto>, local: seq<Workflow>) returns (d: Diff, r: Result<(), DbError>)
    requires service.Valid() && service.db.database.reachable
    requires service.db.staged == [] && service.db.entities == service.db.database.rows
    requires IsListingOf(local, service.db.database.rows)
    modifies service.db`entities, service.db`staged, service.db`calls, service.db.database`rows
    ensures service.Valid()
    ensures d == ComputeDiff(remote, local)
    ensures service.db.calls == old(service.db.calls) + SyncCalls(d.toInsert, d.toDelete, d.toUpdate)
    ensures var outcome := PassOutcome(old(service.db.database.rows), remote, local);
            if outcome.Success? then r == Success(()) && service.db.database.rows == outcome.value
            else r == Failure(outcome.error) && service.db.database.rows == old(service.db.database.rows)
  {
    var db := service.db;
    ghost var rows := db.database.rows;
    d := ComputeDiff(remote, local);
    var targets := KeepWhere(local, RemoteIds(remote), true);
    var upd := OverwriteTracked(db, targets, remote);
    assert upd == d.toUpdate;
    var ins, del := d.toInsert, d.toDelete;
    StagedFromEmpty(d);
    r := service.SyncWorkflowsFromApi(ins, del, upd);
    assert db.entities == PassEntities(rows, d);
    if ins == [] && del == [] && upd == [] {
      assert PassOutcome(rows, remote, local) == Success(rows);
    } else {
      SaveIsPassOutcome(rows, remote, local);
    }
  }

  /**
   * One pass against a remote snapshot, in a scope created for it: the listing
   * read, the lists computed from it, and the commit of all of them together.
   * An unreachable table fails the pass at the first query.
   */
  method RunPass(service: WorkflowsService, remote: seq<WorkflowDto>) returns (local: seq<Workflow>, d: Diff, r: Result<(), DbError>)
    requires service.Valid() && service.db.Fresh()
    modifies service.db`entities, service.db`staged, service.db`calls, service.db.database`rows
    ensures service.Valid()
    ensures !service.db.database.reachable ==>
              r == Failure(Unreachable) && service.db.database.rows == old(service.db.database.rows)
    ensures service.db.database.reachable ==>
              && IsListingOf(local, old(service.db.database.rows))
              && d == ComputeDiff(remote, local)
              && service.db.calls == old(service.db.calls) + [ToListCall] + SyncCalls(d.toInsert, d.toDelete, d.toUpdate)
    ensures service.db.database.reachable ==>
              var outcome := PassOutcome(old(service.db.database.rows), remote, local);
              if outcome.Success? then r == Success(()) && service.db.database.rows == outcome.value
              else r == Failure(outcome.error) && service.db.database.rows == old(service.db.database.rows)
  {
    d := Diff([], [], []);
    local := [];
    assert Agrees(service.db.entities, service.db.database.rows);
    var all := service.GetAllWorkflows();
    if all.Failure? {
      return local, d, Failure(all.error);
    }
    local := all.value;
    d, r := ApplyDiff(service, remote, local);
  }
}
