/**
 * The data-access service: each operation goes through one scope's context,
 * and any failure is passed on to the caller unchanged after being logged.
 */
module WorkflowsServices {
  import opened Wrappers
  import opened Domain
  import opened Store

  /**
   * The calls SyncWorkflowsFromApiAsync makes on the context: the inserts and
   * the deletes when there are any, then one SaveChanges when any of the three
   * lists is non-empty. The update list is never handed to the context: its
   * entities are tracked already and change detection finds their new values.
   */
  function SyncCalls(ins: seq<Workflow>, del: seq<Workflow>, upd: seq<Workflow>): seq<DbCall> {
    (if ins != [] then [AddRangeCall(ins)] else [])
    + (if del != [] then [RemoveRangeCall(del)] else [])
    + (if ins != [] || del != [] || upd != [] then [SaveChangesCall] else [])
  }

  /** One SaveChanges exactly when there is something to write: the last call, and no other call is one. */
  lemma SyncCallsSave(ins: seq<Workflow>, del: seq<Workflow>, upd: seq<Workflow>)
    ensures SaveChangesCall in SyncCalls(ins, del, upd) <==> ins != [] || del != [] || upd != []
    ensures SaveChangesCall in SyncCalls(ins, del, upd) ==>
              && SyncCalls(ins, del, upd)[|SyncCalls(ins, del, upd)| - 1] == SaveChangesCall
              && SaveChangesCall !in SyncCalls(ins, del, upd)[..|SyncCalls(ins, del, upd)| - 1]
  {
    var calls := SyncCalls(ins, del, upd);
    if ins != [] && del != [] {
      assert calls == [AddRangeCall(ins), RemoveRangeCall(del), SaveChangesCall];
    } else if ins != [] {
      assert calls == [AddRangeCall(ins), SaveChangesCall];
    } else if del != [] {
      assert calls == [RemoveRangeCall(del), SaveChangesCall];
    } else if upd != [] {
      assert calls == [SaveChangesCall];
    } else {
      assert calls == [];
    }
  }

  /** An AddRange exactly when there are inserts, a RemoveRange exactly when there are deletes, no call at all when all three lists are empty. */
  lemma SyncCallsWrites(ins: seq<Workflow>, del: seq<Workflow>, upd: seq<Workflow>)
    ensures AddRangeCall(ins) in SyncCalls(ins, del, upd) <==> ins != []
    ensures RemoveRangeCall(del) in SyncCalls(ins, del, upd) <==> del != []
    ensures SyncCalls(ins, del, upd) == [] <==> ins == [] && del == [] && upd == []
  {
    var calls := SyncCalls(ins, del, upd);
    if ins != [] && del != [] {
      assert calls == [AddRangeCall(ins), RemoveRangeCall(del), SaveChangesCall];
    } else if ins != [] {
      assert calls == [AddRangeCall(ins), SaveChangesCall];
    } else if del != [] {
      assert calls == [RemoveRangeCall(del), SaveChangesCall];
    } else if upd != [] {
      assert calls == [SaveChangesCall];
    } else {
      assert calls == [];
    }
  }

  /** Besides SaveChanges, only the AddRange of the inserts and the RemoveRange of the deletes: never an UpdateRange or Update. */
  lemma SyncCallsOnly(ins: seq<Workflow>, del: seq<Workflow>, upd: seq<Workflow>)
    ensures forall c :: c in SyncCalls(ins, del, upd) ==> c == AddRangeCall(ins) || c == RemoveRangeCall(del) || c == SaveChangesCall
  {
    var calls := SyncCalls(ins, del, upd);
    forall c | c in calls ensures c == AddRangeCall(ins) || c == RemoveRangeCall(del) || c == SaveChangesCall {
      var i :| 0 <= i < |calls| && calls[i] == c;
    }
  }

  class WorkflowsService {
    const db: DbContext

    ghost predicate Valid()
      reads this, db, db.database
    {
      db.Valid()
    }

    constructor (db: DbContext)
      requires db.Valid()
      ensures Valid() && this.db == db
    {
      this.db := db;
    }

    /** GetAllWorkflowsAsync: every stored workflow, or the query's failure. */
    method GetAllWorkflows() returns (r: Result<seq<Workflow>, DbError>)
      requires Valid()
      modifies db`entities, db`calls
      ensures Valid() && db.calls == old(db.calls) + [ToListCall]
      ensures !db.database.reachable ==> r == Failure(Unreachable) && db.entities == old(db.entities)
      ensures db.database.reachable ==>
                && r.Success?
                && IsListingOf(r.value, Loaded(db.database.rows, old(db.entities)))
                && db.entities == old(db.entities) + Loaded(db.database.rows, old(db.entities))
    {
      r := db.ToList();
    }

    /** GetWorkflowByIdAsync: the workflow with that id, none when there is no such row, or the failure. */
    method GetWorkflowById(workflowId: Int32) returns (r: Result<Option<Workflow>, DbError>)
      requires Valid()
      modifies db`entities, db`calls
      ensures Valid() && db.calls == old(db.calls) + [FindCall(workflowId)]
      ensures workflowId in old(db.entities) ==> r == Success(Some(old(db.entities)[workflowId]))
      ensures workflowId !in old(db.entities) ==>
                if !db.database.reachable then r == Failure(Unreachable)
                else if workflowId in db.database.rows then r == Success(Some(db.database.rows[workflowId]))
                else r == Success(None)
    {
      r := db.Find(workflowId);
    }

    /** CreateWorkflowAsync: stages the insert and commits it; returns the entity or the failure. */
    method CreateWorkflow(w: Workflow) returns (r: Result<Workflow, DbError>)
      requires Valid()
      modifies db`staged, db`calls, db.database`rows
      ensures Valid() && db.calls == old(db.calls) + [AddCall(w), SaveChangesCall]
      ensures var s := Save(db.database.reachable, old(db.database.rows), old(db.staged) + [Added(w)], db.entities);
              && db.entities == old(db.entities)
              && db.database.rows == s.rows && db.staged == s.staged
              && r == (if s.result.Success? then Success(w) else Failure(s.result.error))
    {
      db.Add(w);
      var saved := db.SaveChanges();
      if saved.Failure? {
        return Failure(saved.error);
      }
      r := Success(w);
    }

    /** UpdateWorkflowAsync: attaches the entity as modified and commits; returns it or the failure. */
    method UpdateWorkflow(w: Workflow) returns (r: Result<Workflow, DbError>)
      requires Valid()
      modifies db`entities, db`staged, db`calls, db.database`rows
      ensures Valid() && db.calls == old(db.calls) + [UpdateCall(w), SaveChangesCall]
      ensures db.entities == old(db.entities)[w.workflowId := w]
      ensures var s := Save(db.database.reachable, old(db.database.rows), old(db.staged) + [Modified(w)], db.entities);
              && db.database.rows == s.rows && db.staged == s.staged
              && r == (if s.result.Success? then Success(w) else Failure(s.result.error))
    {
      db.Update(w);
      var saved := db.SaveChanges();
      if saved.Failure? {
        return Failure(saved.error);
      }
      r := Success(w);
    }

    /**
     * DeleteWorkflowAsync: finds the workflow and, when there is one, removes it
     * and commits. From a context with nothing pending, the row goes and every
     * other row stays; an id with no row is not an error.
     */
    method DeleteWorkflow(workflowId: Int32) returns (r: Result<(), DbError>)
      requires Valid()
      modifies db`entities, db`staged, db`calls, db.database`rows
      ensures Valid()
      ensures old(db.InSync()) && !db.database.reachable ==>
                r == Failure(Unreachable) && db.database.rows == old(db.database.rows)
      ensures old(db.InSync()) && db.database.reachable ==>
                && r == Success(())
                && db.database.rows == old(db.database.rows) - {workflowId}
                && db.InSync()
      ensures |db.calls| > |old(db.calls)| && db.calls[..|old(db.calls)| + 1] == old(db.calls) + [FindCall(workflowId)]
      ensures old(db.InSync()) && db.database.reachable && workflowId in old(db.database.rows) ==>
                db.calls[|db.calls| - 1] == SaveChangesCall
      ensures old(db.InSync()) && db.database.reachable && workflowId !in old(db.database.rows) ==>
                db.calls == old(db.calls) + [FindCall(workflowId)]
    {
      ghost var sync, reachable := db.InSync(), db.database.reachable;
      ghost var rows, entities := db.database.rows, db.entities;
      if sync && reachable && workflowId in rows {
        TracksLoad(entities, rows, workflowId);
      }
      var found := db.Find(workflowId);
      if found.Failure? {
        return Failure(found.error);
      }
      if found.value.Some? {
        var w := found.value.value;
        ghost var loaded := db.entities;
        db.Remove(w);
        if sync {
          assert workflowId in rows && w == rows[workflowId];
          TracksRemove(loaded, rows, workflowId);
          assert db.staged == [Deleted(workflowId)];
          DeleteSave(reachable, rows, loaded, workflowId);
        }
        var saved := db.SaveChanges();
        if saved.Failure? {
          return Failure(saved.error);
        }
      } else if sync && reachable {
        assert rows - {workflowId} == rows;
      }
      r := Success(());
    }

    /** SaveChangesAsync: commits whatever the context holds and reports the rows written. */
    method SaveChanges() returns (r: Result<nat, DbError>)
      requires Valid()
      modifies db`staged, db`calls, db.database`rows
      ensures Valid() && db.calls == old(db.calls) + [SaveChangesCall]
      ensures var s := Save(db.database.reachable, old(db.database.rows), old(db.staged), db.entities);
              r == s.result && db.database.rows == s.rows && db.staged == s.staged
    {
      r := db.SaveChanges();
    }

    /**
     * SyncWorkflowsFromApiAsync: stages the inserts and the deletes and commits
     * them together with the tracked entities the caller overwrote, in one
     * SaveChanges; nothing is called when all three lists are empty.
     */
    method SyncWorkflowsFromApi(ins: seq<Workflow>, del: seq<Workflow>, upd: seq<Workflow>) returns (r: Result<(), DbError>)
      requires Valid()
      modifies db`entities, db`staged, db`calls, db.database`rows
      ensures Valid() && db.calls == old(db.calls) + SyncCalls(ins, del, upd)
      ensures db.entities == old(db.entities) - WorkflowIds(del)
      ensures ins == [] && del == [] && upd == [] ==>
                r == Success(()) && db.database.rows == old(db.database.rows) && db.staged == old(db.staged)
      ensures ins != [] || del != [] || upd != [] ==>
                var s := Save(db.database.reachable, old(db.database.rows),
                              old(db.staged) + AddedAll(ins) + DeletedAll(del), db.entities);
                && db.database.rows == s.rows && db.staged == s.staged
                && r == (if s.result.Success? then Success(()) else Failure(s.result.error))
    {
      ghost var staged0, calls0 := db.staged, db.calls;
      ghost var adds: seq<DbCall> := if ins != [] then [AddRangeCall(ins)] else [];
      ghost var removes: seq<DbCall> := if del != [] then [RemoveRangeCall(del)] else [];
      ghost var saves: seq<DbCall> := if ins != [] || del != [] || upd != [] then [SaveChangesCall] else [];
      assert SyncCalls(ins, del, upd) == adds + removes + saves;
      if ins != [] {
        db.AddRange(ins);
      } else {
        assert AddedAll(ins) == [];
      }
      if del != [] {
        db.RemoveRange(del);
      } else {
        assert DeletedAll(del) == [] && WorkflowIds(del) == {};
      }
      assert db.staged == staged0 + AddedAll(ins) + DeletedAll(del);
      assert db.calls == calls0 + adds + removes;
      if ins != [] || del != [] || upd != [] {
        var saved := db.SaveChanges();
        assert db.calls == calls0 + adds + removes + saves;
        if saved.Failure? {
          return Failure(saved.error);
        }
      }
      r := Success(());
    }
  }
}
