/**
 * What a pass achieves. From any valid table and any listing of it, a pass
 * against a snapshot with distinct ids and values the table accepts leaves
 * exactly the snapshot's workflows in the table; a second pass against the
 * same snapshot finds nothing to insert or delete and writes no row.
 */
module Convergence {
  import opened Wrappers
  import opened Domain
  import opened Reconcile
  import opened Store
  import opened SyncPass

  /** The table a snapshot asks for: one row per remote id, built from the first record with that id. */
  function RemoteTable(remote: seq<WorkflowDto>): (t: map<int, Workflow>)
    ensures t.Keys == RemoteIds(remote)
    ensures KeyedById(t)
  {
    map k | k in RemoteIds(remote) :: FromDto(FirstWithId(remote, k).value)
  }

  /** The table a mirrorable snapshot asks for is one the table accepts. */
  lemma RemoteTableValid(remote: seq<WorkflowDto>)
    requires forall d :: d in remote ==> DtoFitsSchema(d)
    ensures ValidTable(RemoteTable(remote))
  {
  }

  /** A snapshot the table can mirror: no id twice, and every value within its column. */
  predicate Mirrorable(remote: seq<WorkflowDto>) {
    DistinctRemoteIds(remote) && forall d :: d in remote ==> DtoFitsSchema(d)
  }

  /** With distinct ids, the first record with a record's id is that record. */
  lemma FirstOfDistinct(remote: seq<WorkflowDto>, d: WorkflowDto)
    requires DistinctRemoteIds(remote) && d in remote
    ensures FirstWithId(remote, d.id) == Some(d)
  {
    var k :| 0 <= k < |remote| && remote[k] == d;
    assert forall j :: 0 <= j < k ==> remote[j].id != d.id;
  }

  /** Every new entity of a pass is built from the first remote record with its id. */
  lemma InsertsFromFirst(remote: seq<WorkflowDto>, dbIds: set<int>)
    requires DistinctRemoteIds(remote)
    ensures forall w :: w in ToInsert(remote, dbIds) ==>
              w.workflowId in RemoteIds(remote) && w == FromDto(FirstWithId(remote, w.workflowId).value)
  {
    forall w | w in ToInsert(remote, dbIds)
      ensures w.workflowId in RemoteIds(remote) && w == FromDto(FirstWithId(remote, w.workflowId).value)
    {
      var d :| d in remote && FromDto(d) == w;
      FirstOfDistinct(remote, d);
    }
  }

  /** Every overwritten update target is built from the first remote record with its id. */
  lemma UpdatesFromFirst(targets: seq<Workflow>, remote: seq<WorkflowDto>)
    requires forall w :: w in targets ==> w.workflowId in RemoteIds(remote)
    ensures forall w :: w in Overwritten(targets, remote) ==>
              w.workflowId in RemoteIds(remote) && w == FromDto(FirstWithId(remote, w.workflowId).value)
  {
    var upd := Overwritten(targets, remote);
    forall w | w in upd
      ensures w.workflowId in RemoteIds(remote) && w == FromDto(FirstWithId(remote, w.workflowId).value)
    {
      var i :| 0 <= i < |upd| && upd[i] == w;
      assert targets[i] in targets;
    }
  }

  /**
   * A list whose every record is the one the snapshot asks for under its id
   * enters those records into the table, whatever their order or repetition.
   */
  lemma {:induction false} TableOfFromSnapshot(ws: seq<Workflow>, remote: seq<WorkflowDto>)
    requires forall w :: w in ws ==>
               w.workflowId in RemoteIds(remote) && w == FromDto(FirstWithId(remote, w.workflowId).value)
    ensures TableOf(ws).Keys == WorkflowIds(ws)
    ensures forall k :: k in TableOf(ws) ==> TableOf(ws)[k] == RemoteTable(remote)[k]
  {
    TableOfKeys(ws);
    if ws != [] {
      var init, last := ws[..|ws| - 1], ws[|ws| - 1];
      assert forall w :: w in init ==> w in ws;
      assert last in ws;
      TableOfFromSnapshot(init, remote);
    }
  }

  /** The keys a pass stages a change for: its inserts and its deletes. */
  lemma PassStagedKeys(d: Diff)
    ensures StagedKeys(PassStaged(d)) == WorkflowIds(d.toInsert) + WorkflowIds(d.toDelete)
  {
    var staged := PassStaged(d);
    var a, b := AddedAll(d.toInsert), DeletedAll(d.toDelete);
    forall k | k in StagedKeys(staged) ensures k in WorkflowIds(d.toInsert) + WorkflowIds(d.toDelete) {
      var c :| c in staged && ChangedKey(c) == k;
      var i :| 0 <= i < |staged| && staged[i] == c;
      if i < |a| {
        assert d.toInsert[i] in d.toInsert;
      } else {
        assert d.toDelete[i - |a|] in d.toDelete;
      }
    }
    forall k | k in WorkflowIds(d.toInsert) + WorkflowIds(d.toDelete) ensures k in StagedKeys(staged) {
      if k in WorkflowIds(d.toInsert) {
        var i :| 0 <= i < |d.toInsert| && d.toInsert[i].workflowId == k;
        assert staged[i] == Added(d.toInsert[i]);
        assert staged[i] in staged && ChangedKey(staged[i]) == k;
      } else {
        var i :| 0 <= i < |d.toDelete| && d.toDelete[i].workflowId == k;
        assert staged[|a| + i] == Deleted(k);
        assert staged[|a| + i] in staged && ChangedKey(staged[|a| + i]) == k;
      }
    }
  }

  /** The staged inserts and deletes of a pass all go through. */
  lemma PassApplied(rows: map<int, Workflow>, remote: seq<WorkflowDto>, local: seq<Workflow>)
    requires ValidTable(rows) && IsListingOf(local, rows) && Mirrorable(remote)
    ensures var d := ComputeDiff(remote, local);
            ApplyChanges(rows, PassStaged(d)) == Success((rows + TableOf(d.toInsert)) - WorkflowIds(d.toDelete))
  {
    var d := ComputeDiff(remote, local);
    var ins, del := d.toInsert, d.toDelete;
    ToInsertDistinct(remote, WorkflowIds(local));
    KeepWhereDistinct(local, RemoteIds(remote), false);
    forall w | w in ins ensures FitsSchema(w) {
      var dto :| dto in remote && FromDto(dto) == w;
    }
    ApplyAddedAll(rows, ins);
    ApplyDeletedAll(rows + TableOf(ins), del);
    ApplyChangesAppend(rows, AddedAll(ins), DeletedAll(del));
  }

  /** After the update loop, every tracked entity the pass keeps holds the snapshot's record. */
  lemma PassEntitiesMirror(rows: map<int, Workflow>, remote: seq<WorkflowDto>, local: seq<Workflow>)
    requires IsListingOf(local, rows)
    ensures var d := ComputeDiff(remote, local);
            var entities := PassEntities(rows, d);
            && entities.Keys == rows.Keys * RemoteIds(remote)
            && forall k :: k in entities ==> k in RemoteTable(remote) && entities[k] == RemoteTable(remote)[k]
  {
    var d := ComputeDiff(remote, local);
    var targets := KeepWhere(local, RemoteIds(remote), true);
    UpdatesFromFirst(targets, remote);
    TableOfFromSnapshot(d.toUpdate, remote);
    OverlayAgrees(rows, TableOf(d.toUpdate), WorkflowIds(d.toDelete), RemoteTable(remote));
  }

  /** Overlaying rows with a map that agrees with `target` and covers every row not dropped agrees with `target`. */
  lemma OverlayAgrees(rows: map<int, Workflow>, t: map<int, Workflow>, dropped: set<int>, target: map<int, Workflow>)
    requires rows.Keys - dropped <= t.Keys
    requires forall k :: k in t ==> k in target && t[k] == target[k]
    ensures forall k :: k in (rows + t) - dropped ==> k in target && ((rows + t) - dropped)[k] == target[k]
  {
  }

  /**
   * The table a commit leaves when the inserts bring the missing rows, the
   * deletes remove the surplus ones, and every row that stays is either
   * already right or modified to the right value.
   */
  lemma MirrorFromParts(
    rows: map<int, Workflow>, inserted: map<int, Workflow>, deleted: set<int>,
    entities: map<int, Workflow>, staged: seq<Change>, target: map<int, Workflow>)
    requires inserted.Keys == target.Keys - rows.Keys && deleted == rows.Keys - target.Keys
    requires StagedKeys(staged) == inserted.Keys + deleted
    requires entities.Keys == rows.Keys * target.Keys
    requires forall k :: k in inserted ==> k in target && inserted[k] == target[k]
    requires forall k :: k in entities ==> k in target && entities[k] == target[k]
    ensures (rows + inserted) - deleted + Dirty(rows, entities, staged) == target
  {
    var after, dirty := (rows + inserted) - deleted, Dirty(rows, entities, staged);
    assert (after + dirty).Keys == target.Keys;
    forall k | k in target ensures (after + dirty)[k] == target[k] {
      if k !in rows {
        assert k in inserted;
      } else if k !in dirty {
        assert k in entities && k !in StagedKeys(staged);
      }
    }
  }

  /**
   * Convergence: from a valid table and any listing of it, a pass against a
   * snapshot the table can mirror leaves the table equal to the snapshot.
   */
  lemma PassConverges(rows: map<int, Workflow>, remote: seq<WorkflowDto>, local: seq<Workflow>)
    requires ValidTable(rows) && IsListingOf(local, rows) && Mirrorable(remote)
    ensures PassOutcome(rows, remote, local) == Success(RemoteTable(remote))
  {
    var d := ComputeDiff(remote, local);
    var target := RemoteTable(remote);
    var staged, entities := PassStaged(d), PassEntities(rows, d);
    var inserted := TableOf(d.toInsert);
    PassApplied(rows, remote, local);
    PassEntitiesMirror(rows, remote, local);
    PassStagedKeys(d);
    InsertsFromFirst(remote, rows.Keys);
    TableOfFromSnapshot(d.toInsert, remote);
    var dirty := Dirty(rows, entities, staged);
    assert forall k :: k in dirty ==> FitsSchema(dirty[k]) by {
      forall k | k in dirty ensures FitsSchema(dirty[k]) {
        assert dirty[k] == target[k];
      }
    }
    CommitOfApplied(rows, staged, entities, (rows + inserted) - WorkflowIds(d.toDelete));
    MirrorFromParts(rows, inserted, WorkflowIds(d.toDelete), entities, staged, target);
    if d.toInsert == [] && d.toDelete == [] && d.toUpdate == [] {
      assert RemoteIds(remote) == {} && rows.Keys == {};
      assert rows == target;
    }
  }

  /** Against a table that mirrors the snapshot, there is nothing to insert and nothing to delete. */
  lemma NothingMissingNothingSurplus(remote: seq<WorkflowDto>, local: seq<Workflow>)
    requires IsListingOf(local, RemoteTable(remote))
    ensures ComputeDiff(remote, local).toInsert == [] && ComputeDiff(remote, local).toDelete == []
  {
    var d := ComputeDiff(remote, local);
    NoIdsNoRecords(d.toInsert);
    NoIdsNoRecords(d.toDelete);
  }

  /** Against a table that mirrors the snapshot, the overwritten entities agree with the stored rows. */
  lemma MirrorAgrees(remote: seq<WorkflowDto>, local: seq<Workflow>)
    requires IsListingOf(local, RemoteTable(remote))
    ensures Agrees(PassEntities(RemoteTable(remote), ComputeDiff(remote, local)), RemoteTable(remote))
  {
    PassEntitiesMirror(RemoteTable(remote), remote, local);
  }

  /** Against a table that mirrors a snapshot with distinct ids, every remote record is an update. */
  lemma UpdatesEveryRemote(remote: seq<WorkflowDto>, local: seq<Workflow>)
    requires Mirrorable(remote) && IsListingOf(local, RemoteTable(remote))
    ensures |ComputeDiff(remote, local).toUpdate| == |remote|
  {
    NothingMissingNothingSurplus(remote, local);
    DiffCounts(remote, local);
  }

  /**
   * Idempotence: once the table mirrors the snapshot, a second pass against the
   * same snapshot, whatever order the listing comes in, inserts nothing,
   * deletes nothing and writes no row.
   */
  lemma SecondPassWritesNothing(remote: seq<WorkflowDto>, local: seq<Workflow>)
    requires Mirrorable(remote) && IsListingOf(local, RemoteTable(remote))
    ensures var d := ComputeDiff(remote, local);
            && d.toInsert == [] && d.toDelete == []
            && PassCommit(RemoteTable(remote), d) == Success(Committed(RemoteTable(remote), 0))
  {
    var target := RemoteTable(remote);
    var d := ComputeDiff(remote, local);
    NothingMissingNothingSurplus(remote, local);
    MirrorAgrees(remote, local);
    NothingStaged(d);
    NothingToCommit(target, PassEntities(target, d));
  }

  /** With no insert and no delete, a pass stages nothing. */
  lemma NothingStaged(d: Diff)
    requires d.toInsert == [] && d.toDelete == []
    ensures PassStaged(d) == []
  {
    assert AddedAll(d.toInsert) == [] && DeletedAll(d.toDelete) == [];
  }

  /** A pass that finds the table already mirroring the snapshot leaves it as it is. */
  lemma MirroredIsFixpoint(remote: seq<WorkflowDto>, local: seq<Workflow>)
    requires Mirrorable(remote) && IsListingOf(local, RemoteTable(remote))
    ensures PassOutcome(RemoteTable(remote), remote, local) == Success(RemoteTable(remote))
  {
    RemoteTableValid(remote);
    PassConverges(RemoteTable(remote), remote, local);
  }
}
