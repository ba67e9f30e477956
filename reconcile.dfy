/**
 * The reconciliation engine: classification of a remote snapshot and a local
 * listing into the insert, delete and update lists, and the values the update
 * targets take when overwritten from the remote side. The source writes this
 * twice, in WorkflowsController.SyncWorkflows and in
 * WorkflowSyncService.SyncWorkflowsAsync; both are modelled by this one module.
 */
module Reconcile {
  import opened Wrappers
  import opened Domain

  /** The three lists handed to the apply step. */
  datatype Diff = Diff(toInsert: seq<Workflow>, toDelete: seq<Workflow>, toUpdate: seq<Workflow>)

  /** One new entity for every remote record whose id is not among `dbIds`, in remote order. */
  function ToInsert(remote: seq<WorkflowDto>, dbIds: set<int>): (r: seq<Workflow>)
    ensures |r| <= |remote|
    ensures forall d :: d in remote && d.id !in dbIds ==> FromDto(d) in r
    ensures forall w :: w in r ==> w.workflowId !in dbIds && exists d :: d in remote && FromDto(d) == w
  {
    if remote == [] then []
    else
      var rest := ToInsert(remote[1..], dbIds);
      if remote[0].id in dbIds then rest else [FromDto(remote[0])] + rest
  }

  /**
   * One new entity per remote record whose id is not stored: the entity built
   * from a record occurs as often as that record does, and none is built from a
   * record whose id is stored.
   */
  lemma {:induction false} ToInsertMultiplicity(remote: seq<WorkflowDto>, dbIds: set<int>, d: WorkflowDto)
    ensures multiset(ToInsert(remote, dbIds))[FromDto(d)] == if d.id in dbIds then 0 else multiset(remote)[d]
  {
    if remote != [] {
      ToInsertMultiplicity(remote[1..], dbIds, d);
      ToInsertStep(remote, dbIds, d);
      RecordCountStep(remote, d);
    }
  }

  /** The first remote record adds its entity, once, when its id is not stored. */
  lemma ToInsertStep(remote: seq<WorkflowDto>, dbIds: set<int>, d: WorkflowDto)
    requires remote != []
    ensures multiset(ToInsert(remote, dbIds))[FromDto(d)]
            == multiset(ToInsert(remote[1..], dbIds))[FromDto(d)] + if remote[0] == d && d.id !in dbIds then 1 else 0
  {
    var tail := ToInsert(remote[1..], dbIds);
    if remote[0].id !in dbIds {
      assert ToInsert(remote, dbIds) == [FromDto(remote[0])] + tail;
      assert multiset([FromDto(remote[0])] + tail) == multiset([FromDto(remote[0])]) + multiset(tail);
    }
  }

  /** The occurrences of a record in a list: one for the head if it is that record, then those in the tail. */
  lemma RecordCountStep(remote: seq<WorkflowDto>, d: WorkflowDto)
    requires remote != []
    ensures multiset(remote)[d] == multiset(remote[1..])[d] + if remote[0] == d then 1 else 0
  {
    assert remote == [remote[0]] + remote[1..];
    assert multiset(remote) == multiset([remote[0]]) + multiset(remote[1..]);
  }

  /** Distinct remote ids give distinct new entities. */
  lemma {:induction false} ToInsertDistinct(remote: seq<WorkflowDto>, dbIds: set<int>)
    requires DistinctRemoteIds(remote)
    ensures DistinctIds(ToInsert(remote, dbIds))
  {
    if remote != [] {
      var rest := remote[1..];
      assert DistinctRemoteIds(rest) by {
        forall i, j | 0 <= i < j < |rest| ensures rest[i].id != rest[j].id {
          assert rest[i] == remote[i + 1] && rest[j] == remote[j + 1];
        }
      }
      ToInsertDistinct(rest, dbIds);
      if remote[0].id !in dbIds {
        var tail := ToInsert(rest, dbIds);
        assert forall w :: w in tail ==> w.workflowId in RemoteIds(rest);
        assert remote[0].id !in RemoteIds(rest);
        DistinctIdsCons(FromDto(remote[0]), tail);
      }
    }
  }

  /**
   * The records of `ws` whose id is in `ids` (when `present`) or not in `ids`
   * (otherwise), in their original order.
   */
  function KeepWhere(ws: seq<Workflow>, ids: set<int>, present: bool): (r: seq<Workflow>)
    ensures forall w :: w in r <==> w in ws && (w.workflowId in ids) == present
    ensures |r| <= |ws|
  {
    if ws == [] then []
    else
      var rest := KeepWhere(ws[1..], ids, present);
      if (ws[0].workflowId in ids) == present then [ws[0]] + rest else rest
  }

  /** Filtering a list with distinct ids keeps them distinct. */
  lemma {:induction false} KeepWhereDistinct(ws: seq<Workflow>, ids: set<int>, present: bool)
    requires DistinctIds(ws)
    ensures DistinctIds(KeepWhere(ws, ids, present))
  {
    if ws != [] {
      DistinctIdsTail(ws);
      KeepWhereDistinct(ws[1..], ids, present);
      var rest := KeepWhere(ws[1..], ids, present);
      assert forall w :: w in rest ==> w.workflowId in WorkflowIds(ws[1..]);
      if (ws[0].workflowId in ids) == present {
        DistinctIdsCons(ws[0], rest);
      }
    }
  }

  /** The first remote record with the given id (LINQ `First`), if there is one. */
  function FirstWithId(remote: seq<WorkflowDto>, id: int): (r: Option<WorkflowDto>)
    ensures r.Some? <==> id in RemoteIds(remote)
    ensures r.Some? ==> r.value in remote && r.value.id == id
    ensures forall k :: 0 <= k < |remote| && remote[k].id == id && (forall j :: 0 <= j < k ==> remote[j].id != id)
                 ==> r == Some(remote[k])
  {
    if remote == [] then None
    else if remote[0].id == id then Some(remote[0])
    else
      var r := FirstWithId(remote[1..], id);
      assert forall k :: 1 <= k < |remote| ==> remote[k] == remote[1..][k - 1];
      r
  }

  /** A local record after the update step: id kept, the other three fields from the remote record. */
  function Overwrite(w: Workflow, d: WorkflowDto): (r: Workflow)
    ensures r.workflowId == w.workflowId
    ensures d.id == w.workflowId ==> r == FromDto(d)
  {
    w.(workflowName := d.name, isActive := d.isActive, multiExecBehavior := d.multiExecBehavior)
  }

  /** Every update target overwritten from the first remote record with its id. */
  function Overwritten(targets: seq<Workflow>, remote: seq<WorkflowDto>): (r: seq<Workflow>)
    requires forall w :: w in targets ==> w.workflowId in RemoteIds(remote)
    ensures |r| == |targets|
    ensures forall i :: 0 <= i < |targets| ==>
              r[i].workflowId == targets[i].workflowId
              && r[i] == FromDto(FirstWithId(remote, targets[i].workflowId).value)
  {
    seq(|targets|, i requires 0 <= i < |targets| =>
      Overwrite(targets[i], FirstWithId(remote, targets[i].workflowId).value))
  }

  /** The classification that both call sites compute from a remote snapshot and a local listing. */
  function ComputeDiff(remote: seq<WorkflowDto>, local: seq<Workflow>): (d: Diff)
    ensures WorkflowIds(d.toInsert) == RemoteIds(remote) - WorkflowIds(local)
    ensures WorkflowIds(d.toDelete) == WorkflowIds(local) - RemoteIds(remote)
    ensures WorkflowIds(d.toUpdate) == WorkflowIds(local) * RemoteIds(remote)
    ensures forall w :: w in d.toDelete <==> w in local && w.workflowId !in RemoteIds(remote)
    ensures |d.toDelete| + |d.toUpdate| == |local|
  {
    var apiIds, dbIds := RemoteIds(remote), WorkflowIds(local);
    var targets := KeepWhere(local, apiIds, true);
    InsertIds(remote, dbIds);
    KeepWhereIds(local, apiIds, false);
    KeepWhereIds(local, apiIds, true);
    KeepWhereCount(local, apiIds);
    OverwrittenIds(targets, remote);
    var ins, del, upd := ToInsert(remote, dbIds), KeepWhere(local, apiIds, false), Overwritten(targets, remote);
    Diff(ins, del, upd)
  }

  lemma OverwrittenIds(targets: seq<Workflow>, remote: seq<WorkflowDto>)
    requires forall w :: w in targets ==> w.workflowId in RemoteIds(remote)
    ensures WorkflowIds(Overwritten(targets, remote)) == WorkflowIds(targets)
  {
    var upd := Overwritten(targets, remote);
    forall x | x in WorkflowIds(targets) ensures x in WorkflowIds(upd) {
      var i :| 0 <= i < |targets| && targets[i].workflowId == x;
      assert upd[i] in upd;
    }
  }

  lemma InsertIds(remote: seq<WorkflowDto>, dbIds: set<int>)
    ensures WorkflowIds(ToInsert(remote, dbIds)) == RemoteIds(remote) - dbIds
  {
    var r := ToInsert(remote, dbIds);
    forall x | x in RemoteIds(remote) - dbIds ensures x in WorkflowIds(r) {
      var d :| d in remote && d.id == x;
      assert FromDto(d) in r;
    }
    forall x | x in WorkflowIds(r) ensures x in RemoteIds(remote) - dbIds {
      var w :| w in r && w.workflowId == x;
      var d :| d in remote && FromDto(d) == w;
      assert d.id == x;
    }
  }

  lemma KeepWhereIds(ws: seq<Workflow>, ids: set<int>, present: bool)
    ensures WorkflowIds(KeepWhere(ws, ids, present))
            == if present then WorkflowIds(ws) * ids else WorkflowIds(ws) - ids
  {
    var r := KeepWhere(ws, ids, present);
    forall x | x in (if present then WorkflowIds(ws) * ids else WorkflowIds(ws) - ids)
      ensures x in WorkflowIds(r)
    {
      var w :| w in ws && w.workflowId == x;
      assert w in r;
    }
  }

  lemma KeepWhereCount(ws: seq<Workflow>, ids: set<int>)
    ensures |KeepWhere(ws, ids, false)| + |KeepWhere(ws, ids, true)| == |ws|
  {
    KeepWherePartition(ws, ids);
    assert |multiset(KeepWhere(ws, ids, false)) + multiset(KeepWhere(ws, ids, true))| == |multiset(ws)|;
  }

  /** Delete and update targets split the local list: together they are exactly its records. */
  lemma {:induction false} KeepWherePartition(ws: seq<Workflow>, ids: set<int>)
    ensures multiset(KeepWhere(ws, ids, false)) + multiset(KeepWhere(ws, ids, true)) == multiset(ws)
  {
    if ws != [] {
      KeepWherePartition(ws[1..], ids);
      assert ws == [ws[0]] + ws[1..];
    }
  }

  /**
   * With distinct ids on both sides, each list is as long as its id class, and
   * every remote record is either inserted or matched by exactly one update.
   */
  lemma DiffCounts(remote: seq<WorkflowDto>, local: seq<Workflow>)
    requires DistinctRemoteIds(remote) && DistinctIds(local)
    ensures var d := ComputeDiff(remote, local);
      && |d.toInsert| == |RemoteIds(remote) - WorkflowIds(local)|
      && |d.toDelete| == |WorkflowIds(local) - RemoteIds(remote)|
      && |d.toUpdate| == |WorkflowIds(local) * RemoteIds(remote)|
      && |d.toInsert| + |d.toUpdate| == |remote|
      && |d.toDelete| + |d.toUpdate| == |local|
  {
    var R, L := RemoteIds(remote), WorkflowIds(local);
    var d := ComputeDiff(remote, local);
    var targets := KeepWhere(local, R, true);
    ToInsertDistinct(remote, L);
    KeepWhereDistinct(local, R, false);
    KeepWhereDistinct(local, R, true);
    DistinctIdsCardinality(d.toInsert);
    DistinctIdsCardinality(d.toDelete);
    DistinctIdsCardinality(targets);
    KeepWhereIds(local, R, true);
    assert |d.toUpdate| == |L * R|;
    DistinctRemoteIdsCardinality(remote);
    SplitCardinality(R, L);
  }

  lemma SplitCardinality(R: set<int>, L: set<int>)
    ensures |R - L| + |L * R| == |R|
  {
    assert (R - L) + (L * R) == R;
    assert (R - L) !! (L * R);
  }

  /** Two remote workflows against one stored one with the first id: one insert, one update, no delete. */
  lemma ScenarioInsertAndUpdate()
    ensures var d := ComputeDiff(
              [WorkflowDto(1, "API Workflow 1", true, "Allow"), WorkflowDto(2, "API Workflow 2", false, "Deny")],
              [Workflow(1, "DB Workflow 1", false, "Old")]);
      |d.toInsert| == 1 && |d.toDelete| == 0 && |d.toUpdate| == 1
      && d.toInsert[0] == Workflow(2, "API Workflow 2", false, "Deny")
      && d.toUpdate[0] == Workflow(1, "API Workflow 1", true, "Allow")
  {
    var a1, a2 := WorkflowDto(1, "API Workflow 1", true, "Allow"), WorkflowDto(2, "API Workflow 2", false, "Deny");
    var db1 := Workflow(1, "DB Workflow 1", false, "Old");
    assert RemoteIds([a1, a2]) == {1, 2};
    assert WorkflowIds([db1]) == {1};
    assert ToInsert([a1, a2], {1}) == [FromDto(a2)];
    assert KeepWhere([db1], {1, 2}, true) == [db1];
    assert FirstWithId([a1, a2], 1) == Some(a1);
  }

  /** An empty snapshot against one stored workflow: that workflow is deleted. */
  lemma ScenarioDeleteOnly()
    ensures var d := ComputeDiff([], [Workflow(1, "DB Workflow 1", true, "Allow")]);
      |d.toInsert| == 0 && |d.toDelete| == 1 && |d.toUpdate| == 0
  {
    var db2 := Workflow(1, "DB Workflow 1", true, "Allow");
    assert RemoteIds([]) == {};
    assert KeepWhere([db2], {}, false) == [db2];
  }

  /** One remote workflow against an empty table: it is inserted. */
  lemma ScenarioInsertOnly()
    ensures var d := ComputeDiff([WorkflowDto(1, "API Workflow 1", true, "Allow")], []);
      |d.toInsert| == 1 && |d.toDelete| == 0 && |d.toUpdate| == 0
  {
    var a1 := WorkflowDto(1, "API Workflow 1", true, "Allow");
    assert WorkflowIds([]) == {};
    assert ToInsert([a1], {}) == [FromDto(a1)];
  }
}
