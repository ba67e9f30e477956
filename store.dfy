/**
 * The persistence side: the Workflows table (`Database`) and the per-scope unit
 * of work (`DbContext`) that stages additions, removals and updates, tracks the
 * entities it has loaded, and commits everything in one atomic SaveChanges.
 */
module Store {
  import opened Wrappers
  import opened Domain

  /** Why a query or a commit fails. */
  datatype DbError =
    | Unreachable          // the database cannot be reached
    | DuplicateKey(key: int) // an insert whose key is already stored
    | RowMissing(key: int)   // a delete or update of a row that is not stored
    | ValueTooLong         // a name or multiExecBehavior over its column length

  /** A change staged in the unit of work. */
  datatype Change = Added(entity: Workflow) | Deleted(key: int) | Modified(entity: Workflow)

  /** The calls made on the DbSet and the context, in order. */
  datatype DbCall =
    | ToListCall
    | FindCall(key: int)
    | AddCall(entity: Workflow)
    | AddRangeCall(entities: seq<Workflow>)
    | RemoveCall(entity: Workflow)
    | RemoveRangeCall(entities: seq<Workflow>)
    | UpdateCall(entity: Workflow)
    | UpdateRangeCall(entities: seq<Workflow>)
    | SaveChangesCall

  /** The table after a successful commit and the number of rows it wrote. */
  datatype Committed = Committed(rows: map<int, Workflow>, affected: nat)

  function ChangedKey(c: Change): int {
    match c
    case Added(w) => w.workflowId
    case Deleted(k) => k
    case Modified(w) => w.workflowId
  }

  function StagedKeys(cs: seq<Change>): set<int> {
    set c | c in cs :: ChangedKey(c)
  }

  function AddedAll(ws: seq<Workflow>): seq<Change> {
    seq(|ws|, i requires 0 <= i < |ws| => Added(ws[i]))
  }

  function DeletedAll(ws: seq<Workflow>): seq<Change> {
    seq(|ws|, i requires 0 <= i < |ws| => Deleted(ws[i].workflowId))
  }

  /** The staged changes applied in order; the first one the table refuses aborts them all. */
  function ApplyChanges(rows: map<int, Workflow>, cs: seq<Change>): Result<map<int, Workflow>, DbError>
    decreases |cs|
  {
    if cs == [] then Success(rows)
    else
      match cs[0]
      case Added(w) =>
        if w.workflowId in rows then Failure(DuplicateKey(w.workflowId))
        else if !FitsSchema(w) then Failure(ValueTooLong)
        else ApplyChanges(rows[w.workflowId := w], cs[1..])
      case Deleted(k) =>
        if k !in rows then Failure(RowMissing(k))
        else ApplyChanges(rows - {k}, cs[1..])
      case Modified(w) =>
        if w.workflowId !in rows then Failure(RowMissing(w.workflowId))
        else if !FitsSchema(w) then Failure(ValueTooLong)
        else ApplyChanges(rows[w.workflowId := w], cs[1..])
  }

  /**
   * Tracked entities whose values no longer match their stored row and that no
   * staged change covers: the modifications change detection finds at commit.
   */
  function Dirty(rows: map<int, Workflow>, entities: map<int, Workflow>, staged: seq<Change>): map<int, Workflow> {
    map k | k in entities && k in rows && k !in StagedKeys(staged) && entities[k] != rows[k] :: entities[k]
  }

  /** Tracked entities that match their stored rows: nothing for change detection to find. */
  predicate Agrees(entities: map<int, Workflow>, rows: map<int, Workflow>) {
    forall k :: k in entities && k in rows ==> entities[k] == rows[k]
  }

  /** Every tracked entity is a stored row, unchanged. */
  predicate Tracks(entities: map<int, Workflow>, rows: map<int, Workflow>) {
    forall k :: k in entities ==> k in rows && entities[k] == rows[k]
  }

  /** Loading a stored row keeps the tracked entities in step with the table. */
  lemma TracksLoad(entities: map<int, Workflow>, rows: map<int, Workflow>, key: int)
    requires Tracks(entities, rows) && key in rows
    ensures Tracks(entities[key := rows[key]], rows)
  {
  }

  /** Removing a key from both sides keeps the tracked entities in step with the table. */
  lemma TracksRemove(entities: map<int, Workflow>, rows: map<int, Workflow>, key: int)
    requires Tracks(entities, rows)
    ensures Tracks(entities - {key}, rows - {key}) && Agrees(entities, rows)
  {
  }

  /** One SaveChanges: staged changes, then detected modifications, all or nothing. */
  function Commit(rows: map<int, Workflow>, staged: seq<Change>, entities: map<int, Workflow>): Result<Committed, DbError> {
    match ApplyChanges(rows, staged)
    case Failure(e) => Failure(e)
    case Success(after) =>
      var dirty := Dirty(rows, entities, staged);
      if forall k :: k in dirty ==> FitsSchema(dirty[k]) then Success(Committed(after + dirty, |staged| + |dirty|))
      else Failure(ValueTooLong)
  }

  /** The outcome of one SaveChanges: what it reports, and the table and staged changes after it. */
  datatype Saved = Saved(result: Result<nat, DbError>, rows: map<int, Workflow>, staged: seq<Change>)

  /** Whether the unit of work holds anything to write: a staged change, or a modification change detection finds. */
  predicate HasChanges(rows: map<int, Workflow>, staged: seq<Change>, entities: map<int, Workflow>) {
    staged != [] || Dirty(rows, entities, staged) != map[]
  }

  /**
   * SaveChanges against the table: all of the unit of work or none of it. With
   * nothing to write it reports 0 without reaching the table. A refused commit
   * leaves both the table and the staged changes as they were.
   */
  function Save(reachable: bool, rows: map<int, Workflow>, staged: seq<Change>, entities: map<int, Workflow>): (s: Saved)
    ensures s.result.Failure? ==> s.rows == rows && s.staged == staged
    ensures !HasChanges(rows, staged, entities) ==> s == Saved(Success(0), rows, staged)
    ensures s.result.Success? <==> !HasChanges(rows, staged, entities) || (reachable && Commit(rows, staged, entities).Success?)
    ensures HasChanges(rows, staged, entities) && s.result.Success? ==>
              && s.staged == []
              && s.rows == Commit(rows, staged, entities).value.rows
              && s.result.value == Commit(rows, staged, entities).value.affected
    ensures HasChanges(rows, staged, entities) && !reachable ==> s.result == Failure(Unreachable)
    ensures HasChanges(rows, staged, entities) && reachable && Commit(rows, staged, entities).Failure? ==>
              s.result == Failure(Commit(rows, staged, entities).error)
  {
    if !HasChanges(rows, staged, entities) then Saved(Success(0), rows, staged)
    else if !reachable then Saved(Failure(Unreachable), rows, staged)
    else match Commit(rows, staged, entities)
      case Failure(e) => Saved(Failure(e), rows, staged)
      case Success(c) => Saved(Success(c.affected), c.rows, [])
  }

  /** A unit of work with nothing staged and nothing modified saves 0 rows, reachable table or not. */
  lemma SaveWithoutChanges(reachable: bool, rows: map<int, Workflow>, entities: map<int, Workflow>)
    requires Agrees(entities, rows)
    ensures Save(reachable, rows, [], entities) == Saved(Success(0), rows, [])
  {
    DirtyEmpty(rows, entities, []);
  }

  /** With nothing to write, what SaveChanges reports agrees with the commit it skips. */
  lemma SaveSkipsEmptyCommit(reachable: bool, rows: map<int, Workflow>, staged: seq<Change>, entities: map<int, Workflow>)
    requires !HasChanges(rows, staged, entities)
    ensures Commit(rows, staged, entities) == Success(Committed(rows, 0))
  {
    CommitStagedOnly(rows, staged, entities);
  }

  /** What a query returns for the stored rows: the tracked instance where one is tracked. */
  function Loaded(rows: map<int, Workflow>, entities: map<int, Workflow>): (m: map<int, Workflow>)
    requires KeyedById(rows) && KeyedById(entities)
    ensures m.Keys == rows.Keys && KeyedById(m)
    ensures Agrees(entities, rows) ==> m == rows
  {
    var m := map k | k in rows :: if k in entities then entities[k] else rows[k];
    assert Agrees(entities, rows) ==> m == rows by {
      if Agrees(entities, rows) {
        forall k | k in rows ensures k in m && m[k] == rows[k] {
        }
      }
    }
    m
  }

  /** Tracked entities that agree with the table leave nothing for change detection. */
  lemma DirtyEmpty(rows: map<int, Workflow>, entities: map<int, Workflow>, staged: seq<Change>)
    requires Agrees(entities, rows)
    ensures Dirty(rows, entities, staged) == map[]
  {
    forall k ensures k !in Dirty(rows, entities, staged) {
    }
  }

  lemma {:induction false} ApplyChangesKeepsValid(rows: map<int, Workflow>, cs: seq<Change>)
    requires ValidTable(rows)
    ensures ApplyChanges(rows, cs).Success? ==> ValidTable(ApplyChanges(rows, cs).value)
    decreases |cs|
  {
    if cs != [] {
      match cs[0]
      case Added(w) =>
        if w.workflowId !in rows && FitsSchema(w) { ApplyChangesKeepsValid(rows[w.workflowId := w], cs[1..]); }
      case Deleted(k) =>
        if k in rows { ApplyChangesKeepsValid(rows - {k}, cs[1..]); }
      case Modified(w) =>
        if w.workflowId in rows && FitsSchema(w) { ApplyChangesKeepsValid(rows[w.workflowId := w], cs[1..]); }
    }
  }

  /** A commit never stores a row under a foreign key or outside the schema. */
  lemma CommitKeepsValid(rows: map<int, Workflow>, staged: seq<Change>, entities: map<int, Workflow>)
    requires ValidTable(rows) && KeyedById(entities)
    ensures Commit(rows, staged, entities).Success? ==> ValidTable(Commit(rows, staged, entities).value.rows)
  {
    ApplyChangesKeepsValid(rows, staged);
  }

  lemma {:induction false} ApplyChangesAppend(rows: map<int, Workflow>, a: seq<Change>, b: seq<Change>)
    ensures var r := ApplyChanges(rows, a);
      ApplyChanges(rows, a + b) == if r.Failure? then Failure(r.error) else ApplyChanges(r.value, b)
    decreases |a|
  {
    if a != [] {
      assert (a + b)[1..] == a[1..] + b;
      match a[0]
      case Added(w) => ApplyChangesAppend(rows[w.workflowId := w], a[1..], b);
      case Deleted(k) => ApplyChangesAppend(rows - {k}, a[1..], b);
      case Modified(w) => ApplyChangesAppend(rows[w.workflowId := w], a[1..], b);
    } else {
      assert a + b == b;
    }
  }

  /** Inserting fresh, distinct, valid rows adds exactly those rows. */
  lemma {:induction false} ApplyAddedAll(rows: map<int, Workflow>, ws: seq<Workflow>)
    requires DistinctIds(ws) && WorkflowIds(ws) !! rows.Keys
    requires forall w :: w in ws ==> FitsSchema(w)
    ensures ApplyChanges(rows, AddedAll(ws)) == Success(rows + TableOf(ws))
    decreases |ws|
  {
    if ws != [] {
      var first, rest := ws[0], ws[1..];
      DistinctIdsTail(ws);
      assert first in ws && forall w :: w in rest ==> w in ws;
      assert AddedAll(ws)[1..] == AddedAll(rest);
      assert AddedAll(ws)[0] == Added(first);
      var next := rows[first.workflowId := first];
      assert ApplyChanges(rows, AddedAll(ws)) == ApplyChanges(next, AddedAll(rest));
      ApplyAddedAll(next, rest);
      TableOfFront(rows, ws);
    } else {
      assert AddedAll(ws) == [];
      assert TableOf(ws) == map[];
      assert rows + TableOf(ws) == rows;
    }
  }

  /** Deleting distinct stored keys removes exactly those keys. */
  lemma {:induction false} ApplyDeletedAll(rows: map<int, Workflow>, ws: seq<Workflow>)
    requires DistinctIds(ws) && WorkflowIds(ws) <= rows.Keys
    ensures ApplyChanges(rows, DeletedAll(ws)) == Success(rows - WorkflowIds(ws))
    decreases |ws|
  {
    if ws != [] {
      var first, rest := ws[0], ws[1..];
      DistinctIdsTail(ws);
      assert DeletedAll(ws)[1..] == DeletedAll(rest);
      ApplyDeletedAll(rows - {first.workflowId}, rest);
      assert rows - {first.workflowId} - WorkflowIds(rest) == rows - WorkflowIds(ws);
    } else {
      assert DeletedAll(ws) == [];
      assert WorkflowIds(ws) == {};
      assert rows - WorkflowIds(ws) == rows;
    }
  }

  /** With nothing for change detection to find, a commit is its staged changes alone. */
  lemma CommitStagedOnly(rows: map<int, Workflow>, staged: seq<Change>, entities: map<int, Workflow>)
    requires Dirty(rows, entities, staged) == map[]
    ensures var a := ApplyChanges(rows, staged);
            Commit(rows, staged, entities)
            == if a.Failure? then Failure(a.error) else Success(Committed(a.value, |staged|))
  {
    match ApplyChanges(rows, staged)
    case Failure(_) =>
    case Success(after) => UnionEmpty(after);
  }

  lemma UnionEmpty(m: map<int, Workflow>)
    ensures m + map[] == m
  {
  }

  /** A commit whose staged changes go through and whose detected modifications fit the schema. */
  lemma CommitOfApplied(rows: map<int, Workflow>, staged: seq<Change>, entities: map<int, Workflow>, after: map<int, Workflow>)
    requires ApplyChanges(rows, staged) == Success(after)
    requires forall k :: k in Dirty(rows, entities, staged) ==> FitsSchema(Dirty(rows, entities, staged)[k])
    ensures var dirty := Dirty(rows, entities, staged);
            Commit(rows, staged, entities) == Success(Committed(after + dirty, |staged| + |dirty|))
  {
  }

  /** A single staged change. */
  lemma ApplyOne(rows: map<int, Workflow>, c: Change)
    ensures c.Added? ==>
      ApplyChanges(rows, [c])
      == if c.entity.workflowId in rows then Failure(DuplicateKey(c.entity.workflowId))
         else if !FitsSchema(c.entity) then Failure(ValueTooLong)
         else Success(rows[c.entity.workflowId := c.entity])
    ensures c.Deleted? ==>
      ApplyChanges(rows, [c]) == if c.key !in rows then Failure(RowMissing(c.key)) else Success(rows - {c.key})
    ensures c.Modified? ==>
      ApplyChanges(rows, [c])
      == if c.entity.workflowId !in rows then Failure(RowMissing(c.entity.workflowId))
         else if !FitsSchema(c.entity) then Failure(ValueTooLong)
         else Success(rows[c.entity.workflowId := c.entity])
  {
    assert [c][0] == c && [c][1..] == [];
  }

  /** A commit with nothing staged and nothing modified writes nothing. */
  lemma NothingToCommit(rows: map<int, Workflow>, entities: map<int, Workflow>)
    requires Agrees(entities, rows)
    ensures Commit(rows, [], entities) == Success(Committed(rows, 0))
  {
    DirtyEmpty(rows, entities, []);
    CommitStagedOnly(rows, [], entities);
  }

  /** CreateWorkflowAsync in a clean scope: refused for a stored key or an over-long value, else one row added. */
  lemma CreateCommit(rows: map<int, Workflow>, entities: map<int, Workflow>, w: Workflow)
    requires Agrees(entities, rows)
    ensures Commit(rows, [Added(w)], entities)
            == if w.workflowId in rows then Failure(DuplicateKey(w.workflowId))
               else if !FitsSchema(w) then Failure(ValueTooLong)
               else Success(Committed(rows[w.workflowId := w], 1))
  {
    DirtyEmpty(rows, entities, [Added(w)]);
    CommitStagedOnly(rows, [Added(w)], entities);
    ApplyOne(rows, Added(w));
  }

  /** UpdateWorkflowAsync in a clean scope: refused for a missing key or an over-long value, else that row replaced. */
  lemma UpdateCommit(rows: map<int, Workflow>, entities: map<int, Workflow>, w: Workflow)
    requires Agrees(entities, rows)
    ensures Commit(rows, [Modified(w)], entities[w.workflowId := w])
            == if w.workflowId !in rows then Failure(RowMissing(w.workflowId))
               else if !FitsSchema(w) then Failure(ValueTooLong)
               else Success(Committed(rows[w.workflowId := w], 1))
  {
    assert Modified(w) in [Modified(w)];
    assert w.workflowId in StagedKeys([Modified(w)]);
    DirtyEmpty(rows, entities, [Modified(w)]);
    assert Dirty(rows, entities[w.workflowId := w], [Modified(w)]) == Dirty(rows, entities, [Modified(w)]);
    CommitStagedOnly(rows, [Modified(w)], entities[w.workflowId := w]);
    ApplyOne(rows, Modified(w));
  }

  /** DeleteWorkflowAsync in a clean scope: the found row goes, every other row stays. */
  lemma DeleteCommit(rows: map<int, Workflow>, entities: map<int, Workflow>, key: int)
    requires Agrees(entities, rows) && key in rows
    ensures Commit(rows, [Deleted(key)], entities - {key}) == Success(Committed(rows - {key}, 1))
  {
    DirtyEmpty(rows, entities - {key}, [Deleted(key)]);
    CommitStagedOnly(rows, [Deleted(key)], entities - {key});
    ApplyOne(rows, Deleted(key));
  }

  /** DeleteWorkflowAsync's SaveChanges in a clean scope: the found row goes on a reachable table, nothing changes otherwise. */
  lemma DeleteSave(reachable: bool, rows: map<int, Workflow>, entities: map<int, Workflow>, key: int)
    requires Agrees(entities, rows) && key in rows
    ensures Save(reachable, rows, [Deleted(key)], entities - {key})
            == if reachable then Saved(Success(1), rows - {key}, []) else Saved(Failure(Unreachable), rows, [Deleted(key)])
  {
    assert HasChanges(rows, [Deleted(key)], entities - {key});
    DeleteCommit(rows, entities, key);
  }

  /** The Workflows table. */
  class Database {
    var rows: map<int, Workflow>
    var reachable: bool

    ghost predicate Valid()
      reads this
    {
      ValidTable(rows)
    }

    constructor (rows: map<int, Workflow>, reachable: bool)
      requires ValidTable(rows)
      ensures Valid() && this.rows == rows && this.reachable == reachable
    {
      this.rows := rows;
      this.reachable := reachable;
    }
  }

  /**
   * The rows of a table in the order a query happens to return them: each
   * stored row exactly once, in an order nothing promises.
   */
  method Enumerate(table: map<int, Workflow>) returns (listing: seq<Workflow>)
    requires KeyedById(table)
    ensures IsListingOf(listing, table)
  {
    var keys := table.Keys;
    listing := [];
    while keys != {}
      invariant keys <= table.Keys
      invariant DistinctIds(listing)
      invariant WorkflowIds(listing) == table.Keys - keys
      invariant forall w :: w in listing ==> w.workflowId in table && table[w.workflowId] == w
      decreases keys
    {
      NonEmptyHasKey(keys);
      var k :| k in keys;
      assert WorkflowIds(listing + [table[k]]) == WorkflowIds(listing) + {k};
      listing := listing + [table[k]];
      keys := keys - {k};
    }
  }

  /** A non-empty key set has a member to pick. */
  lemma NonEmptyHasKey(keys: set<int>)
    requires keys != {}
    ensures exists k :: k in keys
  {
    assert (forall k :: k !in keys) ==> keys == {};
  }

  /** One scope's context over the table: tracked entities, staged changes, and the calls made on it. */
  class DbContext {
    const database: Database
    var entities: map<int, Workflow>
    var staged: seq<Change>
    ghost var calls: seq<DbCall>

    ghost predicate Valid()
      reads this, database
    {
      database.Valid() && KeyedById(entities)
    }

    /** Nothing staged, and every tracked entity holds its stored row: nothing for a commit to write. */
    ghost predicate InSync()
      reads this, database
    {
      staged == [] && Tracks(entities, database.rows)
    }

    /** A context as the scope hands it out: nothing tracked, nothing staged. */
    ghost predicate Fresh()
      reads this
    {
      entities == map[] && staged == []
    }

    constructor (database: Database)
      requires database.Valid()
      ensures Valid() && Fresh() && calls == [] && this.database == database
    {
      this.database := database;
      entities := map[];
      staged := [];
      calls := [];
    }

    /** `Workflows.ToListAsync()`: every stored row, tracked from now on. */
    method ToList() returns (r: Result<seq<Workflow>, DbError>)
      requires Valid()
      modifies this`entities, this`calls
      ensures Valid() && calls == old(calls) + [ToListCall]
      ensures !database.reachable ==> r == Failure(Unreachable) && entities == old(entities)
      ensures database.reachable ==>
                && r.Success?
                && IsListingOf(r.value, Loaded(database.rows, old(entities)))
                && entities == old(entities) + Loaded(database.rows, old(entities))
    {
      calls := calls + [ToListCall];
      if !database.reachable {
        return Failure(Unreachable);
      }
      var loaded := Loaded(database.rows, entities);
      var listing := Enumerate(loaded);
      entities := entities + loaded;
      r := Success(listing);
    }

    /** `Workflows.FindAsync(key)`: the tracked entity if there is one, else the stored row, else none. */
    method Find(key: int) returns (r: Result<Option<Workflow>, DbError>)
      requires Valid()
      modifies this`entities, this`calls
      ensures Valid() && calls == old(calls) + [FindCall(key)]
      ensures key in old(entities) ==> r == Success(Some(old(entities)[key])) && entities == old(entities)
      ensures key !in old(entities) && !database.reachable ==> r == Failure(Unreachable) && entities == old(entities)
      ensures key !in old(entities) && database.reachable && key in database.rows ==>
                r == Success(Some(database.rows[key])) && entities == old(entities)[key := database.rows[key]]
      ensures key !in old(entities) && database.reachable && key !in database.rows ==>
                r == Success(None) && entities == old(entities)
    {
      calls := calls + [FindCall(key)];
      if key in entities {
        r := Success(Some(entities[key]));
      } else if !database.reachable {
        r := Failure(Unreachable);
      } else if key in database.rows {
        entities := entities[key := database.rows[key]];
        r := Success(Some(database.rows[key]));
      } else {
        r := Success(None);
      }
    }

    /** `Workflows.Add(entity)`: stages an insert. */
    method Add(w: Workflow)
      modifies this`staged, this`calls
      ensures staged == old(staged) + [Added(w)] && calls == old(calls) + [AddCall(w)]
    {
      staged := staged + [Added(w)];
      calls := calls + [AddCall(w)];
    }

    /** `Workflows.AddRangeAsync(entities)`: stages one insert per entity. */
    method AddRange(ws: seq<Workflow>)
      modifies this`staged, this`calls
      ensures staged == old(staged) + AddedAll(ws) && calls == old(calls) + [AddRangeCall(ws)]
    {
      staged := staged + AddedAll(ws);
      calls := calls + [AddRangeCall(ws)];
    }

    /** `Workflows.Remove(entity)`: stages a delete; the entity is no longer tracked as unchanged. */
    method Remove(w: Workflow)
      requires Valid()
      modifies this`entities, this`staged, this`calls
      ensures Valid()
      ensures staged == old(staged) + [Deleted(w.workflowId)] && entities == old(entities) - {w.workflowId}
      ensures calls == old(calls) + [RemoveCall(w)]
    {
      staged := staged + [Deleted(w.workflowId)];
      entities := entities - {w.workflowId};
      calls := calls + [RemoveCall(w)];
    }

    /** `Workflows.RemoveRange(entities)`: stages one delete per entity. */
    method RemoveRange(ws: seq<Workflow>)
      requires Valid()
      modifies this`entities, this`staged, this`calls
      ensures Valid()
      ensures staged == old(staged) + DeletedAll(ws) && entities == old(entities) - WorkflowIds(ws)
      ensures calls == old(calls) + [RemoveRangeCall(ws)]
    {
      staged := staged + DeletedAll(ws);
      entities := entities - WorkflowIds(ws);
      calls := calls + [RemoveRangeCall(ws)];
    }

    /** `Workflows.Update(entity)`: attaches the entity and stages it as modified. */
    method Update(w: Workflow)
      requires Valid()
      modifies this`entities, this`staged, this`calls
      ensures Valid()
      ensures staged == old(staged) + [Modified(w)] && entities == old(entities)[w.workflowId := w]
      ensures calls == old(calls) + [UpdateCall(w)]
    {
      staged := staged + [Modified(w)];
      entities := entities[w.workflowId := w];
      calls := calls + [UpdateCall(w)];
    }

    /**
     * `SaveChangesAsync()`: commits the unit of work atomically and reports the
     * rows written; with no change to write it reports 0 without a query.
     */
    method SaveChanges() returns (r: Result<nat, DbError>)
      requires Valid()
      modifies this`staged, this`calls, database`rows
      ensures Valid() && calls == old(calls) + [SaveChangesCall]
      ensures var s := Save(database.reachable, old(database.rows), old(staged), old(entities));
              r == s.result && database.rows == s.rows && staged == s.staged
    {
      calls := calls + [SaveChangesCall];
      if staged == [] && Dirty(database.rows, entities, staged) == map[] {
        return Success(0);
      }
      if !database.reachable {
        return Failure(Unreachable);
      }
      var c := Commit(database.rows, staged, entities);
      match c
      case Failure(e) =>
        r := Failure(e);
      case Success(committed) =>
        CommitKeepsValid(database.rows, staged, entities);
        database.rows := committed.rows;
        staged := [];
        r := Success(committed.affected);
    }
  }
}
