# IceSync workflow reconciliation, in Dafny

IceSync keeps a local SQL table of workflows in step with the workflows that a
remote "Universal Loader" API lists. This project models the reconciliation
core of its back end (IceSync.Api) and proves properties of it.

- **Reconcile** holds the classification. A remote snapshot (`WorkflowDto`
  records) and a local listing (`Workflow` rows) are split by id into three
  lists: new entities to insert, local rows to delete, and local rows to update.
  Each update target takes its name, active flag and execution behaviour from
  the first remote record with its id. The source writes this code twice, in
  `WorkflowsController.SyncWorkflows` and in `WorkflowSyncService.SyncWorkflowsAsync`.
  The model writes it once, as `ComputeDiff`. `SyncPass.RunPass` runs a whole pass
  and is what both call sites call. So both compute the same lists from the same
  inputs by construction.
- **Store** models the Workflows table and one scope's unit of work.
  - `Database` holds the committed rows, keyed by id, and whether the table can be reached.
  - `DbContext` holds the tracked entities, the staged changes and a ghost log of the calls made on it.
  - `Commit` models one atomic `SaveChanges`. It applies the staged inserts and deletes first. Then change detection writes every tracked entity whose value differs from its stored row.
  - The schema limits become `ValidTable`: the id is the key, a name has at most 255 UTF-16 code units, and `multiExecBehavior` at most 100. Lengths are counted as C# `string.Length` and an `nvarchar` column count them: a character outside the Basic Multilingual Plane takes two units.
- **WorkflowsServices** models the data-access service: `WorkflowsService` and its seven operations.
- **SyncPass** is one pass. It reads the table, classifies the listing, overwrites the tracked update targets in place and applies the three lists in one commit.
- **Convergence** proves what a pass achieves:
  - convergence to the snapshot;
  - idempotence of a second pass.
- **Controllers** models the HTTP actions and their status mapping.
- **Background** models the hosted loop.
- **Decimal** models `int.ToString()` under a culture whose negative sign is '-'. The controller uses it to pass a workflow id to the API.

The remote API is a parameter. A fetch is `Option<seq<WorkflowDto>>`, with
`None` where the call throws. A run request is a function from the id text to
`Triggered`, `NotTriggered` or `Threw`. The background loop's ticks are the
sequence of what each fetch returned.

A snapshot is *mirrorable* when it has no repeated id and every value fits its
column. From any valid table, a pass against a mirrorable snapshot that commits
leaves the table equal to `RemoteTable(snapshot)`. Once the table mirrors the
snapshot, a second pass inserts nothing, deletes nothing and writes no row.

Where the code and the tests or the design disagree, the model follows the code:
- The service test at IceSync.Api.Tests/Services/WorkflowsServiceTests.cs:117 expects
  `UpdateRange` to be called once. `SyncWorkflowsFromApiAsync` never calls it
  (IceSync.Api/Services/WorkflowsService.cs:121-126). The updates reach the table
  through change detection on the entities the caller already overwrote.
  `SyncCallsOnly` proves that the pass makes no `UpdateRange` (and no `Update`) call.
- `WorkflowName` is `IsRequired()`, which means NOT NULL. An empty name is
  therefore accepted: `FitsSchema` checks only the two length limits.
- The `Updated` count in the sync response is the number of local rows whose id the
  snapshot lists, whether or not any of their values change.

## Model

| member | source | states |
|---|---|---|
| Domain.FromDto | IceSync.Api/Controllers/WorkflowsController.cs:78-84 | a new entity has the remote id, name, active flag and execution behaviour |
| Domain.FromDtoFits | IceSync.Api/Data/IceSyncDbContext.cs:22-23 | the new entity fits the schema exactly when the remote record does |
| Domain.Utf16LengthBounds | IceSync.Api/Data/IceSyncDbContext.cs:22-23 | a string's column length is between its character count and twice that; it equals the character count exactly when no character lies outside the Basic Multilingual Plane, and twice it exactly when all do |
| Domain.NameColumnUnits | IceSync.Api/Data/IceSyncDbContext.cs:22 | 255 characters fit the name column when all lie in the Basic Multilingual Plane, and do not fit when all lie outside it |
| Reconcile.ToInsert | IceSync.Api/Controllers/WorkflowsController.cs:76-85 | every remote record whose id is not stored yields its new entity; every new entity has an unstored id and comes from a remote record; never more entities than remote records |
| Reconcile.ToInsertMultiplicity | IceSync.Api/Controllers/WorkflowsController.cs:76-85 | one new entity per remote record whose id is not stored: the entity built from a record occurs as often as the record does, and never for a stored id |
| Reconcile.ToInsertDistinct | IceSync.Api/Controllers/WorkflowsController.cs:76-85 | distinct remote ids give new entities with distinct ids |
| Reconcile.KeepWhere | IceSync.Api/Controllers/WorkflowsController.cs:87-93 | a record is kept exactly when it is in the list and its id's membership in the id set is the one asked for |
| Reconcile.KeepWhereDistinct | IceSync.Api/Controllers/WorkflowsController.cs:87-93 | filtering a listing with distinct ids keeps them distinct |
| Reconcile.KeepWherePartition | IceSync.Api/Controllers/WorkflowsController.cs:87-93 | the delete list and the update targets together are exactly the local records (as multisets) |
| Reconcile.KeepWhereCount | IceSync.Api/Controllers/WorkflowsController.cs:87-93 | deleted + update targets = local records |
| Reconcile.FirstWithId | IceSync.Api/Controllers/WorkflowsController.cs:97 | a record is found exactly when the id is listed remotely; it is the record at the first position with that id |
| Reconcile.Overwrite | IceSync.Api/Controllers/WorkflowsController.cs:98-100 | the id is kept; with a matching remote record the result equals the entity built from it |
| Reconcile.Overwritten | IceSync.Api/Controllers/WorkflowsController.cs:95-101 | one result per target, same id, equal to the entity built from the first remote record with that id |
| Reconcile.ComputeDiff | IceSync.Api/Controllers/WorkflowsController.cs:70-93 | insert ids = remote minus local ids; delete ids = local minus remote; update ids = their intersection; the delete list is exactly the local records with no remote id; deletes + updates = local records |
| Reconcile.OverwrittenIds | IceSync.Api/Controllers/WorkflowsController.cs:95-101 | the update loop changes no id |
| Reconcile.InsertIds | IceSync.Api/Controllers/WorkflowsController.cs:76-85 | the insert ids are exactly the remote ids not stored |
| Reconcile.KeepWhereIds | IceSync.Api/Controllers/WorkflowsController.cs:87-93 | the kept ids are the listing's ids inside, or outside, the remote id set |
| Reconcile.DiffCounts | IceSync.Api/Controllers/WorkflowsController.cs:105-111 | with distinct ids on both sides, each count is the size of its id class; inserted + updated = remote records; deleted + updated = local records |
| Reconcile.ScenarioInsertAndUpdate | IceSync.Api.Tests/Controllers/WorkflowsControllerTests.cs:111-137 | remote {1,2} against local {1} gives 1/0/1; the insert is workflow 2 with its remote values and the update is workflow 1 with its remote values |
| Reconcile.ScenarioDeleteOnly | IceSync.Api.Tests/Controllers/WorkflowsControllerTests.cs:152-173 | an empty snapshot against local {1} gives 0/1/0 |
| Reconcile.ScenarioInsertOnly | IceSync.Api.Tests/Controllers/WorkflowsControllerTests.cs:175-197 | remote {1} against an empty table gives 1/0/0 |
| Store.Save | IceSync.Api/Services/WorkflowsService.cs:92-103 | with nothing staged and nothing modified, SaveChanges reports 0 and changes nothing, reachable table or not; otherwise it succeeds exactly when the table is reachable and the commit goes through, leaves nothing staged and reports the commit's rows and count; a failure leaves table and staged changes as they were |
| Store.SaveWithoutChanges | IceSync.Api/Services/WorkflowsService.cs:92-103 | a clean context with nothing staged saves 0 rows even when the table cannot be reached |
| Store.SaveSkipsEmptyCommit | IceSync.Api/Services/WorkflowsService.cs:92-103 | the skipped commit of an empty unit of work would have written nothing either |
| Store.DeleteSave | IceSync.Api/Services/WorkflowsService.cs:78-83 | the SaveChanges after removing a found row in a clean scope removes exactly that row and reports 1, or fails on an unreachable table and changes nothing |
| Store.Loaded | IceSync.Api/Services/WorkflowsService.cs:18-29 | a query returns one entry per stored row; where tracked entities agree with the rows it returns the rows themselves |
| Store.CommitKeepsValid | IceSync.Api/Data/IceSyncDbContext.cs:20-23 | a commit never stores a row under a foreign key or over a column length |
| Store.CreateCommit | IceSync.Api/Services/WorkflowsService.cs:44-57 | creating in a clean scope fails with a duplicate key for a stored id, fails for an over-long value, else adds exactly that row and reports 1 |
| Store.UpdateCommit | IceSync.Api/Services/WorkflowsService.cs:59-72 | updating in a clean scope fails for a missing id, fails for an over-long value, else replaces exactly that row and reports 1 |
| Store.DeleteCommit | IceSync.Api/Services/WorkflowsService.cs:74-90 | deleting a found row in a clean scope removes that row only and reports 1 |
| Store.NothingToCommit | IceSync.Api/Services/WorkflowsService.cs:128-131 | a commit with nothing staged and every tracked entity unchanged writes nothing |
| Store.ApplyAddedAll | IceSync.Api/Services/WorkflowsService.cs:109-113 | staging fresh, distinct, valid inserts adds exactly those rows |
| Store.ApplyDeletedAll | IceSync.Api/Services/WorkflowsService.cs:115-119 | staging distinct stored deletes removes exactly those keys |
| Store.Enumerate | IceSync.Api/Services/WorkflowsService.cs:22 | the query's result lists every stored row exactly once, in some order |
| Store.DbContext.constructor | IceSync.Api/Services/WorkflowSyncService.cs:45-47 | a new scope's context tracks nothing and has nothing staged |
| Store.DbContext.ToList | IceSync.Api/Services/WorkflowsService.cs:22 | fails on an unreachable table; else lists the loaded rows and tracks them |
| Store.DbContext.Find | IceSync.Api/Services/WorkflowsService.cs:35 | the tracked entity, else the stored row (now tracked), else none; fails on an unreachable table only when it must query |
| Store.DbContext.Add | IceSync.Api/Services/WorkflowsService.cs:48 | stages one insert |
| Store.DbContext.AddRange | IceSync.Api/Services/WorkflowsService.cs:111 | stages one insert per entity, in order |
| Store.DbContext.Remove | IceSync.Api/Services/WorkflowsService.cs:81 | stages one delete and stops tracking the entity |
| Store.DbContext.RemoveRange | IceSync.Api/Services/WorkflowsService.cs:117 | stages one delete per entity |
| Store.DbContext.Update | IceSync.Api/Services/WorkflowsService.cs:63 | stages a modification and tracks the given entity |
| Store.DbContext.SaveChanges | IceSync.Api/Services/WorkflowsService.cs:96 | the outcome, table and staged changes are those of `Save` on the state before the call: 0 without reaching the table when nothing is staged or modified |
| WorkflowsServices.SyncCallsSave | IceSync.Api/Services/WorkflowsService.cs:128-131 | SaveChanges is called exactly when some list is non-empty, once, and as the last call |
| WorkflowsServices.SyncCallsWrites | IceSync.Api/Services/WorkflowsService.cs:109-131 | AddRange exactly when there are inserts, RemoveRange exactly when there are deletes, no call at all when all three lists are empty |
| WorkflowsServices.SyncCallsOnly | IceSync.Api/Services/WorkflowsService.cs:121-126 | the only calls are that AddRange, that RemoveRange and SaveChanges; never UpdateRange |
| WorkflowsServices.WorkflowsService.GetAllWorkflows | IceSync.Api/Services/WorkflowsService.cs:18-29 | one query; its failure is passed on; else every stored row, each once |
| WorkflowsServices.WorkflowsService.GetWorkflowById | IceSync.Api/Services/WorkflowsService.cs:31-42 | the stored workflow for a present id, none for a missing one, or the query's failure |
| WorkflowsServices.WorkflowsService.CreateWorkflow | IceSync.Api/Services/WorkflowsService.cs:44-57 | Add then SaveChanges; returns the entity, or the commit's failure unchanged |
| WorkflowsServices.WorkflowsService.UpdateWorkflow | IceSync.Api/Services/WorkflowsService.cs:59-72 | Update then SaveChanges; returns the entity, or the commit's failure unchanged |
| WorkflowsServices.WorkflowsService.DeleteWorkflow | IceSync.Api/Services/WorkflowsService.cs:74-90 | Find first; a missing id makes no other call and changes nothing; a present id is removed with a final SaveChanges and every other row stays; an unreachable table fails |
| WorkflowsServices.WorkflowsService.SaveChanges | IceSync.Api/Services/WorkflowsService.cs:92-103 | reports the store's count of written rows (0 for an empty unit of work), or its failure |
| WorkflowsServices.WorkflowsService.SyncWorkflowsFromApi | IceSync.Api/Services/WorkflowsService.cs:105-138 | the calls are `SyncCalls`; with all lists empty the table and staged changes are untouched; else the outcome is the one commit of the staged inserts and deletes plus the tracked modifications |
| SyncPass.PassOutcome | IceSync.Api/Services/WorkflowsService.cs:128-131 | a pass fails only when its commit fails; an empty snapshot against an empty table changes nothing |
| SyncPass.SaveIsPassOutcome | IceSync.Api/Services/WorkflowSyncService.cs:82 | when a pass commits, its outcome is that of its one SaveChanges |
| SyncPass.OverwriteEach | IceSync.Api/Services/WorkflowSyncService.cs:74-80 | the loop yields exactly the overwritten targets, and the tracked entities are the old ones with those entered |
| SyncPass.OverwriteTracked | IceSync.Api/Services/WorkflowSyncService.cs:74-80 | the update targets, which are tracked entities, now hold their overwritten values; no other tracked entity changes |
| SyncPass.ApplyDiff | IceSync.Api/Services/WorkflowSyncService.cs:53-82 | given a listing of the table whose records are the tracked entities, the lists are `ComputeDiff` of snapshot and listing; the calls are `SyncCalls` of those lists; the table becomes the pass outcome, or stays on failure |
| SyncPass.RunPass | IceSync.Api/Services/WorkflowSyncService.cs:49-82 | one query, then the calls of the sync; the listing covers the table; the lists are `ComputeDiff`; the table is the pass outcome, or unchanged on failure or when unreachable |
| Convergence.RemoteTable | IceSync.Api/Services/WorkflowSyncService.cs:55-80 | the target table has exactly the remote ids, each row under its own id |
| Convergence.RemoteTableValid | IceSync.Api/Data/IceSyncDbContext.cs:20-23 | a snapshot whose values fit the columns asks for a valid table |
| Convergence.FirstOfDistinct | IceSync.Api/Services/WorkflowSyncService.cs:76 | with distinct ids, the first record with a record's id is that record |
| Convergence.InsertsFromFirst | IceSync.Api/Services/WorkflowSyncService.cs:55-64 | every new entity is built from the first remote record with its id |
| Convergence.UpdatesFromFirst | IceSync.Api/Services/WorkflowSyncService.cs:74-80 | every overwritten target is built from the first remote record with its id |
| Convergence.TableOfFromSnapshot | IceSync.Api/Services/WorkflowSyncService.cs:55-80 | records taken from the snapshot enter the same rows that the target table has under their ids |
| Convergence.PassStagedKeys | IceSync.Api/Services/WorkflowsService.cs:109-119 | a pass stages a change for exactly its insert and delete ids |
| Convergence.PassApplied | IceSync.Api/Services/WorkflowsService.cs:109-119 | for a mirrorable snapshot every staged insert and delete goes through |
| Convergence.PassEntitiesMirror | IceSync.Api/Services/WorkflowSyncService.cs:74-80 | after the update loop the kept tracked entities are the stored rows with a remote id, each equal to its target row |
| Convergence.MirrorFromParts | IceSync.Api/Services/WorkflowsService.cs:128-131 | inserts that bring the missing rows, deletes that remove the surplus, and modifications to the right values commit to exactly the target |
| Convergence.PassConverges | IceSync.Api/Services/WorkflowSyncService.cs:55-82 | from a valid table and any listing of it, a pass against a mirrorable snapshot succeeds and leaves exactly the snapshot's table |
| Convergence.NothingMissingNothingSurplus | IceSync.Api/Services/WorkflowSyncService.cs:55-72 | against a mirrored table the insert and delete lists are empty |
| Convergence.MirrorAgrees | IceSync.Api/Services/WorkflowSyncService.cs:74-80 | against a mirrored table the overwritten entities equal the stored rows |
| Convergence.UpdatesEveryRemote | IceSync.Api/Services/WorkflowSyncService.cs:70-72 | against a mirrored table, every remote record is matched by one update |
| Convergence.SecondPassWritesNothing | IceSync.Api/Services/WorkflowSyncService.cs:55-82 | idempotence: a second pass finds nothing to insert or delete, and its commit writes no row |
| Convergence.MirroredIsFixpoint | IceSync.Api/Services/WorkflowSyncService.cs:55-82 | a pass over a table that mirrors the snapshot leaves it as it is |
| Decimal.DigitsCanonical | IceSync.Api/Controllers/WorkflowsController.cs:45 | the digits of a number are canonical, read back as the number, and start with '0' only for zero |
| Decimal.DigitsOfValue | IceSync.Api/Controllers/WorkflowsController.cs:45 | canonical digits are the digits of their own value |
| Decimal.DecimalRoundTrip | IceSync.Api/Controllers/WorkflowsController.cs:45 | the text of an id parses back to the id |
| Decimal.NegativeRoundTrip | IceSync.Api/Controllers/WorkflowsController.cs:45 | the text of a negative id parses back to it |
| Decimal.ParseIsCanonical | IceSync.Api/Controllers/WorkflowsController.cs:45 | any text that parses to n is the text of n |
| Decimal.DecimalInjective | IceSync.Api/Controllers/WorkflowsController.cs:45 | different ids never have the same text |
| Decimal.DecimalSamples | IceSync.Api.Tests/Controllers/WorkflowsControllerTests.cs:199-221 | the text of 0 is "0" and the text of -1 is "-1" |
| Decimal.MaxIdText | IceSync.Api.Tests/Controllers/WorkflowsControllerTests.cs:237-249 | the text of int.MaxValue is "2147483647" |
| Decimal.MinIdText | IceSync.Api/Controllers/WorkflowsController.cs:45 | the text of int.MinValue is "-" followed by "2147483648" |
| Controllers.RunWorkflow | IceSync.Api/Controllers/WorkflowsController.cs:40-63 | 200 exactly when the API ran the workflow, 400 exactly when it refused, 500 exactly when it threw, each with its message; the API is asked with the id's decimal text |
| Controllers.RunWorkflowSendsDecimalId | IceSync.Api.Tests/Controllers/WorkflowsControllerTests.cs:199-249 | the ids 0, -1 and int.MaxValue reach the API as "0", "-1" and "2147483647" |
| Controllers.WorkflowsController.GetWorkflows | IceSync.Api/Controllers/WorkflowsController.cs:25-38 | 200 with every stored workflow, each once; 500 with the bare string when the table cannot be read |
| Controllers.WorkflowsController.SyncWorkflows | IceSync.Api/Controllers/WorkflowsController.cs:65-118 | a failed fetch gives 500 without touching the store; else one query, then the sync calls for `ComputeDiff`; 200 with the three list lengths exactly when the pass succeeds, else 500 with the table unchanged; a 200 for a mirrorable snapshot leaves the snapshot's table |
| Background.WorkflowSyncService.SyncWorkflowsAsync | IceSync.Api/Services/WorkflowSyncService.cs:43-83 | one pass in a new scope; a failed fetch, read or commit is reported and changes nothing; a success leaves the pass outcome, and for a mirrorable snapshot the snapshot's table |
| Background.WorkflowSyncService.ExecuteAsync | IceSync.Api/Services/WorkflowSyncService.cs:21-41 | one pass per tick whatever became of the previous one; every table along the way is valid; a failed tick leaves the table as it was; a successful tick against a mirrorable snapshot leaves that snapshot's table |

## Left out

- The HTTP client, JSON deserialisation and the token cache of `UniversalLoaderApiService` are left out. The remote list, and what a run request does, are parameters.
- `Decimal.ParseDecimal` is not part of the source. It is the reference against which the formatting of `int.ToString()` is proved.
- The timer and `Task.Delay` with its 30-minute interval are left out. Cancellation is modelled as the end of a finite list of ticks, so `ExecuteAsync` runs one pass per element.
- Dependency-injection scopes are modelled only as a fresh `DbContext` per pass and per request.
- Logging is left out. It has no effect on state or results.
- Concurrency is not modelled. A background pass and a controller request can overlap in the source, with no guard between them. The model runs each pass on its own.
- Null strings are not modelled. `WorkflowName` and `MultiExecBehavior` default to "" in the entity and the DTO, and a Dafny string is never null.
- The EF Core change tracker is reduced to an identity map keyed by id. `Add` and `AddRange` do not start tracking the new entity. Exceptions from EF other than the modelled `DbError` cases (duplicate key, missing row, over-long value, unreachable table) are not modelled.
- Duplicate remote ids are not covered by the convergence theorems, which assume a mirrorable snapshot. For duplicates the model follows `First` literally and builds one insert per record (`Reconcile.ToInsertMultiplicity`).
- Store.DbContext.AddRange: EF Core refuses to track a second entity with a key it already tracks, so with two new records under one id `AddRangeAsync` itself throws and SaveChanges is never called. The model accepts the `AddRange`, records the SaveChanges call in `SyncCalls`, and has `Commit` refuse the second insert with `DuplicateKey`. The table is unchanged either way, but the call log and the error differ.
- Decimal.DecimalString: `int.ToString()` writes the current culture's negative sign. The model fixes it to '-', the sign of the invariant culture and of the common cultures.
- WorkflowsServices.WorkflowsService.DeleteWorkflow: the call log is stated only in part:
  - a `Find` comes first;
  - for a missing id it is the only call;
  - for a present id the last call is `SaveChanges`.

  The `Remove` in between is not stated. The full call sequence made the proof too costly.
- Convergence.SecondPassWritesNothing: it does not restate that every remote record is updated. `Convergence.UpdatesEveryRemote` proves that separately.
- IceSync.Web (the React front end) and Program.cs wiring are not part of this model.
