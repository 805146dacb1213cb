# laravel-dag-manager: closure-table DAG, modelled in Dafny

laravel-dag-manager stores a directed acyclic graph per *source* as its transitive
closure in one table. Each row is `(id, start_vertex, end_vertex, hops, source,
entry_edge_id, exit_edge_id, direct_edge_id)`. A row with `hops = 0` is a direct
edge; any other row is an implied path. An implied row names the two rows it was
composed from (`entry`, `exit`) and the direct edge whose insertion created it.

The model covers the core of the package:

- **Edge insertion**, in both copies (`Tasks\AddDagEdge`, and `Actions\AddDagEdge`
  with `CreateCompleteEdge`, `CreateDirectEdge` and `CreateImpliedEdges`), which do
  the same thing. The steps are:
  - the duplicate check and the cycle guard;
  - the direct-row write with its three self references;
  - the three insert-from-select generators of implied rows;
  - the hop-ordered read-back and the hop-ceiling guard.
- **Removal**, in both copies (`Tasks\RemoveDagEdge`, and `Actions\RemoveDagEdge`
  with `GetAllEdgeEntryIds`). It looks up the direct row, runs a fixed-point scan
  over the rows built on collected rows, and deletes what it collected.
- **The relation queries** of `DagService` and the `IsDagManaged` scopes:
  - id validation;
  - the clamped hop ceiling;
  - the descendants and ancestors subquery;
  - the relations scope as ancestors or descendants.
- **The transactions** of `createEdge` and `deleteEdge`, as "roll the rows back on
  an exception".

## How it is modelled

- **The table.**
  - `EdgeStore.EdgeTable` is a class with the fields `rows: seq<Row>` and
    `nextId` (the auto-increment counter).
  - Its methods are the statements the core runs: `create`, `update`, insert from
    select, `whereIn(...)->delete()` and `rollBack`.
  - Each method is proved to leave exactly one pure function of the old value
    `Db(rows, nextId)`.
  - SQL NULL in an id column, between the `create` and the `update` of a direct
    row, is `NoId = 0`. Ids start at 1.
- **Queries.** A `WHERE` is a `Cond` value, and `Where(t, c)` keeps the matching
  rows in table order.
- **Imperative code stays imperative.** The insertion and removal code is methods
  on the table, proved against pure functions:
  - `Insertion.AddEdge`, `Insertion.CompleteEdgeWritten`, …;
  - `Removal.EntryIds`, `Removal.RemoveEdge`.

  The properties are lemmas about those functions.
- **The do-while scan.** The do-while of `getIdsToDelete` and
  `GetAllEdgeEntryIds.__invoke` is a `while` loop preceded by its first pass. It
  issues the same queries in the same order. It terminates because every pass that
  adds something lowers the number of rows whose id is not yet collected.
- **Path semantics of the closure.**
  - `Closure`: each row read as a link `(from, to, hops, source)`.
  - `ClosureInvariant`:
    - hop closure, meaning two rows that meet compose into a row;
    - no self loops;
    - soundness, meaning every row is a walk of `hops + 1` direct edges.
  - It holds for the empty table and is preserved by every `createEdge`.
- **Path semantics of removal.** `Provenance.Uses` gives the direct edges on the
  path a row stands for. In a table the core has built (`Grounded`), the scan
  collects exactly the rows whose path uses the removed edge. A removal therefore
  keeps exactly the rows whose path avoids it.
- **The caller's query builder** is a list of `whereIn` / `orWhereIn` key filters,
  read left to right. The scopes append to it.
- **Concrete scenarios.** `Scenarios` replays the test suite's chain D → C → B → A:
  - the inserted rows and their order;
  - a duplicate;
  - a cycle;
  - the hop ceiling with rollback;
  - three removals;
  - the descendants and ancestors queries by ceiling.

One behaviour worth noting:

- **removeEdge's result.** It returns true whenever the collected id list is
  non-empty (src/Tasks/RemoveDagEdge.php:56-64). It does not look at how many
  rows the DELETE removed. `Removal.RemoveEdge` does the same.
  `Provenance.RemovalKeepsOthers` shows that on any table the core built this
  is the same as "the direct row was found", since the direct row itself is
  always collected.

## Model

| member | source | states |
|---|---|---|
| EdgeStore.EdgeTable.Create | src/Actions/CreateDirectEdge.php:23-33 | `create` appends one row with the given start, end, source and hops 0, no id references, and the next auto-increment id, and returns it; nothing else changes |
| EdgeStore.EdgeTable.UpdateRefs | src/Actions/CreateDirectEdge.php:35-42 | `update` sets entry, exit and direct id of the row with the target id and changes no other row; the id order and reference bounds of the table are kept |
| EdgeStore.EdgeTable.InsertFromSelect | src/Actions/CreateImpliedEdges.php:86-101 | `INSERT ... SELECT` appends the selected rows under fresh consecutive ids and leaves the stored rows as they were |
| EdgeStore.EdgeTable.DeleteWhereIn | src/Actions/RemoveDagEdge.php:54-56 | `whereIn('id', ids)->delete()` keeps exactly the rows whose id is not in the set, in order, and keeps the counter |
| EdgeStore.EdgeTable.RollBack | src/Services/DagService.php:45-46 | `rollBack` restores the rows saved at `beginTransaction`; the auto-increment counter is not restored |
| EdgeStore.Where | src/Tasks/AddDagEdge.php:72-77 | a `WHERE` keeps exactly the rows satisfying the condition and never adds any |
| EdgeStore.DeleteKeepsValid | src/Tasks/RemoveDagEdge.php:60-62 | a delete keeps ids increasing and every reference below the counter |
| Insertion.CreateDirectEdge | src/Actions/CreateDirectEdge.php:15-21 | createEdge then updateNewEdge (also src/Tasks/AddDagEdge.php:111-127) leave exactly the table `DirectEdgeWritten` describes and return the new row |
| Insertion.CreateAsIncomingEdgesToB | src/Actions/CreateImpliedEdges.php:26-43 | the class 1 insert (also src/Tasks/AddDagEdge.php:129-146) leaves exactly the table with the class 1 select over the current table appended |
| Insertion.CreateAToBsOutgoingEdges | src/Actions/CreateImpliedEdges.php:45-62 | the class 2 insert (also src/Tasks/AddDagEdge.php:148-165) leaves exactly the table with the class 2 select appended |
| Insertion.CreateAsIncomingEdgesToEndVertexOfBsOutgoingEdges | src/Actions/CreateImpliedEdges.php:64-84 | the class 3 cross-join insert (also src/Tasks/AddDagEdge.php:167-187) leaves exactly the table with the cross join appended |
| Insertion.CreateImpliedEdges | src/Actions/CreateImpliedEdges.php:17-24 | the three inserts run in order, each reading the table the previous one left |
| Insertion.CreateCompleteEdge | src/Actions/CreateCompleteEdge.php:20-26 | the direct write followed by the implied inserts (also src/Tasks/AddDagEdge.php:98-109); the result is the direct row |
| Insertion.AddDagEdge | src/Actions/AddDagEdge.php:26-38 | `__invoke` / `execute` (also src/Tasks/AddDagEdge.php:50-63): null on a duplicate, CircularReference before any write, otherwise the write, the read-back and TooManyHops after the write; the table and the outcome are those of `AddEdge` |
| Insertion.BridgedRowsMember | src/Tasks/AddDagEdge.php:167-187 | each row of the cross join comes from one row a ending at the start and one row b starting at the end |
| Insertion.BridgedRowsHas | src/Tasks/AddDagEdge.php:178-184 | every pair of such rows yields a row of the cross join |
| InsertionFacts.IncomingClass | src/Actions/CreateImpliedEdges.php:26-43 | the class 1 select has exactly one row per same-source row x ending at the start: x's start to the new end, `x.hops + 1`, entry x, exit and direct the new edge |
| InsertionFacts.OutgoingClass | src/Actions/CreateImpliedEdges.php:45-62 | the class 2 select has exactly one row per same-source row y starting at the end: the new start to y's end, `y.hops + 1`, entry and direct the new edge, exit y |
| InsertionFacts.BridgedClass | src/Actions/CreateImpliedEdges.php:64-84 | the class 3 select has exactly one row per same-source pair (a, b): a's start to b's end, `a.hops + b.hops + 2`, entry a, exit b, direct the new edge |
| InsertionFacts.ReadsOldTable | src/Actions/CreateImpliedEdges.php:17-24 | rows written before a select that neither end at the start nor start at the end do not change what the select reads |
| InsertionFacts.SequentialStages | src/Tasks/AddDagEdge.php:98-109 | once the cycle guard has passed, no select reads the direct row or another class's output, so the sequential inserts append the three classes of the old table |
| InsertionFacts.ImpliedFromSnapshot | src/Actions/CreateImpliedEdges.php:17-24 | the three inserts together append the implied rows computed from the table before the direct write |
| InsertionFacts.DirectEdgeRows | src/Tasks/AddDagEdge.php:111-127 | the direct write appends one row, hops 0, whose entry, exit and direct ids are its own id, and modifies no stored row |
| InsertionFacts.SnapshotWrite | src/Actions/CreateCompleteEdge.php:20-26 | after the guards, the complete write appends exactly the direct row followed by the renumbered implied rows, and returns the direct row |
| InsertionFacts.AddedCount | src/Tasks/AddDagEdge.php:98-109 | one insertion adds `(1 + p) * (1 + q)` rows, where p same-source rows end at the start and q start at the end |
| InsertionFacts.AddedRowsShape | src/Actions/CreateImpliedEdges.php:31 | the added rows have consecutive fresh ids, all carry the new direct id and the edge's source, and the direct row is the only one with hops 0 |
| InsertionFacts.EdgeExistsIff | src/Tasks/AddDagEdge.php:70-78 | edgeExists holds exactly when a hops 0 row with this start, end and source is stored |
| InsertionFacts.IsCircularIff | src/Tasks/AddDagEdge.php:83-96 | the guard throws exactly for a self loop or a stored end → start row of any hop count in the same source |
| InsertionFacts.NoReverseRow | src/Actions/AddDagEdge.php:55-70 | when the guard passes, no same-source row runs end → start |
| InsertionFacts.OtherSourcesIgnored | src/Actions/AddDagEdge.php:44-49 | rows of other sources change neither duplicate detection, nor the cycle guard, nor any of the three selects |
| InsertionFacts.ExceedsMaxHopsIff | src/Actions/AddDagEdge.php:84-89 | on a hop-ordered list, the guard on the last row throws exactly when some row exceeds the ceiling |
| InsertionFacts.DuplicateLeavesTable | src/Actions/AddDagEdge.php:28-30 | the result is null exactly for a duplicate, and then the table is unchanged |
| InsertionFacts.CircularLeavesTable | src/Actions/AddDagEdge.php:32 | CircularReference is raised exactly when there is no duplicate and the guard fails, and then nothing was written |
| InsertionFacts.InsertionResult | src/Tasks/AddDagEdge.php:50-63 | past the guards:<br>• the table gains exactly the added rows;<br>• TooManyHops is raised exactly when one exceeds the ceiling;<br>• otherwise the result is those rows sorted by hops, the direct row first, all within the ceiling |
| InsertionFacts.NewRowsTagged | src/Tasks/AddDagEdge.php:206-211 | the rows tagged with the new direct id are exactly the added rows: no older row carries it |
| Ordering.OrderByHops | src/Actions/AddDagEdge.php:76-78 | `orderBy('hops')` yields a permutation of its input in non-decreasing hop order |
| Ordering.InsertByHops | src/Actions/AddDagEdge.php:77 | inserting one row into a hop-ordered list keeps it ordered and adds exactly that row |
| Closure.WalkHasLink | src/Tasks/AddDagEdge.php:129-187 | in a hop-closed table every walk of direct edges is stored as one row with its length in hops |
| Closure.Acyclic | src/Tasks/AddDagEdge.php:83-96 | in a closed table with no self loop, no two same-source rows run in opposite directions |
| Closure.GrownInvariant | src/Tasks/AddDagEdge.php:98-109 | adding an admissible edge's bridges to a closed set of links gives a closed set containing the old links and the edge |
| Closure.LinksGrown | src/Actions/CreateImpliedEdges.php:17-24 | the links of the table after an insertion are the old links plus exactly the bridges through the new edge |
| Closure.AdmitsIff | src/Actions/AddDagEdge.php:55-70 | the cycle guard passes exactly when the link set admits the edge |
| Closure.AddEdgeKeepsClosure | src/Tasks/AddDagEdge.php:50-63 | every insertion outcome keeps hop closure, the absence of self loops, and soundness (each row a walk of `hops + 1` direct edges) |
| Removal.First | src/Tasks/RemoveDagEdge.php:35-40 | `->first()` is none exactly when no row matches, and otherwise is the first matching row in table order |
| Removal.DependentsShrink | src/Actions/GetAllEdgeEntryIds.php:35-48 | a pass that finds rows lowers the count of uncollected rows; an empty pass leaves the list as it was |
| Removal.GetAllEdgeEntryIds | src/Actions/GetAllEdgeEntryIds.php:19-51 | the seed query, then the do-while scan (also src/Tasks/RemoveDagEdge.php:70-102), returns exactly `EntryIds` |
| Removal.DeleteEntries | src/Actions/RemoveDagEdge.php:48-59 | removeDagEdge (also src/Tasks/RemoveDagEdge.php:52-65): an empty list gives false and no change; otherwise exactly those ids are deleted and the result is true |
| Removal.RemoveDagEdge | src/Actions/RemoveDagEdge.php:23-43 | `__invoke` / `execute` (also src/Tasks/RemoveDagEdge.php:31-47): false and no change if no direct row matches, otherwise the collection and the delete; the table and the result are those of `RemoveEdge` |
| Removal.SeedIsTagged | src/Actions/GetAllEdgeEntryIds.php:25-29 | the seed holds exactly the ids of the rows whose direct id is the edge's |
| Removal.DependentsAre | src/Actions/GetAllEdgeEntryIds.php:36-45 | each pass adds only rows with hops > 0, not yet collected, whose entry or exit is collected |
| Removal.EntryIdsDistinct | src/Actions/GetAllEdgeEntryIds.php:39 | the collected list holds no id twice |
| Removal.EntryIdsFacts | src/Actions/GetAllEdgeEntryIds.php:25-48 | the list starts with the seed, is closed under "built upon" (no uncollected row with hops > 0 references a collected id), and every later id is built on an earlier one |
| Removal.EntryIdsLeast | src/Tasks/RemoveDagEdge.php:76-99 | the collection is the least set that contains the seed and is closed under "built upon" |
| Provenance.SeedUses | src/Tasks/RemoveDagEdge.php:76-80 | every seed row's path uses the removed edge |
| Provenance.UsersClosed | src/Tasks/RemoveDagEdge.php:86-99 | the rows whose path uses an edge are closed under "built upon" |
| Provenance.CollectedAreUsers | src/Tasks/RemoveDagEdge.php:70-102 | in a table the core built, the collected ids are exactly the rows whose path uses the removed edge |
| Provenance.KeptAreAvoiders | src/Tasks/RemoveDagEdge.php:60-62 | the rows the delete keeps are exactly those whose path avoids the removed edge |
| Provenance.EdgeCollected | src/Tasks/RemoveDagEdge.php:76-80 | the direct row itself is collected |
| Provenance.OtherDirectAvoids | src/Tasks/RemoveDagEdge.php:89 | no other direct edge's path uses the removed edge, so the scan never takes another hops 0 row |
| Provenance.FoundIsDirect | src/Actions/RemoveDagEdge.php:27-32 | the row found is a stored row with hops 0 |
| Provenance.RemovalKeepsOthers | src/Tasks/RemoveDagEdge.php:31-65 | on a table the core built:<br>• the result is true exactly when a direct row matches; with none the table is unchanged;<br>• the counter is kept;<br>• the remaining rows are exactly those whose path avoids the edge, and every other direct edge survives |
| Provenance.RemovalKeepsGrounded | src/Tasks/RemoveDagEdge.php:86-99 | after a removal every remaining implied row still references stored rows and a stored direct edge |
| Provenance.InsertionKeepsGrounded | src/Actions/CreateImpliedEdges.php:26-84 | every insertion outcome keeps each row's references grounded in older stored rows |
| Queries.GetIdsAsArray | src/Models/Traits/IsDagManaged.php:54-57 | an array passes through; any other value becomes a one-element array of itself |
| Queries.GuardAgainstInvalidModelIds | src/Services/DagService.php:107-114 | InvalidArgument exactly when some value is not an int; otherwise the ints in order |
| Queries.EffectiveMaxHops | src/Services/DagService.php:116-124 | the request is preferred, capped by the configured ceiling and raised to 0; no request gives the configured ceiling |
| Queries.RelatedIff | src/Services/DagService.php:88-98 | a vertex is selected exactly when a same-source row within the ceiling runs from it to a seed (down) or from a seed to it; each vertex appears once |
| Queries.RelatedAreWalks | src/Services/DagService.php:88-98 | in a closed table, the subquery selects exactly the vertices joined to a seed by a walk of at most `ceiling + 1` direct edges |
| Queries.SeedNeedsAnotherSeed | src/Services/DagService.php:94-98 | in an acyclic table a seed is selected only through a row from a different vertex |
| Queries.QueryBuilder.AddKeyFilter | src/Services/DagService.php:86-88 | `whereIn` / `orWhereIn` appends one key filter to the caller's query |
| Queries.WhereInNarrows | src/Services/DagService.php:86 | a `whereIn` admits a key exactly when the earlier filters do and the key is in the set |
| Queries.OrWhereInWidens | src/Services/DagService.php:86 | an `orWhereIn` admits a key when the earlier filters do or the key is in the set |
| Service.DagService.CreateEdge | src/Services/DagService.php:38-52 | the insertion in a transaction: the result and the table are `CreateEdgeOutcome`'s, and on an exception the rows are restored |
| Service.DagService.DeleteEdge | src/Services/DagService.php:54-68 | the removal in a transaction: the table and the result are those of `RemoveEdge` |
| Service.DagService.QueryDagRelationsForModel | src/Services/DagService.php:73-105 | InvalidArgument and an unchanged query for a non-int id; otherwise exactly one filter on the related vertices under the clamped ceiling |
| Service.CreateEdgeAllOrNothing | src/Services/DagService.php:40-49 | after createEdge:<br>• on an exception or a duplicate the rows are as before;<br>• an exception happens exactly for a cycle or too many hops;<br>• on success exactly the new rows are appended and returned in hop order within the ceiling |
| Service.CreateEdgeKeepsHealthy | src/Services/DagService.php:38-52 | every createEdge outcome keeps the table valid, grounded, closed and within the ceiling |
| Service.HealthyAcyclic | src/Tasks/AddDagEdge.php:83-96 | along any sequence of createEdge calls, no row is a self loop and no two same-source rows run in opposite directions |
| Service.DeleteEdgeKeepsGrounded | src/Services/DagService.php:54-68 | deleteEdge keeps:<br>• the counter valid;<br>• the references grounded;<br>• the rows within the ceiling;<br>and it only removes rows |
| DagScopes.ScopeDagDescendantsOf | src/Models/Traits/IsDagManaged.php:20-24 | wraps the ids and adds the descendants filter (down); InvalidArgument leaves the query unchanged |
| DagScopes.ScopeDagAncestorsOf | src/Models/Traits/IsDagManaged.php:31-35 | wraps the ids and adds the ancestors filter (up) |
| DagScopes.ScopeDagRelationsOf | src/Models/Traits/IsDagManaged.php:42-47 | adds the ancestors filter, then the descendants filter as an `orWhereIn` |
| DagScopes.RelationsIsUnion | src/Models/Traits/IsDagManaged.php:45-46 | on its own query the relations scope admits exactly ancestors ∪ descendants; after the caller's own filters, the alternative applies to every filter before it |
| DagScopes.IdsAsArrayGuarded | src/Models/Traits/IsDagManaged.php:54-57 | a scalar id becomes the one seed; a float, a bool or a collection object is one non-int value and is refused; an array passes exactly when all its values are ints |
| InsertionScenarios.FirstEdge | tests/DagManagerTest.php:41-79 | B → A in the empty table writes one direct row and returns it |
| InsertionScenarios.SecondEdge | tests/DagManagerTest.php:154-163 | C → B after B → A writes C → B and C → A |
| InsertionScenarios.ThirdEdge | tests/DagManagerTest.php:154-184 | D → C after that returns D → C, D → B and D → A with 0, 1 and 2 hops, in that order |
| InsertionScenarios.DuplicateEdge | tests/DagManagerTest.php:120-141 | inserting B → A again returns null and writes nothing |
| InsertionScenarios.CircularEdges | tests/DagManagerTest.php:84-107 | A → C over the chain and A → A raise CircularReference and write nothing |
| ServiceScenarios.CeilingRollsBack | tests/DagManagerTest.php:486-601 | an analogue of that test on a smaller graph: on the two-edge chain with a ceiling of 1, D → C throws TooManyHops and the rows are rolled back |
| RemovalScenarios.DeleteOnlyEdge | tests/DagManagerTest.php:630-651 | deleting the only edge empties the table and returns true |
| RemovalScenarios.DeleteAbsentEdge | tests/DagManagerTest.php:606-625 | deleting from the empty table, or an edge stored only as an implied row, returns false |
| RemovalScenarios.DeleteFromChain | tests/DagManagerTest.php:664-695 | deleting C → B from the chain leaves exactly B → A and D → C |
| QueryScenarios.DescendantsByCeiling | tests/IsDagManagedTraitTest.php:588-598 | the descendants of A are {B} at ceilings 0 and -1, {B, C} at 1, and {B, C, D} by default |
| QueryScenarios.AncestorsOfD | tests/IsDagManagedTraitTest.php:704-713 | the ancestors of D by default are {A, B, C} |

## Left out

- The SQL text and the database layer. This covers the `DB::connection` calls,
  the string building in `executeInsert` and the Eloquent `create`/`update`/`get`.
  Each statement is a set operation on the row sequence instead.
- Connections and table names, and the literal `'dag_edges'` in
  src/Tasks/AddDagEdge.php:131. The model has one table.
- The connection name of the implied inserts. At src/Services/DagService.php:42
  the table name (for example `dag_edges`) arrives in the `$connection` parameter
  of `Tasks\AddDagEdge`, which passes it to `DB::connection(...)` for the three
  implied inserts (src/Tasks/AddDagEdge.php:131-203). The model assumes that name
  resolves to the connection of the table itself. Whether the rows land there
  depends on the application's connection configuration, which is not part of
  this model.
- Configuration and bootstrapping: the config file, `UsesDagConfig`, the service
  provider and the helpers. The hop ceiling is a plain `nat` given to
  `DagService`, and the edge model class is the model's own table.
- The transaction machinery. It is modelled only as "restore the saved rows on an
  exception". This leaves out:
  - concurrent writers and races between transactions;
  - restoring the auto-increment counter, which the model deliberately does not
    restore;
  - the text of exception messages. Each exception is a variant of `DagError`.
- Service.DagService.DeleteEdge: the rollback branch of deleteEdge is not
  modelled, since no removal statement throws in the model. Its contract is the
  committed removal.
- The SQL injection concern of interpolating `source` into the select lists.
  Rows are built from values.
- How Eloquent combines `whereIn` / `orWhereIn` with the caller's own clauses,
  i.e. operator precedence and grouping. The filters are read strictly left to
  right.
- Ordering.OrderByHops: it fixes an order among rows of equal hops, which a
  database does not promise. No contract relies on that order; they state only
  "ordered by hops and a permutation".
- Service.DeleteEdgeKeepsGrounded: it does not re-establish hop closure or
  soundness after a removal. The kept rows are exactly those whose path avoids the
  edge (`Provenance.RemovalKeepsOthers`). Proving the remaining table closed would
  also need every stored row to be the only row of its path, which the model does
  not carry as an invariant.
- The do-while loops are written as their first pass followed by a `while` loop.
  This issues the same queries in the same order.
- `Model $model` and `getQualifiedKeyName()` are reduced to the key integer that
  the filters test.
