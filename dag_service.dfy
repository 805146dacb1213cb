/**
 * DagService: the transactional entry points and the relation filter.
 * createEdge runs the insertion inside a transaction and rolls the table
 * back when it throws; deleteEdge does the same for a removal;
 * queryDagRelationsForModel validates the ids, clamps the ceiling and adds
 * one key filter to the caller's query.
 */
module Service {
  import opened DagModel
  import opened EdgeStore
  import opened Ordering
  import opened Insertion
  import opened InsertionFacts
  import opened Closure
  import opened Removal
  import opened Provenance
  import opened Queries

  /** The table after createEdge, and what it returned or threw. */
  datatype Created = Created(db: Db, result: Result<Option<seq<Row>>>)

  /**
   * createEdge on values: a duplicate gives null, a success the new rows; an
   * exception restores the rows (the auto-increment counter is not restored).
   */
  function CreateEdgeOutcome(db: Db, d: EdgeData, maxHops: nat): Created
  {
    var s := AddEdge(db, d, maxHops);
    match s.outcome
    case Duplicate => Created(s.db, Success(None))
    case Added(es) => Created(s.db, Success(Some(es)))
    case Failed(e) => Created(Db(db.rows, s.db.nextId), Failure(e))
  }

  lemma BoundedMono(t: seq<Row>, n: nat, m: nat)
    requires Bounded(t, n) && n <= m
    ensures Bounded(t, m)
  {
  }

  /** An insertion only appends: the old rows stay bounded by the new counter. */
  lemma CounterGrows(db: Db, d: EdgeData, maxHops: int)
    requires StoreValid(db)
    ensures db.nextId <= AddEdge(db, d, maxHops).db.nextId
  {
    if !EdgeExists(db.rows, d) && !IsCircular(db.rows, d) {
      InsertionResult(db, d, maxHops);
    }
  }

  class DagService {
    /** The configured ceiling on hops. */
    const maxHops: nat
    const table: EdgeTable

    constructor (maxHops: nat, table: EdgeTable)
      ensures this.maxHops == maxHops && this.table == table
    {
      this.maxHops := maxHops;
      this.table := table;
    }

    /** createEdge: beginTransaction, the insertion, commit; rollBack and rethrow on an exception. */
    method CreateEdge(startVertex: int, endVertex: int, source: string) returns (r: Result<Option<seq<Row>>>)
      requires table.Valid()
      modifies table
      ensures table.Valid()
      ensures Created(table.Value(), r) == CreateEdgeOutcome(old(table.Value()), EdgeData(startVertex, endVertex, source), maxHops)
    {
      var d := EdgeData(startVertex, endVertex, source);
      var saved := table.rows;
      ghost var before := table.Value();
      var outcome := AddDagEdge(table, d, maxHops);
      match outcome {
        case Failed(e) =>
          CounterGrows(before, d, maxHops);
          BoundedMono(saved, before.nextId, table.nextId);
          table.RollBack(saved);
          r := Failure(e);
        case Duplicate =>
          r := Success(None);
        case Added(es) =>
          r := Success(Some(es));
      }
    }

    /** deleteEdge: the removal inside a transaction (the removal itself throws nothing here). */
    method DeleteEdge(startVertex: int, endVertex: int, source: string) returns (removed: bool)
      requires table.Valid()
      modifies table
      ensures table.Valid()
      ensures Outcome(table.Value(), removed) == RemoveEdge(old(table.Value()), EdgeData(startVertex, endVertex, source))
    {
      removed := RemoveDagEdge(table, EdgeData(startVertex, endVertex, source));
    }

    /**
     * queryDagRelationsForModel: InvalidArgument for a non-int id, leaving the
     * query as it was; otherwise one whereIn (orWhereIn when or) on the model
     * key, with the related vertices of the seeds.
     */
    method QueryDagRelationsForModel(query: QueryBuilder, modelIds: seq<PhpValue>, source: string, down: bool,
                                     requested: Option<int>, or: bool) returns (thrown: Option<DagError>)
      modifies query
      ensures thrown.Some? <==> !AllInts(modelIds)
      ensures thrown.Some? ==> thrown.value == InvalidArgument && query.clauses == old(query.clauses)
      ensures thrown.None? ==> (query.clauses == old(query.clauses) +
        [KeyIn(RelatedVertices(table.rows, IntsOf(modelIds), source, down, EffectiveMaxHops(requested, maxHops)), or)])
    {
      var checked := GuardAgainstInvalidModelIds(modelIds);
      if checked.Failure? {
        return Some(checked.error);
      }
      var ceiling := EffectiveMaxHops(requested, maxHops);
      query.AddKeyFilter(RelatedVertices(table.rows, checked.value, source, down, ceiling), or);
      return None;
    }
  }

  // ---------------------------------------------------------------------
  // All or nothing
  // ---------------------------------------------------------------------

  /**
   * createEdge leaves the rows as they were when it throws or finds a
   * duplicate, and otherwise appends exactly the new rows, which it returns
   * in hop order, all within the ceiling.
   */
  lemma CreateEdgeAllOrNothing(db: Db, d: EdgeData, maxHops: nat)
    requires StoreValid(db)
    ensures var c := CreateEdgeOutcome(db, d, maxHops);
      c.result.Failure? || c.result == Success(None) ==> c.db.rows == db.rows
    ensures var c := CreateEdgeOutcome(db, d, maxHops);
      c.result.Failure? <==> !EdgeExists(db.rows, d) && (IsCircular(db.rows, d) || exists x :: x in AddedRows(db, d) && x.hops > maxHops)
    ensures var c := CreateEdgeOutcome(db, d, maxHops);
      c.result.Success? && c.result.value.Some? ==>
        c.db.rows == db.rows + AddedRows(db, d) &&
        SortedByHops(c.result.value.value) && multiset(c.result.value.value) == multiset(AddedRows(db, d)) &&
        forall x :: x in c.result.value.value ==> x.hops <= maxHops
  {
    if !EdgeExists(db.rows, d) && !IsCircular(db.rows, d) {
      InsertionResult(db, d, maxHops);
    }
  }

  /** What every table the service commits satisfies. */
  ghost predicate Healthy(db: Db, maxHops: nat)
  {
    StoreValid(db) && Grounded(db.rows) && ClosureInvariant(LinksOf(db.rows)) &&
    forall x :: x in db.rows ==> x.hops <= maxHops
  }

  lemma EmptyHealthy(maxHops: nat)
    ensures Healthy(Db([], 1), maxHops)
  {
    assert LinksOf([]) == {};
  }

  /** The rows a committed insertion appends are within the ceiling. */
  lemma AddedWithinCeiling(db: Db, d: EdgeData, maxHops: nat)
    requires StoreValid(db) && AddEdge(db, d, maxHops).outcome.Added?
    ensures forall x :: x in AddedRows(db, d) ==> x.hops <= maxHops
  {
    InsertionResult(db, d, maxHops);
    var es := AddEdge(db, d, maxHops).outcome.edges;
    forall x | x in AddedRows(db, d) ensures x.hops <= maxHops {
      assert x in multiset(AddedRows(db, d));
      assert x in es;
    }
  }

  lemma AddedKeepsCeiling(db: Db, d: EdgeData, maxHops: nat)
    requires StoreValid(db) && AddEdge(db, d, maxHops).outcome.Added?
    requires forall x :: x in db.rows ==> x.hops <= maxHops
    ensures forall x :: x in AddEdge(db, d, maxHops).db.rows ==> x.hops <= maxHops
    ensures StoreValid(AddEdge(db, d, maxHops).db)
  {
    InsertionResult(db, d, maxHops);
    AddedWithinCeiling(db, d, maxHops);
    AppendValid(db, d);
  }

  lemma AddedKeepsHealthy(db: Db, d: EdgeData, maxHops: nat)
    requires Healthy(db, maxHops) && AddEdge(db, d, maxHops).outcome.Added?
    ensures Healthy(AddEdge(db, d, maxHops).db, maxHops)
  {
    AddedKeepsCeiling(db, d, maxHops);
    AddEdgeKeepsClosure(db, d, maxHops);
    InsertionKeepsGrounded(db, d, maxHops);
  }

  /** Every outcome of createEdge keeps the service's table healthy. */
  lemma CreateEdgeKeepsHealthy(db: Db, d: EdgeData, maxHops: nat)
    requires Healthy(db, maxHops)
    ensures Healthy(CreateEdgeOutcome(db, d, maxHops).db, maxHops)
  {
    var s := AddEdge(db, d, maxHops);
    if s.outcome.Failed? {
      CounterGrows(db, d, maxHops);
      BoundedMono(db.rows, db.nextId, s.db.nextId);
    } else if s.outcome.Added? {
      AddedKeepsHealthy(db, d, maxHops);
    }
  }

  /**
   * Over any sequence of createEdge calls from the empty table, no two rows
   * of one source run in opposite directions, and no row is a self loop.
   */
  lemma HealthyAcyclic(db: Db, maxHops: nat, x: Row, y: Row)
    requires Healthy(db, maxHops) && x in db.rows && y in db.rows && x.source == y.source
    ensures x.startVertex != x.endVertex
    ensures !(x.startVertex == y.endVertex && x.endVertex == y.startVertex)
  {
    assert LinkOf(x) in LinksOf(db.rows) && LinkOf(y) in LinksOf(db.rows);
    Acyclic(LinksOf(db.rows), LinkOf(x), LinkOf(y));
  }

  /** deleteEdge keeps the counter valid, the references grounded and the rows within the ceiling. */
  lemma DeleteEdgeKeepsGrounded(db: Db, d: EdgeData, maxHops: nat)
    requires StoreValid(db) && Grounded(db.rows) && forall x :: x in db.rows ==> x.hops <= maxHops
    ensures var after := RemoveEdge(db, d).db;
      StoreValid(after) && Grounded(after.rows) && LinksOf(after.rows) <= LinksOf(db.rows) &&
      forall x :: x in after.rows ==> x in db.rows
  {
    RemovalKeepsGrounded(db, d);
    match FindDirectEdge(db.rows, d)
    case None =>
    case Some(e) =>
      var ids := EntryIds(db.rows, e);
      if |ids| > 0 {
        DeleteKeepsValid(db, Members(ids));
      }
  }
}
