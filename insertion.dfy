/**
 * Edge insertion: the duplicate check, the cycle guard, the direct-row write
 * with its self references, the three insert-from-select generators of
 * implied rows, the hop-ordered read-back and the hop-ceiling guard.
 *
 * Each statement has a pure counterpart on Db values (the *Written and
 * select functions below); the methods run the statements against an
 * EdgeTable and are proved to leave exactly that value behind.
 */
module Insertion {
  import opened DagModel
  import opened EdgeStore
  import opened Ordering

  /** null (duplicate), the new rows, or the exception raised. */
  datatype AddOutcome = Duplicate | Added(edges: seq<Row>) | Failed(error: DagError)

  /** The table after a call, and what the call returned. */
  datatype Step = Step(db: Db, outcome: AddOutcome)

  /** The table after a write, and the direct row the write returned. */
  datatype Written = Written(db: Db, edge: Row)

  /** edgeExists: a hops = 0 row with this start, end and source is stored. */
  predicate EdgeExists(t: seq<Row>, d: EdgeData)
  {
    Count(t, DirectBetween(d.startVertex, d.endVertex, d.source)) > 0
  }

  /** guardAgainstCircularRelation throws: a self loop, or a stored row end -> start of any hop count. */
  predicate IsCircular(t: seq<Row>, d: EdgeData)
  {
    d.startVertex == d.endVertex || Count(t, Between(d.endVertex, d.startVertex, d.source)) > 0
  }

  /** The direct edge row once its id references point at itself. */
  function DirectRow(id: nat, d: EdgeData): Row
  {
    Row(id, d.startVertex, d.endVertex, 0, d.source, id, id, id)
  }

  /** createEdge, then updateNewEdge: one new row, then its three references set to its own id. */
  function DirectEdgeWritten(db: Db, d: EdgeData): Written
  {
    var id := db.nextId;
    var created := Insert(db, [Row(NoId, d.startVertex, d.endVertex, 0, d.source, NoId, NoId, NoId)]);
    Written(Updated(created, id, id, id, id), DirectRow(id, d))
  }

  // --- the select lists of the three generators (ids are assigned on insert) ---

  /** Class 1 row for an existing row x ending at the new edge's start. */
  function IncomingRow(x: Row, edge: Row, d: EdgeData): Row
  {
    Row(NoId, x.startVertex, d.endVertex, x.hops + 1, d.source, x.id, edge.id, edge.id)
  }

  /** Class 2 row for an existing row y starting at the new edge's end. */
  function OutgoingRow(y: Row, edge: Row, d: EdgeData): Row
  {
    Row(NoId, d.startVertex, y.endVertex, y.hops + 1, d.source, edge.id, y.id, edge.id)
  }

  /** Class 3 row for a pair: a ending at the new edge's start, b starting at its end. */
  function BridgedRow(a: Row, b: Row, edge: Row, d: EdgeData): Row
  {
    Row(NoId, a.startVertex, b.endVertex, a.hops + b.hops + 2, d.source, a.id, b.id, edge.id)
  }

  /** The rows the class 1 and class 3 selects read as x (or a). */
  function EndingAtStart(t: seq<Row>, d: EdgeData): seq<Row>
  {
    Where(t, EndsAt(d.startVertex, d.source))
  }

  /** The rows the class 2 and class 3 selects read as y (or b). */
  function StartingAtEnd(t: seq<Row>, d: EdgeData): seq<Row>
  {
    Where(t, StartsAt(d.endVertex, d.source))
  }

  function IncomingRows(xs: seq<Row>, edge: Row, d: EdgeData): (r: seq<Row>)
    ensures |r| == |xs|
    ensures forall i :: 0 <= i < |xs| ==> r[i] == IncomingRow(xs[i], edge, d)
  {
    seq(|xs|, i requires 0 <= i < |xs| => IncomingRow(xs[i], edge, d))
  }

  function OutgoingRows(ys: seq<Row>, edge: Row, d: EdgeData): (r: seq<Row>)
    ensures |r| == |ys|
    ensures forall i :: 0 <= i < |ys| ==> r[i] == OutgoingRow(ys[i], edge, d)
  {
    seq(|ys|, i requires 0 <= i < |ys| => OutgoingRow(ys[i], edge, d))
  }

  function BridgedFrom(a: Row, ys: seq<Row>, edge: Row, d: EdgeData): (r: seq<Row>)
    ensures |r| == |ys|
    ensures forall j :: 0 <= j < |ys| ==> r[j] == BridgedRow(a, ys[j], edge, d)
  {
    seq(|ys|, j requires 0 <= j < |ys| => BridgedRow(a, ys[j], edge, d))
  }

  /** The cross join of xs and ys, xs-major. */
  function BridgedRows(xs: seq<Row>, ys: seq<Row>, edge: Row, d: EdgeData): (r: seq<Row>)
    ensures |r| == |xs| * |ys|
    decreases |xs|
  {
    if xs == [] then []
    else
      var rest := BridgedRows(xs[1..], ys, edge, d);
      assert |xs| * |ys| == |ys| + (|xs| - 1) * |ys|;
      BridgedFrom(xs[0], ys, edge, d) + rest
  }

  /** createAsIncomingEdgesToB: the class 1 select over table t. */
  function AsIncomingEdgesToB(t: seq<Row>, edge: Row, d: EdgeData): seq<Row>
  {
    IncomingRows(EndingAtStart(t, d), edge, d)
  }

  /** createAToBsOutgoingEdges: the class 2 select over table t. */
  function AToBsOutgoingEdges(t: seq<Row>, edge: Row, d: EdgeData): seq<Row>
  {
    OutgoingRows(StartingAtEnd(t, d), edge, d)
  }

  /** createAsIncomingEdgesToEndVertexOfBsOutgoingEdges: the class 3 cross join over table t. */
  function AsIncomingEdgesToEndVertexOfBsOutgoingEdges(t: seq<Row>, edge: Row, d: EdgeData): seq<Row>
  {
    BridgedRows(EndingAtStart(t, d), StartingAtEnd(t, d), edge, d)
  }

  /** INSERT INTO ... SELECT of class 1 against the current table. */
  function IncomingWritten(db: Db, edge: Row, d: EdgeData): Db
  {
    Insert(db, AsIncomingEdgesToB(db.rows, edge, d))
  }

  /** INSERT INTO ... SELECT of class 2 against the current table. */
  function OutgoingWritten(db: Db, edge: Row, d: EdgeData): Db
  {
    Insert(db, AToBsOutgoingEdges(db.rows, edge, d))
  }

  /** INSERT INTO ... SELECT of class 3 against the current table. */
  function BridgedWritten(db: Db, edge: Row, d: EdgeData): Db
  {
    Insert(db, AsIncomingEdgesToEndVertexOfBsOutgoingEdges(db.rows, edge, d))
  }

  /** The three inserts in order; each select reads the table as the previous insert left it. */
  function ImpliedWritten(db: Db, edge: Row, d: EdgeData): Db
  {
    BridgedWritten(OutgoingWritten(IncomingWritten(db, edge, d), edge, d), edge, d)
  }

  /** CreateCompleteEdge: the direct write, then the implied rows; returns the direct row. */
  function CompleteEdgeWritten(db: Db, d: EdgeData): Written
  {
    var w := DirectEdgeWritten(db, d);
    Written(ImpliedWritten(w.db, w.edge, d), w.edge)
  }

  /** getNewlyInsertedEdges: every row tagged with the direct edge id, ordered by hops. */
  function NewlyInsertedEdges(t: seq<Row>, edgeId: nat): seq<Row>
  {
    OrderByHops(Where(t, HasDirectEdge(edgeId)))
  }

  /** guardAgainstExceedingMaximumHops throws: the list is not empty and its last row exceeds maxHops. */
  predicate ExceedsMaxHops(newEdges: seq<Row>, maxHops: int)
  {
    |newEdges| > 0 && newEdges[|newEdges| - 1].hops > maxHops
  }

  /** execute / __invoke, on values. */
  function AddEdge(db: Db, d: EdgeData, maxHops: int): Step
  {
    if EdgeExists(db.rows, d) then Step(db, Duplicate)
    else if IsCircular(db.rows, d) then Step(db, Failed(CircularReference))
    else
      var w := CompleteEdgeWritten(db, d);
      var newEdges := NewlyInsertedEdges(w.db.rows, w.edge.id);
      if ExceedsMaxHops(newEdges, maxHops) then Step(w.db, Failed(TooManyHops(maxHops)))
      else Step(w.db, Added(newEdges))
  }

  // ---------------------------------------------------------------------
  // The statements run against the table
  // ---------------------------------------------------------------------

  /** Every reference a select list writes is an id already handed out. */
  lemma SelectsBounded(t: seq<Row>, n: nat, edge: Row, d: EdgeData)
    requires Bounded(t, n) && edge.id < n
    ensures forall x :: x in AsIncomingEdgesToB(t, edge, d) ==> x.entryEdgeId < n && x.exitEdgeId < n && x.directEdgeId < n
    ensures forall x :: x in AToBsOutgoingEdges(t, edge, d) ==> x.entryEdgeId < n && x.exitEdgeId < n && x.directEdgeId < n
    ensures forall x :: x in AsIncomingEdgesToEndVertexOfBsOutgoingEdges(t, edge, d) ==>
      x.entryEdgeId < n && x.exitEdgeId < n && x.directEdgeId < n
  {
    IncomingBounded(t, n, edge, d);
    OutgoingBounded(t, n, edge, d);
    BridgedBounded(t, n, edge, d);
  }

  lemma IncomingBounded(t: seq<Row>, n: nat, edge: Row, d: EdgeData)
    requires Bounded(t, n) && edge.id < n
    ensures forall x :: x in AsIncomingEdgesToB(t, edge, d) ==> x.entryEdgeId < n && x.exitEdgeId < n && x.directEdgeId < n
  {
    var xs := EndingAtStart(t, d);
    forall x | x in AsIncomingEdgesToB(t, edge, d) ensures x.entryEdgeId < n {
      var i :| 0 <= i < |xs| && AsIncomingEdgesToB(t, edge, d)[i] == x;
      assert xs[i] in xs;
    }
  }

  lemma OutgoingBounded(t: seq<Row>, n: nat, edge: Row, d: EdgeData)
    requires Bounded(t, n) && edge.id < n
    ensures forall x :: x in AToBsOutgoingEdges(t, edge, d) ==> x.entryEdgeId < n && x.exitEdgeId < n && x.directEdgeId < n
  {
    var ys := StartingAtEnd(t, d);
    forall x | x in AToBsOutgoingEdges(t, edge, d) ensures x.exitEdgeId < n {
      var i :| 0 <= i < |ys| && AToBsOutgoingEdges(t, edge, d)[i] == x;
      assert ys[i] in ys;
    }
  }

  lemma BridgedBounded(t: seq<Row>, n: nat, edge: Row, d: EdgeData)
    requires Bounded(t, n) && edge.id < n
    ensures forall x :: x in AsIncomingEdgesToEndVertexOfBsOutgoingEdges(t, edge, d) ==>
      x.entryEdgeId < n && x.exitEdgeId < n && x.directEdgeId < n
  {
    var xs, ys := EndingAtStart(t, d), StartingAtEnd(t, d);
    forall x | x in BridgedRows(xs, ys, edge, d) ensures x.entryEdgeId < n && x.exitEdgeId < n && x.directEdgeId < n {
      BridgedRowsMember(xs, ys, edge, d, x);
      var i, j :| 0 <= i < |xs| && 0 <= j < |ys| && x == BridgedRow(xs[i], ys[j], edge, d);
      assert xs[i] in xs && ys[j] in ys;
    }
  }

  /** A row of the cross join comes from one a and one b. */
  lemma {:induction false} BridgedRowsMember(xs: seq<Row>, ys: seq<Row>, edge: Row, d: EdgeData, x: Row)
    requires x in BridgedRows(xs, ys, edge, d)
    ensures exists i, j :: 0 <= i < |xs| && 0 <= j < |ys| && x == BridgedRow(xs[i], ys[j], edge, d)
    decreases |xs|
  {
    var head := BridgedFrom(xs[0], ys, edge, d);
    if x in head {
      var j :| 0 <= j < |ys| && head[j] == x;
      assert x == BridgedRow(xs[0], ys[j], edge, d);
    } else {
      BridgedRowsMember(xs[1..], ys, edge, d, x);
      var i, j :| 0 <= i < |xs[1..]| && 0 <= j < |ys| && x == BridgedRow(xs[1..][i], ys[j], edge, d);
      assert xs[1..][i] == xs[i + 1];
    }
  }

  /** Every pair of the cross join yields a row. */
  lemma {:induction false} BridgedRowsHas(xs: seq<Row>, ys: seq<Row>, edge: Row, d: EdgeData, i: nat, j: nat)
    requires i < |xs| && j < |ys|
    ensures BridgedRow(xs[i], ys[j], edge, d) in BridgedRows(xs, ys, edge, d)
    decreases |xs|
  {
    var head := BridgedFrom(xs[0], ys, edge, d);
    if i == 0 {
      assert head[j] == BridgedRow(xs[0], ys[j], edge, d);
    } else {
      BridgedRowsHas(xs[1..], ys, edge, d, i - 1, j);
      assert xs[1..][i - 1] == xs[i];
    }
  }

  /** createEdge + updateNewEdge (CreateDirectEdge.__invoke, Tasks createDirectEdge). */
  method CreateDirectEdge(t: EdgeTable, d: EdgeData) returns (edge: Row)
    requires t.Valid()
    modifies t
    ensures t.Valid()
    ensures Written(t.Value(), edge) == DirectEdgeWritten(old(t.Value()), d)
  {
    var created := t.Create(d.startVertex, d.endVertex, d.source);
    t.UpdateRefs(created.id, created.id, created.id, created.id);
    edge := created.(entryEdgeId := created.id, exitEdgeId := created.id, directEdgeId := created.id);
  }

  method CreateAsIncomingEdgesToB(t: EdgeTable, edge: Row, d: EdgeData)
    requires t.Valid() && edge.id < t.nextId
    modifies t
    ensures t.Valid() && t.nextId >= old(t.nextId)
    ensures t.Value() == IncomingWritten(old(t.Value()), edge, d)
  {
    SelectsBounded(t.rows, t.nextId, edge, d);
    t.InsertFromSelect(AsIncomingEdgesToB(t.rows, edge, d));
  }

  method CreateAToBsOutgoingEdges(t: EdgeTable, edge: Row, d: EdgeData)
    requires t.Valid() && edge.id < t.nextId
    modifies t
    ensures t.Valid() && t.nextId >= old(t.nextId)
    ensures t.Value() == OutgoingWritten(old(t.Value()), edge, d)
  {
    SelectsBounded(t.rows, t.nextId, edge, d);
    t.InsertFromSelect(AToBsOutgoingEdges(t.rows, edge, d));
  }

  method CreateAsIncomingEdgesToEndVertexOfBsOutgoingEdges(t: EdgeTable, edge: Row, d: EdgeData)
    requires t.Valid() && edge.id < t.nextId
    modifies t
    ensures t.Valid() && t.nextId >= old(t.nextId)
    ensures t.Value() == BridgedWritten(old(t.Value()), edge, d)
  {
    SelectsBounded(t.rows, t.nextId, edge, d);
    t.InsertFromSelect(AsIncomingEdgesToEndVertexOfBsOutgoingEdges(t.rows, edge, d));
  }

  /** CreateImpliedEdges.__invoke: the three batch inserts in sequence. */
  method CreateImpliedEdges(t: EdgeTable, edge: Row, d: EdgeData)
    requires t.Valid() && edge.id < t.nextId
    modifies t
    ensures t.Valid()
    ensures t.Value() == ImpliedWritten(old(t.Value()), edge, d)
  {
    CreateAsIncomingEdgesToB(t, edge, d);
    CreateAToBsOutgoingEdges(t, edge, d);
    CreateAsIncomingEdgesToEndVertexOfBsOutgoingEdges(t, edge, d);
  }

  /** CreateCompleteEdge.__invoke (Tasks createEdge): the direct write, then the implied rows. */
  method CreateCompleteEdge(t: EdgeTable, d: EdgeData) returns (edge: Row)
    requires t.Valid()
    modifies t
    ensures t.Valid()
    ensures Written(t.Value(), edge) == CompleteEdgeWritten(old(t.Value()), d)
  {
    edge := CreateDirectEdge(t, d);
    CreateImpliedEdges(t, edge, d);
  }

  /** AddDagEdge: Tasks execute and Actions __invoke. No transaction here: a TooManyHops leaves every written row in place. */
  method AddDagEdge(t: EdgeTable, d: EdgeData, maxHops: int) returns (outcome: AddOutcome)
    requires t.Valid()
    modifies t
    ensures t.Valid()
    ensures Step(t.Value(), outcome) == AddEdge(old(t.Value()), d, maxHops)
  {
    if EdgeExists(t.rows, d) {
      return Duplicate;
    }
    if IsCircular(t.rows, d) {
      return Failed(CircularReference);
    }
    var edge := CreateCompleteEdge(t, d);
    var newEdges := NewlyInsertedEdges(t.rows, edge.id);
    if ExceedsMaxHops(newEdges, maxHops) {
      return Failed(TooManyHops(maxHops));
    }
    return Added(newEdges);
  }
}
