/**
 * Why the removal scan is right: every row names the rows it was composed
 * from (entry and exit) and the direct edge whose insertion created it, so
 * each row stands for a path, and Uses gives the direct edges on that path.
 * In a table the core has built (Grounded), the scan collects exactly the
 * rows whose path uses the removed edge, so a removal leaves exactly the
 * rows whose path avoids it, and the table stays Grounded.
 */
module Provenance {
  import opened DagModel
  import opened EdgeStore
  import opened Insertion
  import opened InsertionFacts
  import opened Removal

  /** The row with this id, if any. */
  function RowById(t: seq<Row>, id: nat): (r: Option<Row>)
    ensures r.Some? ==> r.value in t && r.value.id == id
    ensures r.None? <==> id !in IdSet(t)
    decreases |t|
  {
    if t == [] then None
    else if t[0].id == id then Some(t[0])
    else
      assert forall x :: x in t ==> x == t[0] || x in t[1..];
      RowById(t[1..], id)
  }

  lemma RowByIdUnique(t: seq<Row>, x: Row)
    requires IncreasingIds(t) && x in t
    ensures RowById(t, x.id) == Some(x)
  {
    var y := RowById(t, x.id).value;
    var i :| 0 <= i < |t| && t[i] == x;
    var j :| 0 <= j < |t| && t[j] == y;
    IncreasingUnique(t, i, j);
  }

  /** A stored direct edge (hops 0) with this id. */
  predicate HasDirectRow(t: seq<Row>, id: nat)
  {
    exists x :: x in t && x.id == id && x.hops == 0
  }

  /**
   * The references the core writes: a direct row names itself three times;
   * any other row names older stored rows as entry and exit and an older
   * stored direct row as the edge that created it.
   */
  predicate Grounded(t: seq<Row>)
  {
    forall r :: r in t ==>
      (r.hops == 0 ==> r.entryEdgeId == r.id && r.exitEdgeId == r.id && r.directEdgeId == r.id) &&
      (r.hops > 0 ==>
        r.entryEdgeId < r.id && r.exitEdgeId < r.id && r.directEdgeId < r.id &&
        r.entryEdgeId in IdSet(t) && r.exitEdgeId in IdSet(t) && HasDirectRow(t, r.directEdgeId))
  }

  /** The ids of the direct edges on the path row id stands for. */
  function Uses(t: seq<Row>, id: nat): set<nat>
    decreases id
  {
    match RowById(t, id)
    case None => {}
    case Some(r) =>
      if r.hops == 0 then {r.id}
      else
        {r.directEdgeId}
        + (if r.entryEdgeId < id then Uses(t, r.entryEdgeId) else {})
        + (if r.exitEdgeId < id then Uses(t, r.exitEdgeId) else {})
  }

  /** The ids of the rows whose path uses direct edge e. */
  function UsersOf(t: seq<Row>, e: Row): set<nat>
  {
    set r | r in t && e.id in Uses(t, r.id) :: r.id
  }

  // ---------------------------------------------------------------------
  // The scan collects exactly the users of the removed edge
  // ---------------------------------------------------------------------

  lemma SeedUses(t: seq<Row>, e: Row)
    requires IncreasingIds(t) && Grounded(t)
    ensures Members(Seed(t, e)) <= UsersOf(t, e)
  {
    SeedIsTagged(t, e);
    forall x | x in Members(Seed(t, e)) ensures x in UsersOf(t, e) {
      var r :| r in t && r.directEdgeId == e.id && r.id == x;
      RowByIdUnique(t, r);
    }
  }

  lemma UsersClosed(t: seq<Row>, e: Row)
    requires IncreasingIds(t) && Grounded(t)
    ensures ClosedUnder(t, UsersOf(t, e))
  {
    forall r | r in t && r.hops > 0 && (r.entryEdgeId in UsersOf(t, e) || r.exitEdgeId in UsersOf(t, e))
      ensures r.id in UsersOf(t, e)
    {
      RowByIdUnique(t, r);
      assert Uses(t, r.id) >= Uses(t, r.entryEdgeId) + Uses(t, r.exitEdgeId);
    }
  }

  lemma {:induction false} UserCollected(t: seq<Row>, e: Row, r: Row)
    requires IncreasingIds(t) && Grounded(t)
    requires r in t && e.id in Uses(t, r.id)
    ensures r.id in Members(EntryIds(t, e))
    decreases r.id
  {
    EntryIdsFacts(t, e);
    SeedIsTagged(t, e);
    var ids := EntryIds(t, e);
    assert forall x :: x in Seed(t, e) ==> x in ids by {
      assert ids[..|Seed(t, e)|] == Seed(t, e);
    }
    RowByIdUnique(t, r);
    if r.directEdgeId == e.id {
      assert r.id in Members(Seed(t, e));
    } else {
      assert r.hops > 0;
      if e.id in Uses(t, r.entryEdgeId) {
        var x := RowById(t, r.entryEdgeId).value;
        UserCollected(t, e, x);
      } else {
        var y := RowById(t, r.exitEdgeId).value;
        UserCollected(t, e, y);
      }
    }
  }

  /**
   * Removal's central property: the scan collects the row of id x exactly
   * when x is a stored row whose path uses the removed edge.
   */
  lemma CollectedAreUsers(t: seq<Row>, e: Row)
    requires IncreasingIds(t) && Grounded(t)
    ensures Members(EntryIds(t, e)) == UsersOf(t, e)
  {
    SeedUses(t, e);
    UsersClosed(t, e);
    EntryIdsLeast(t, e, UsersOf(t, e));
    forall x | x in UsersOf(t, e) ensures x in Members(EntryIds(t, e)) {
      var r :| r in t && e.id in Uses(t, r.id) && r.id == x;
      UserCollected(t, e, r);
    }
  }

  /** A direct row's path is itself alone. */
  lemma DirectUses(t: seq<Row>, x: Row)
    requires IncreasingIds(t) && Grounded(t) && x in t && x.hops == 0
    ensures Uses(t, x.id) == {x.id}
  {
    RowByIdUnique(t, x);
  }

  // ---------------------------------------------------------------------
  // What a removal leaves
  // ---------------------------------------------------------------------

  /** The rows the delete keeps are those whose path avoids e. */
  lemma KeptAreAvoiders(t: seq<Row>, e: Row)
    requires IncreasingIds(t) && Grounded(t)
    ensures forall x :: x in Where(t, IdNotIn(Members(EntryIds(t, e)))) <==> x in t && e.id !in Uses(t, x.id)
  {
    CollectedAreUsers(t, e);
  }

  /** The removed direct row is itself collected. */
  lemma EdgeCollected(t: seq<Row>, e: Row)
    requires e in t && e.hops == 0 && Grounded(t)
    ensures e.id in Members(EntryIds(t, e))
  {
    SeedIsTagged(t, e);
    EntryIdsFacts(t, e);
    assert e.id in Members(Seed(t, e));
    var ids := EntryIds(t, e);
    assert forall w :: w in Seed(t, e) ==> w in ids by {
      assert ids[..|Seed(t, e)|] == Seed(t, e);
    }
  }

  /** Every other direct row's path avoids e. */
  lemma OtherDirectAvoids(t: seq<Row>, e: Row, x: Row)
    requires IncreasingIds(t) && Grounded(t)
    requires e in t && x in t && x.hops == 0 && x != e
    ensures e.id !in Uses(t, x.id)
  {
    DirectUses(t, x);
    var i :| 0 <= i < |t| && t[i] == x;
    var j :| 0 <= j < |t| && t[j] == e;
  }

  lemma FoundIsDirect(t: seq<Row>, d: EdgeData)
    requires FindDirectEdge(t, d).Some?
    ensures FindDirectEdge(t, d).value in t && FindDirectEdge(t, d).value.hops == 0
  {
  }

  /**
   * In a table the core has built, removing an edge returns true exactly
   * when the edge is stored; then the rows left are exactly those whose path
   * does not use it, every other direct edge is kept, and the counter is
   * unchanged. An absent edge leaves the table as it was.
   */
  lemma RemovalKeepsOthers(db: Db, d: EdgeData)
    requires StoreValid(db) && Grounded(db.rows)
    ensures RemoveEdge(db, d).removed <==> FindDirectEdge(db.rows, d).Some?
    ensures FindDirectEdge(db.rows, d).None? ==> RemoveEdge(db, d).db == db
    ensures RemoveEdge(db, d).db.nextId == db.nextId
    ensures FindDirectEdge(db.rows, d).Some? ==>
      var e := FindDirectEdge(db.rows, d).value;
      forall x :: x in RemoveEdge(db, d).db.rows <==> x in db.rows && e.id !in Uses(db.rows, x.id)
    ensures FindDirectEdge(db.rows, d).Some? ==>
      forall x :: x in db.rows && x.hops == 0 && x != FindDirectEdge(db.rows, d).value ==> x in RemoveEdge(db, d).db.rows
  {
    var t := db.rows;
    if FindDirectEdge(t, d).Some? {
      var e := FindDirectEdge(t, d).value;
      FoundIsDirect(t, d);
      EdgeCollected(t, e);
      KeptAreAvoiders(t, e);
      assert RemoveEdge(db, d) == Outcome(Deleted(db, Members(EntryIds(t, e))), true);
      forall x | x in t && x.hops == 0 && x != e ensures e.id !in Uses(t, x.id) {
        OtherDirectAvoids(t, e, x);
      }
    }
  }

  /** A row kept by the delete names only kept rows. */
  lemma KeptRefs(t: seq<Row>, e: Row, r: Row)
    requires IncreasingIds(t) && Grounded(t) && e in t && e.hops == 0
    requires r in Where(t, IdNotIn(Members(EntryIds(t, e)))) && r.hops > 0
    ensures var t' := Where(t, IdNotIn(Members(EntryIds(t, e))));
      r.entryEdgeId in IdSet(t') && r.exitEdgeId in IdSet(t') && HasDirectRow(t', r.directEdgeId)
  {
    var ids := Members(EntryIds(t, e));
    var t' := Where(t, IdNotIn(ids));
    EntryIdsFacts(t, e);
    assert r in t && r.id !in ids;
    assert r.entryEdgeId !in ids && r.exitEdgeId !in ids;
    var x := RowById(t, r.entryEdgeId).value;
    var y := RowById(t, r.exitEdgeId).value;
    assert Holds(IdNotIn(ids), x) && Holds(IdNotIn(ids), y);
    assert x in t' && y in t';
    KeptDirect(t, e, r);
  }

  /** The direct edge that created a kept implied row is kept too. */
  lemma KeptDirect(t: seq<Row>, e: Row, r: Row)
    requires IncreasingIds(t) && Grounded(t) && e in t && e.hops == 0
    requires r in Where(t, IdNotIn(Members(EntryIds(t, e)))) && r.hops > 0
    ensures HasDirectRow(Where(t, IdNotIn(Members(EntryIds(t, e)))), r.directEdgeId)
  {
    var ids := EntryIds(t, e);
    var z :| z in t && z.id == r.directEdgeId && z.hops == 0;
    SeedIsTagged(t, e);
    EntryIdsFacts(t, e);
    assert forall w :: w in Seed(t, e) ==> w in ids by {
      assert ids[..|Seed(t, e)|] == Seed(t, e);
    }
    assert r.directEdgeId != e.id;
    OtherDirectAvoids(t, e, z);
    CollectedAreUsers(t, e);
    assert z.id !in Members(ids);
    assert z in Where(t, IdNotIn(Members(ids)));
  }

  lemma DeleteCollectedGrounded(t: seq<Row>, e: Row)
    requires IncreasingIds(t) && Grounded(t) && e in t && e.hops == 0
    ensures Grounded(Where(t, IdNotIn(Members(EntryIds(t, e)))))
  {
    var t' := Where(t, IdNotIn(Members(EntryIds(t, e))));
    forall r | r in t' && r.hops > 0
      ensures r.entryEdgeId in IdSet(t') && r.exitEdgeId in IdSet(t') && HasDirectRow(t', r.directEdgeId)
    {
      KeptRefs(t, e, r);
    }
  }

  /** A removal leaves no row naming a deleted row: the table stays Grounded. */
  lemma RemovalKeepsGrounded(db: Db, d: EdgeData)
    requires StoreValid(db) && Grounded(db.rows)
    ensures Grounded(RemoveEdge(db, d).db.rows)
  {
    if FindDirectEdge(db.rows, d).Some? {
      FoundIsDirect(db.rows, d);
      DeleteCollectedGrounded(db.rows, FindDirectEdge(db.rows, d).value);
    }
  }

  // ---------------------------------------------------------------------
  // Insertion keeps the references grounded
  // ---------------------------------------------------------------------

  /** Each implied draft has hops > 0, is created by e, and is composed of stored rows or e. */
  lemma DraftRefs(t: seq<Row>, e: Row, d: EdgeData, x: Row)
    requires x in ImpliedDrafts(t, e, d)
    ensures x.hops > 0 && x.directEdgeId == e.id
    ensures x.entryEdgeId == e.id || x.entryEdgeId in IdSet(t)
    ensures x.exitEdgeId == e.id || x.exitEdgeId in IdSet(t)
  {
    var xs, ys := EndingAtStart(t, d), StartingAtEnd(t, d);
    if x in AsIncomingEdgesToB(t, e, d) {
      var i :| 0 <= i < |xs| && AsIncomingEdgesToB(t, e, d)[i] == x;
      assert xs[i] in xs;
    } else if x in AToBsOutgoingEdges(t, e, d) {
      var j :| 0 <= j < |ys| && AToBsOutgoingEdges(t, e, d)[j] == x;
      assert ys[j] in ys;
    } else {
      BridgedRowsMember(xs, ys, e, d, x);
      var i, j :| 0 <= i < |xs| && 0 <= j < |ys| && x == BridgedRow(xs[i], ys[j], e, d);
      assert xs[i] in xs && ys[j] in ys;
    }
  }

  lemma AddedRefs(db: Db, d: EdgeData, x: Row)
    requires StoreValid(db) && x in AddedRows(db, d)
    ensures x.hops == 0 ==> x == DirectRow(db.nextId, d)
    ensures x.hops > 0 ==> x.id > db.nextId && x.directEdgeId == db.nextId
    ensures x.hops > 0 ==> x.entryEdgeId == db.nextId || x.entryEdgeId in IdSet(db.rows)
    ensures x.hops > 0 ==> x.exitEdgeId == db.nextId || x.exitEdgeId in IdSet(db.rows)
  {
    var e := DirectRow(db.nextId, d);
    AddedRowsShape(db, d);
    if x != e {
      var drafts := ImpliedDrafts(db.rows, e, d);
      var i :| 0 <= i < |AddedRows(db, d)| && AddedRows(db, d)[i] == x;
      assert i > 0;
      assert x == drafts[i - 1].(id := db.nextId + i);
      DraftRefs(db.rows, e, d, drafts[i - 1]);
    }
  }

  lemma AppendGrounded(db: Db, d: EdgeData)
    requires StoreValid(db) && Grounded(db.rows)
    ensures Grounded(db.rows + AddedRows(db, d))
  {
    var t, n := db.rows, db.nextId;
    var t' := t + AddedRows(db, d);
    var e := DirectRow(n, d);
    assert e in t';
    assert IdSet(t) <= IdSet(t');
    forall r | r in t'
      ensures r.hops == 0 ==> r.entryEdgeId == r.id && r.exitEdgeId == r.id && r.directEdgeId == r.id
      ensures r.hops > 0 ==>
        r.entryEdgeId < r.id && r.exitEdgeId < r.id && r.directEdgeId < r.id &&
        r.entryEdgeId in IdSet(t') && r.exitEdgeId in IdSet(t') && HasDirectRow(t', r.directEdgeId)
    {
      if r in t {
        if r.hops > 0 {
          var z :| z in t && z.id == r.directEdgeId && z.hops == 0;
          assert z in t';
        }
      } else {
        AddedRefs(db, d, r);
        if r.hops > 0 {
          assert e.id == n;
        }
      }
    }
  }

  /** The appended rows keep ids increasing and every reference below the new counter. */
  lemma AppendValid(db: Db, d: EdgeData)
    requires StoreValid(db)
    ensures StoreValid(Db(db.rows + AddedRows(db, d), db.nextId + |AddedRows(db, d)|))
  {
    var t, a := db.rows, AddedRows(db, d);
    var m := db.nextId + |a|;
    AddedRowsShape(db, d);
    forall x | x in a ensures 1 <= x.id < m && x.entryEdgeId < m && x.exitEdgeId < m && x.directEdgeId < m {
      AddedRefs(db, d, x);
      var i :| 0 <= i < |a| && a[i] == x;
    }
    var t' := t + a;
    forall i, j | 0 <= i < j < |t'| ensures t'[i].id < t'[j].id {
      if j >= |t| && i < |t| {
        assert t'[i] in t;
      }
    }
  }

  /** Every outcome of an insertion leaves a Grounded table Grounded. */
  lemma InsertionKeepsGrounded(db: Db, d: EdgeData, maxHops: int)
    requires StoreValid(db) && Grounded(db.rows)
    ensures Grounded(AddEdge(db, d, maxHops).db.rows)
  {
    if !EdgeExists(db.rows, d) && !IsCircular(db.rows, d) {
      InsertionResult(db, d, maxHops);
      AppendGrounded(db, d);
    }
  }
}
