/**
 * What an edge insertion promises, stated against the table before the call.
 *
 * The central fact (SnapshotWrite): once the cycle guard has passed, none of
 * the three generators sees the direct row or the rows another generator has
 * just appended, so the sequential inserts write exactly the direct row
 * followed by the class 1, class 2 and class 3 rows computed from the old
 * table alone: (1 + p) * (1 + q) rows in all.
 */
module InsertionFacts {
  import opened DagModel
  import opened EdgeStore
  import opened Ordering
  import opened Insertion

  /** The implied rows of all three classes, selected from table t alone. */
  function ImpliedDrafts(t: seq<Row>, edge: Row, d: EdgeData): seq<Row>
  {
    AsIncomingEdgesToB(t, edge, d) + AToBsOutgoingEdges(t, edge, d) + AsIncomingEdgesToEndVertexOfBsOutgoingEdges(t, edge, d)
  }

  /** The rows one successful insertion appends, in the order it appends them. */
  function AddedRows(db: Db, d: EdgeData): seq<Row>
  {
    var e := DirectRow(db.nextId, d);
    [e] + Renumber(ImpliedDrafts(db.rows, e, d), db.nextId + 1)
  }

  // ---------------------------------------------------------------------
  // Small facts about the statements
  // ---------------------------------------------------------------------

  lemma {:induction false} WhereNone(t: seq<Row>, c: Cond)
    requires forall x :: x in t ==> !Holds(c, x)
    ensures Where(t, c) == []
    decreases |t|
  {
    if t != [] {
      assert t[0] in t;
      assert forall x :: x in t[1..] ==> x in t;
      WhereNone(t[1..], c);
    }
  }

  /** Appending rows none of which match leaves a WHERE unchanged. */
  lemma WhereAppendNone(a: seq<Row>, b: seq<Row>, c: Cond)
    requires forall x :: x in b ==> !Holds(c, x)
    ensures Where(a + b, c) == Where(a, c)
  {
    WhereConcat(a, b, c);
    WhereNone(b, c);
  }

  lemma RenumberConcat(a: seq<Row>, b: seq<Row>, n: nat)
    ensures Renumber(a + b, n) == Renumber(a, n) + Renumber(b, n + |a|)
  {
    var l, r := Renumber(a + b, n), Renumber(a, n) + Renumber(b, n + |a|);
    forall i | 0 <= i < |l| ensures l[i] == r[i] {
      if i >= |a| {
        assert (a + b)[i] == b[i - |a|];
      }
    }
  }

  /** A renumbered row is one of the drafts with its new id. */
  lemma RenumberedFrom(drafts: seq<Row>, n: nat, x: Row)
    requires x in Renumber(drafts, n)
    ensures exists i :: 0 <= i < |drafts| && x == drafts[i].(id := n + i)
  {
    var i :| 0 <= i < |Renumber(drafts, n)| && Renumber(drafts, n)[i] == x;
  }

  /** Under the cycle guard no stored row of the edge's source runs from its end back to its start. */
  lemma NoReverseRow(t: seq<Row>, d: EdgeData, x: Row)
    requires !IsCircular(t, d) && x in t && x.source == d.source
    ensures !(x.startVertex == d.endVertex && x.endVertex == d.startVertex)
  {
    var w := Where(t, Between(d.endVertex, d.startVertex, d.source));
    assert Holds(Between(d.endVertex, d.startVertex, d.source), x) ==> x in w;
  }

  /** Class 1 rows end at the edge's end and, under the guard, never start there. */
  lemma IncomingShape(t: seq<Row>, edge: Row, d: EdgeData, k: nat)
    requires !IsCircular(t, d)
    ensures forall x :: x in Renumber(AsIncomingEdgesToB(t, edge, d), k) ==>
      x.endVertex == d.endVertex && x.startVertex != d.endVertex
  {
    var xs := EndingAtStart(t, d);
    forall x | x in Renumber(AsIncomingEdgesToB(t, edge, d), k)
      ensures x.endVertex == d.endVertex && x.startVertex != d.endVertex
    {
      RenumberedFrom(AsIncomingEdgesToB(t, edge, d), k, x);
      var i :| 0 <= i < |xs| && x == AsIncomingEdgesToB(t, edge, d)[i].(id := k + i);
      assert xs[i] in xs;
      NoReverseRow(t, d, xs[i]);
    }
  }

  /** Class 2 rows start at the edge's start and, under the guard, never end there. */
  lemma OutgoingShape(t: seq<Row>, edge: Row, d: EdgeData, k: nat)
    requires !IsCircular(t, d)
    ensures forall x :: x in Renumber(AToBsOutgoingEdges(t, edge, d), k) ==>
      x.startVertex == d.startVertex && x.endVertex != d.startVertex
  {
    var ys := StartingAtEnd(t, d);
    forall x | x in Renumber(AToBsOutgoingEdges(t, edge, d), k)
      ensures x.startVertex == d.startVertex && x.endVertex != d.startVertex
    {
      RenumberedFrom(AToBsOutgoingEdges(t, edge, d), k, x);
      var i :| 0 <= i < |ys| && x == AToBsOutgoingEdges(t, edge, d)[i].(id := k + i);
      assert ys[i] in ys;
      NoReverseRow(t, d, ys[i]);
    }
  }

  // ---------------------------------------------------------------------
  // The direct write
  // ---------------------------------------------------------------------

  /**
   * createEdge + updateNewEdge add exactly one row, the direct row with hops 0
   * whose three references name its own id, return that row, and modify no
   * existing row.
   */
  lemma DirectEdgeRows(db: Db, d: EdgeData)
    requires StoreValid(db)
    ensures DirectEdgeWritten(db, d) == Written(Db(db.rows + [DirectRow(db.nextId, d)], db.nextId + 1), DirectRow(db.nextId, d))
  {
    var n := db.nextId;
    var created := Insert(db, [Row(NoId, d.startVertex, d.endVertex, 0, d.source, NoId, NoId, NoId)]);
    assert created.rows == db.rows + [Row(n, d.startVertex, d.endVertex, 0, d.source, NoId, NoId, NoId)];
    var l, r := SetRefs(created.rows, n, n, n, n), db.rows + [DirectRow(n, d)];
    forall i | 0 <= i < |l| ensures l[i] == r[i] {
      if i < |db.rows| {
        assert db.rows[i] in db.rows;
      }
    }
    assert l == r;
  }

  // ---------------------------------------------------------------------
  // Sequential inserts = inserts from the old table
  // ---------------------------------------------------------------------

  /** None of the extra rows is selected by a generator of this edge. */
  predicate Unselected(extra: seq<Row>, d: EdgeData)
  {
    forall x :: x in extra ==> !Holds(EndsAt(d.startVertex, d.source), x) && !Holds(StartsAt(d.endVertex, d.source), x)
  }

  /** Rows no generator selects do not change what the generators select. */
  lemma ReadsOldTable(t0: seq<Row>, extra: seq<Row>, edge: Row, d: EdgeData)
    requires Unselected(extra, d)
    ensures AsIncomingEdgesToB(t0 + extra, edge, d) == AsIncomingEdgesToB(t0, edge, d)
    ensures AToBsOutgoingEdges(t0 + extra, edge, d) == AToBsOutgoingEdges(t0, edge, d)
    ensures AsIncomingEdgesToEndVertexOfBsOutgoingEdges(t0 + extra, edge, d) == AsIncomingEdgesToEndVertexOfBsOutgoingEdges(t0, edge, d)
  {
    WhereAppendNone(t0, extra, EndsAt(d.startVertex, d.source));
    WhereAppendNone(t0, extra, StartsAt(d.endVertex, d.source));
  }

  /** Under the guard the direct row and the class 1 and 2 rows are all unselected. */
  lemma WrittenUnselected(t0: seq<Row>, e: Row, d: EdgeData, n: nat)
    requires !IsCircular(t0, d) && e.startVertex == d.startVertex && e.endVertex == d.endVertex
    ensures var r1 := Renumber(AsIncomingEdgesToB(t0, e, d), n);
      var r2 := Renumber(AToBsOutgoingEdges(t0, e, d), n + |AsIncomingEdgesToB(t0, e, d)|);
      Unselected([e], d) && Unselected([e] + r1, d) && Unselected([e] + r1 + r2, d)
  {
    IncomingShape(t0, e, d, n);
    OutgoingShape(t0, e, d, n + |AsIncomingEdgesToB(t0, e, d)|);
  }

  /** An insert appends the renumbered drafts after whatever the table already holds. */
  lemma InsertAppends(t0: seq<Row>, w: seq<Row>, drafts: seq<Row>, k: nat)
    ensures Insert(Db(t0 + w, k), drafts) == Db(t0 + (w + Renumber(drafts, k)), k + |drafts|)
  {
    assert t0 + w + Renumber(drafts, k) == t0 + (w + Renumber(drafts, k));
  }

  /** Whatever unselected rows w were written before, each insert reads only the old table. */
  lemma StageIncoming(t0: seq<Row>, w: seq<Row>, e: Row, d: EdgeData, k: nat)
    requires Unselected(w, d)
    ensures IncomingWritten(Db(t0 + w, k), e, d) ==
      Db(t0 + (w + Renumber(AsIncomingEdgesToB(t0, e, d), k)), k + |AsIncomingEdgesToB(t0, e, d)|)
  {
    ReadsOldTable(t0, w, e, d);
    InsertAppends(t0, w, AsIncomingEdgesToB(t0, e, d), k);
  }

  lemma StageOutgoing(t0: seq<Row>, w: seq<Row>, e: Row, d: EdgeData, k: nat)
    requires Unselected(w, d)
    ensures OutgoingWritten(Db(t0 + w, k), e, d) ==
      Db(t0 + (w + Renumber(AToBsOutgoingEdges(t0, e, d), k)), k + |AToBsOutgoingEdges(t0, e, d)|)
  {
    ReadsOldTable(t0, w, e, d);
    InsertAppends(t0, w, AToBsOutgoingEdges(t0, e, d), k);
  }

  lemma StageBridged(t0: seq<Row>, w: seq<Row>, e: Row, d: EdgeData, k: nat)
    requires Unselected(w, d)
    ensures BridgedWritten(Db(t0 + w, k), e, d) ==
      Db(t0 + (w + Renumber(AsIncomingEdgesToEndVertexOfBsOutgoingEdges(t0, e, d), k)),
         k + |AsIncomingEdgesToEndVertexOfBsOutgoingEdges(t0, e, d)|)
  {
    ReadsOldTable(t0, w, e, d);
    InsertAppends(t0, w, AsIncomingEdgesToEndVertexOfBsOutgoingEdges(t0, e, d), k);
  }

  /** The three classes selected from the old table, renumbered from n. */
  function ClassRows(t0: seq<Row>, e: Row, d: EdgeData, n: nat): (seq<Row>, seq<Row>, seq<Row>)
  {
    var inc, out := AsIncomingEdgesToB(t0, e, d), AToBsOutgoingEdges(t0, e, d);
    var br := AsIncomingEdgesToEndVertexOfBsOutgoingEdges(t0, e, d);
    (Renumber(inc, n), Renumber(out, n + |inc|), Renumber(br, n + |inc| + |out|))
  }

  /** The first insert after the direct row appends class 1 of the old table. */
  lemma FirstStage(t0: seq<Row>, e: Row, d: EdgeData, n: nat)
    requires !IsCircular(t0, d) && e.startVertex == d.startVertex && e.endVertex == d.endVertex
    ensures var r1 := ClassRows(t0, e, d, n).0;
      IncomingWritten(Db(t0 + [e], n), e, d) == Db(t0 + ([e] + r1), n + |r1|)
  {
    WrittenUnselected(t0, e, d, n);
    StageIncoming(t0, [e], e, d, n);
  }

  /** The second appends class 2 of the old table. */
  lemma SecondStage(t0: seq<Row>, e: Row, d: EdgeData, n: nat)
    requires !IsCircular(t0, d) && e.startVertex == d.startVertex && e.endVertex == d.endVertex
    ensures var (r1, r2, _) := ClassRows(t0, e, d, n);
      OutgoingWritten(Db(t0 + ([e] + r1), n + |r1|), e, d) == Db(t0 + ([e] + r1 + r2), n + |r1| + |r2|)
  {
    var r1 := ClassRows(t0, e, d, n).0;
    WrittenUnselected(t0, e, d, n);
    StageOutgoing(t0, [e] + r1, e, d, n + |r1|);
  }

  /** The third appends class 3 of the old table. */
  lemma ThirdStage(t0: seq<Row>, e: Row, d: EdgeData, n: nat)
    requires !IsCircular(t0, d) && e.startVertex == d.startVertex && e.endVertex == d.endVertex
    ensures var (r1, r2, r3) := ClassRows(t0, e, d, n);
      BridgedWritten(Db(t0 + ([e] + r1 + r2), n + |r1| + |r2|), e, d) == Db(t0 + ([e] + r1 + r2 + r3), n + |r1| + |r2| + |r3|)
  {
    var (r1, r2, _) := ClassRows(t0, e, d, n);
    WrittenUnselected(t0, e, d, n);
    StageBridged(t0, [e] + r1 + r2, e, d, n + |r1| + |r2|);
  }

  /** The three sequential inserts after the direct row, each reading only the old table. */
  lemma SequentialStages(t0: seq<Row>, e: Row, d: EdgeData, n: nat)
    requires !IsCircular(t0, d) && e.startVertex == d.startVertex && e.endVertex == d.endVertex
    ensures var (r1, r2, r3) := ClassRows(t0, e, d, n);
      ImpliedWritten(Db(t0 + [e], n), e, d) == Db(t0 + ([e] + r1 + r2 + r3), n + |r1| + |r2| + |r3|)
  {
    FirstStage(t0, e, d, n);
    SecondStage(t0, e, d, n);
    ThirdStage(t0, e, d, n);
  }

  /** The three renumbered classes are the renumbered concatenation. */
  lemma ClassRowsJoin(t0: seq<Row>, e: Row, d: EdgeData, n: nat)
    ensures var (r1, r2, r3) := ClassRows(t0, e, d, n);
      r1 + r2 + r3 == Renumber(ImpliedDrafts(t0, e, d), n) && |r1| + |r2| + |r3| == |ImpliedDrafts(t0, e, d)|
  {
    var inc, out := AsIncomingEdgesToB(t0, e, d), AToBsOutgoingEdges(t0, e, d);
    var br := AsIncomingEdgesToEndVertexOfBsOutgoingEdges(t0, e, d);
    RenumberConcat(inc, out, n);
    RenumberConcat(inc + out, br, n);
    assert inc + out + br == ImpliedDrafts(t0, e, d);
  }

  /** The three sequential inserts after the direct row equal one insert of the drafts selected from the old table. */
  lemma ImpliedFromSnapshot(t0: seq<Row>, e: Row, d: EdgeData, n: nat)
    requires !IsCircular(t0, d) && e.startVertex == d.startVertex && e.endVertex == d.endVertex
    ensures ImpliedWritten(Db(t0 + [e], n), e, d) ==
      Db(t0 + ([e] + Renumber(ImpliedDrafts(t0, e, d), n)), n + |ImpliedDrafts(t0, e, d)|)
  {
    var (r1, r2, r3) := ClassRows(t0, e, d, n);
    SequentialStages(t0, e, d, n);
    ClassRowsJoin(t0, e, d, n);
    assert [e] + r1 + r2 + r3 == [e] + (r1 + r2 + r3);
  }

  /** CreateCompleteEdge in terms of the direct write's result. */
  lemma CompleteFromDirect(db: Db, d: EdgeData)
    requires !IsCircular(db.rows, d)
    requires DirectEdgeWritten(db, d) == Written(Db(db.rows + [DirectRow(db.nextId, d)], db.nextId + 1), DirectRow(db.nextId, d))
    ensures CompleteEdgeWritten(db, d) ==
      Written(Db(db.rows + AddedRows(db, d), db.nextId + |AddedRows(db, d)|), DirectRow(db.nextId, d))
  {
    ImpliedFromSnapshot(db.rows, DirectRow(db.nextId, d), d, db.nextId + 1);
  }

  /**
   * Given start != end and no reverse row (the cycle guard), CreateCompleteEdge
   * appends exactly AddedRows: the direct row, then the three classes selected
   * from the table as it was before the call. Existing rows are untouched.
   */
  lemma SnapshotWrite(db: Db, d: EdgeData)
    requires StoreValid(db) && !IsCircular(db.rows, d)
    ensures CompleteEdgeWritten(db, d) ==
      Written(Db(db.rows + AddedRows(db, d), db.nextId + |AddedRows(db, d)|), DirectRow(db.nextId, d))
  {
    DirectEdgeRows(db, d);
    CompleteFromDirect(db, d);
  }

  /** Class 1: one row per same-source row x ending at the start: x's start to the end, one hop more, entering by x. */
  lemma IncomingClass(t: seq<Row>, edge: Row, d: EdgeData, r: Row)
    ensures r in AsIncomingEdgesToB(t, edge, d) <==>
      exists x :: x in t && x.endVertex == d.startVertex && x.source == d.source &&
        r == Row(NoId, x.startVertex, d.endVertex, x.hops + 1, d.source, x.id, edge.id, edge.id)
  {
    var xs := EndingAtStart(t, d);
    if r in AsIncomingEdgesToB(t, edge, d) {
      var i :| 0 <= i < |xs| && AsIncomingEdgesToB(t, edge, d)[i] == r;
      assert xs[i] in xs;
    }
    if exists x :: x in t && x.endVertex == d.startVertex && x.source == d.source &&
        r == Row(NoId, x.startVertex, d.endVertex, x.hops + 1, d.source, x.id, edge.id, edge.id) {
      var x :| x in t && x.endVertex == d.startVertex && x.source == d.source &&
        r == Row(NoId, x.startVertex, d.endVertex, x.hops + 1, d.source, x.id, edge.id, edge.id);
      var i :| 0 <= i < |xs| && xs[i] == x;
      assert AsIncomingEdgesToB(t, edge, d)[i] == r;
    }
  }

  /** Class 2: one row per same-source row y starting at the end: the start to y's end, one hop more, leaving by y. */
  lemma OutgoingClass(t: seq<Row>, edge: Row, d: EdgeData, r: Row)
    ensures r in AToBsOutgoingEdges(t, edge, d) <==>
      exists y :: y in t && y.startVertex == d.endVertex && y.source == d.source &&
        r == Row(NoId, d.startVertex, y.endVertex, y.hops + 1, d.source, edge.id, y.id, edge.id)
  {
    var ys := StartingAtEnd(t, d);
    if r in AToBsOutgoingEdges(t, edge, d) {
      var i :| 0 <= i < |ys| && AToBsOutgoingEdges(t, edge, d)[i] == r;
      assert ys[i] in ys;
    }
    if exists y :: y in t && y.startVertex == d.endVertex && y.source == d.source &&
        r == Row(NoId, d.startVertex, y.endVertex, y.hops + 1, d.source, edge.id, y.id, edge.id) {
      var y :| y in t && y.startVertex == d.endVertex && y.source == d.source &&
        r == Row(NoId, d.startVertex, y.endVertex, y.hops + 1, d.source, edge.id, y.id, edge.id);
      var i :| 0 <= i < |ys| && ys[i] == y;
      assert AToBsOutgoingEdges(t, edge, d)[i] == r;
    }
  }

  /** A pair the cross join joins: a ends at the start, b starts at the end, both of the edge's source. */
  predicate Joins(a: Row, b: Row, d: EdgeData)
  {
    a.endVertex == d.startVertex && a.source == d.source && b.startVertex == d.endVertex && b.source == d.source
  }

  /** The class 3 row of a pair. */
  predicate BridgeOf(r: Row, a: Row, b: Row, edge: Row, d: EdgeData)
  {
    r == Row(NoId, a.startVertex, b.endVertex, a.hops + b.hops + 2, d.source, a.id, b.id, edge.id)
  }

  lemma BridgedFromPair(t: seq<Row>, edge: Row, d: EdgeData, r: Row)
    requires r in AsIncomingEdgesToEndVertexOfBsOutgoingEdges(t, edge, d)
    ensures exists a, b :: a in t && b in t && Joins(a, b, d) && BridgeOf(r, a, b, edge, d)
  {
    var xs, ys := EndingAtStart(t, d), StartingAtEnd(t, d);
    BridgedRowsMember(xs, ys, edge, d, r);
    var i, j :| 0 <= i < |xs| && 0 <= j < |ys| && r == BridgedRow(xs[i], ys[j], edge, d);
    assert xs[i] in xs && ys[j] in ys;
    assert Joins(xs[i], ys[j], d) && BridgeOf(r, xs[i], ys[j], edge, d);
  }

  lemma PairBridged(t: seq<Row>, edge: Row, d: EdgeData, a: Row, b: Row)
    requires a in t && b in t && Joins(a, b, d)
    ensures BridgedRow(a, b, edge, d) in AsIncomingEdgesToEndVertexOfBsOutgoingEdges(t, edge, d)
  {
    var xs, ys := EndingAtStart(t, d), StartingAtEnd(t, d);
    assert a in xs && b in ys;
    var i :| 0 <= i < |xs| && xs[i] == a;
    var j :| 0 <= j < |ys| && ys[j] == b;
    BridgedRowsHas(xs, ys, edge, d, i, j);
  }

  /** Class 3: one row per joined pair (a, b): a's start to b's end, a.hops + b.hops + 2, entering by a, leaving by b. */
  lemma BridgedClass(t: seq<Row>, edge: Row, d: EdgeData, r: Row)
    ensures r in AsIncomingEdgesToEndVertexOfBsOutgoingEdges(t, edge, d) <==>
      exists a, b :: a in t && b in t && Joins(a, b, d) && BridgeOf(r, a, b, edge, d)
  {
    if r in AsIncomingEdgesToEndVertexOfBsOutgoingEdges(t, edge, d) {
      BridgedFromPair(t, edge, d, r);
    }
    if exists a, b :: a in t && b in t && Joins(a, b, d) && BridgeOf(r, a, b, edge, d) {
      var a, b :| a in t && b in t && Joins(a, b, d) && BridgeOf(r, a, b, edge, d);
      PairBridged(t, edge, d, a, b);
    }
  }

  /** One successful insertion adds (1 + p) * (1 + q) rows: p same-source rows end at the start, q start at the end. */
  lemma AddedCount(db: Db, d: EdgeData)
    ensures |AddedRows(db, d)| == (1 + |EndingAtStart(db.rows, d)|) * (1 + |StartingAtEnd(db.rows, d)|)
  {
    var p, q := |EndingAtStart(db.rows, d)|, |StartingAtEnd(db.rows, d)|;
    assert (1 + p) * (1 + q) == 1 + p + q + p * q;
  }

  /**
   * Every appended row is tagged with the new direct id and the edge's source,
   * takes the next free id in order, and only the direct row has hops 0.
   */
  lemma AddedRowsShape(db: Db, d: EdgeData)
    ensures AddedRows(db, d)[0] == DirectRow(db.nextId, d)
    ensures forall i :: 0 <= i < |AddedRows(db, d)| ==> AddedRows(db, d)[i].id == db.nextId + i
    ensures forall x :: x in AddedRows(db, d) ==> x.directEdgeId == db.nextId && x.source == d.source
    ensures forall x :: x in AddedRows(db, d) ==> (x.hops == 0 <==> x == DirectRow(db.nextId, d))
  {
    var n, e := db.nextId, DirectRow(db.nextId, d);
    var drafts := ImpliedDrafts(db.rows, e, d);
    forall x | x in AddedRows(db, d) ensures x.directEdgeId == n && x.source == d.source && (x.hops == 0 <==> x == e) {
      if x != e {
        RenumberedFrom(drafts, n + 1, x);
        var i :| 0 <= i < |drafts| && x == drafts[i].(id := n + 1 + i);
        DraftShape(db.rows, e, d, drafts[i]);
      }
    }
  }

  /** An implied draft is an implied row of the edge's source created by the edge. */
  lemma DraftShape(t: seq<Row>, e: Row, d: EdgeData, x: Row)
    requires x in ImpliedDrafts(t, e, d)
    ensures x.directEdgeId == e.id && x.source == d.source && x.hops > 0
  {
    var xs, ys := EndingAtStart(t, d), StartingAtEnd(t, d);
    if x in BridgedRows(xs, ys, e, d) {
      BridgedRowsMember(xs, ys, e, d, x);
    } else if x in AsIncomingEdgesToB(t, e, d) {
      var i :| 0 <= i < |xs| && AsIncomingEdgesToB(t, e, d)[i] == x;
    } else {
      var i :| 0 <= i < |ys| && AToBsOutgoingEdges(t, e, d)[i] == x;
    }
  }

  // ---------------------------------------------------------------------
  // The guards, in terms of the rows
  // ---------------------------------------------------------------------

  /** edgeExists holds iff a hops = 0 row with the same start, end and source is stored. */
  lemma EdgeExistsIff(t: seq<Row>, d: EdgeData)
    ensures EdgeExists(t, d) <==>
      exists r :: r in t && r.startVertex == d.startVertex && r.endVertex == d.endVertex && r.hops == 0 && r.source == d.source
  {
    var w := Where(t, DirectBetween(d.startVertex, d.endVertex, d.source));
    if w != [] {
      assert w[0] in w;
    }
  }

  /** The cycle guard throws iff start = end or a row end -> start of any hop count is stored in the same source. */
  lemma IsCircularIff(t: seq<Row>, d: EdgeData)
    ensures IsCircular(t, d) <==>
      d.startVertex == d.endVertex ||
      exists r :: r in t && r.startVertex == d.endVertex && r.endVertex == d.startVertex && r.source == d.source
  {
    var w := Where(t, Between(d.endVertex, d.startVertex, d.source));
    if w != [] {
      assert w[0] in w;
    }
  }

  /** Rows of another source count neither as duplicates nor as cycles, and no generator reads them. */
  lemma OtherSourcesIgnored(t: seq<Row>, u: seq<Row>, edge: Row, d: EdgeData)
    requires forall x :: x in u ==> x.source != d.source
    ensures EdgeExists(t + u, d) == EdgeExists(t, d)
    ensures IsCircular(t + u, d) == IsCircular(t, d)
    ensures AsIncomingEdgesToB(t + u, edge, d) == AsIncomingEdgesToB(t, edge, d)
    ensures AToBsOutgoingEdges(t + u, edge, d) == AToBsOutgoingEdges(t, edge, d)
    ensures AsIncomingEdgesToEndVertexOfBsOutgoingEdges(t + u, edge, d) == AsIncomingEdgesToEndVertexOfBsOutgoingEdges(t, edge, d)
  {
    WhereAppendNone(t, u, DirectBetween(d.startVertex, d.endVertex, d.source));
    WhereAppendNone(t, u, Between(d.endVertex, d.startVertex, d.source));
    WhereAppendNone(t, u, EndsAt(d.startVertex, d.source));
    WhereAppendNone(t, u, StartsAt(d.endVertex, d.source));
  }

  /** On a hop-ordered list, the last-row test is the same as "some row exceeds the ceiling". */
  lemma ExceedsMaxHopsIff(s: seq<Row>, maxHops: int)
    requires SortedByHops(s)
    ensures ExceedsMaxHops(s, maxHops) <==> exists x :: x in s && x.hops > maxHops
  {
    if s != [] {
      LastIsMax(s);
      assert s[|s| - 1] in s;
    }
  }

  // ---------------------------------------------------------------------
  // The outcome of execute / __invoke
  // ---------------------------------------------------------------------

  /** A duplicate direct edge gives null and writes nothing. */
  lemma DuplicateLeavesTable(db: Db, d: EdgeData, maxHops: int)
    ensures AddEdge(db, d, maxHops).outcome == Duplicate <==> EdgeExists(db.rows, d)
    ensures EdgeExists(db.rows, d) ==> AddEdge(db, d, maxHops).db == db
  {
  }

  /** A cycle is reported (after the duplicate check) iff the guard fires, and nothing is written. */
  lemma CircularLeavesTable(db: Db, d: EdgeData, maxHops: int)
    requires StoreValid(db)
    ensures AddEdge(db, d, maxHops).outcome == Failed(CircularReference) <==> !EdgeExists(db.rows, d) && IsCircular(db.rows, d)
    ensures AddEdge(db, d, maxHops).outcome == Failed(CircularReference) ==> AddEdge(db, d, maxHops).db == db
  {
    if !EdgeExists(db.rows, d) && !IsCircular(db.rows, d) {
      InsertionResult(db, d, maxHops);
    }
  }

  /**
   * Past both guards the table grows by exactly AddedRows whatever the hop
   * outcome (no rollback here), and the call throws TooManyHops iff some added
   * row exceeds the ceiling. Otherwise it returns the added rows in hop order
   * with the direct row first.
   */
  lemma InsertionResult(db: Db, d: EdgeData, maxHops: int)
    requires StoreValid(db) && !EdgeExists(db.rows, d) && !IsCircular(db.rows, d)
    ensures AddEdge(db, d, maxHops).db == Db(db.rows + AddedRows(db, d), db.nextId + |AddedRows(db, d)|)
    ensures AddEdge(db, d, maxHops).outcome == Failed(TooManyHops(maxHops)) <==>
      exists x :: x in AddedRows(db, d) && x.hops > maxHops
    ensures AddEdge(db, d, maxHops).outcome.Added? ==>
      var es := AddEdge(db, d, maxHops).outcome.edges;
      SortedByHops(es) && multiset(es) == multiset(AddedRows(db, d)) &&
      es[0] == DirectRow(db.nextId, d) && (forall x :: x in es ==> x.hops <= maxHops)
    ensures AddEdge(db, d, maxHops).outcome.Added? || AddEdge(db, d, maxHops).outcome == Failed(TooManyHops(maxHops))
  {
    var n, added := db.nextId, AddedRows(db, d);
    var e := DirectRow(n, d);
    SnapshotWrite(db, d);
    AddedRowsShape(db, d);
    var rows := db.rows + added;
    NewRowsTagged(db, d);
    var es := NewlyInsertedEdges(rows, n);
    assert multiset(es) == multiset(added);
    ExceedsMaxHopsIff(es, maxHops);
    assert forall x :: x in es <==> x in added by {
      forall x ensures x in es <==> x in added {
        assert x in es <==> x in multiset(es);
        assert x in added <==> x in multiset(added);
      }
    }
    assert e in added;
    assert es[0].hops <= e.hops;
  }

  /** getNewlyInsertedEdges reads back exactly the appended rows: old rows carry older direct ids. */
  lemma NewRowsTagged(db: Db, d: EdgeData)
    requires StoreValid(db)
    ensures Where(db.rows + AddedRows(db, d), HasDirectEdge(db.nextId)) == AddedRows(db, d)
  {
    AddedRowsShape(db, d);
    WhereConcat(db.rows, AddedRows(db, d), HasDirectEdge(db.nextId));
    WhereNone(db.rows, HasDirectEdge(db.nextId));
    WhereAll(AddedRows(db, d), HasDirectEdge(db.nextId));
  }
}
