/**
 * The closure table as the store holds it: the rows in insertion order and
 * the auto-increment counter, the WHERE clauses the core uses, and the four
 * statements it runs (create, update, insert-from-select, delete-where-in).
 */
module EdgeStore {
  import opened DagModel

  /** The WHERE clauses of the core's queries, as data. */
  datatype Cond =
    | DirectBetween(s: int, e: int, src: string)  // start, end, hops 0, source (edgeExists, the removal lookup)
    | Between(s: int, e: int, src: string)        // start, end, source, any hops (the cycle guard)
    | EndsAt(v: int, src: string)                 // end_vertex = v and source
    | StartsAt(v: int, src: string)               // start_vertex = v and source
    | HasDirectEdge(d: nat)                       // direct_edge_id = d
    | BuiltUpon(ids: seq<nat>)                    // hops > 0, id not in ids, entry or exit in ids
    | IdNotIn(del: set<nat>)                      // the rows a whereIn('id', del)->delete() keeps

  predicate Holds(c: Cond, r: Row)
  {
    match c
    case DirectBetween(s, e, src) => r.startVertex == s && r.endVertex == e && r.hops == 0 && r.source == src
    case Between(s, e, src) => r.startVertex == s && r.endVertex == e && r.source == src
    case EndsAt(v, src) => r.endVertex == v && r.source == src
    case StartsAt(v, src) => r.startVertex == v && r.source == src
    case HasDirectEdge(d) => r.directEdgeId == d
    case BuiltUpon(ids) => r.hops > 0 && r.id !in ids && (r.entryEdgeId in ids || r.exitEdgeId in ids)
    case IdNotIn(del) => r.id !in del
  }

  /** SELECT * WHERE c, in table order. */
  function Where(t: seq<Row>, c: Cond): (r: seq<Row>)
    ensures forall x :: x in r <==> x in t && Holds(c, x)
    ensures |r| <= |t|
    decreases |t|
  {
    if t == [] then []
    else if Holds(c, t[0]) then [t[0]] + Where(t[1..], c)
    else Where(t[1..], c)
  }

  /** SELECT count(*) WHERE c. */
  function Count(t: seq<Row>, c: Cond): nat
  {
    |Where(t, c)|
  }

  /** ->pluck('id') */
  function Pluck(t: seq<Row>): (ids: seq<nat>)
    ensures |ids| == |t|
    ensures forall i :: 0 <= i < |t| ==> ids[i] == t[i].id
  {
    seq(|t|, i requires 0 <= i < |t| => t[i].id)
  }

  function IdSet(t: seq<Row>): set<nat>
  {
    set r | r in t :: r.id
  }

  /** Row i of the rows appended gets the auto-increment id from + i. */
  function Renumber(drafts: seq<Row>, from: nat): (rs: seq<Row>)
    ensures |rs| == |drafts|
    ensures forall i :: 0 <= i < |drafts| ==> rs[i] == drafts[i].(id := from + i)
  {
    seq(|drafts|, i requires 0 <= i < |drafts| => drafts[i].(id := from + i))
  }

  /** UPDATE SET entry, exit, direct WHERE id = target. */
  function SetRefs(t: seq<Row>, target: nat, entry: nat, exit: nat, direct: nat): (rs: seq<Row>)
    ensures |rs| == |t|
    ensures forall i :: 0 <= i < |t| ==>
      rs[i] == if t[i].id == target then t[i].(entryEdgeId := entry, exitEdgeId := exit, directEdgeId := direct) else t[i]
  {
    seq(|t|, i requires 0 <= i < |t| =>
      if t[i].id == target then t[i].(entryEdgeId := entry, exitEdgeId := exit, directEdgeId := direct) else t[i])
  }

  predicate IncreasingIds(t: seq<Row>)
  {
    forall i, j :: 0 <= i < j < |t| ==> t[i].id < t[j].id
  }

  /** Every id, and every id a row refers to, was handed out before n. */
  predicate Bounded(t: seq<Row>, n: nat)
  {
    forall r :: r in t ==> 1 <= r.id < n && r.entryEdgeId < n && r.exitEdgeId < n && r.directEdgeId < n
  }

  /** The table's contents and its auto-increment counter. */
  datatype Db = Db(rows: seq<Row>, nextId: nat)

  /** What auto-increment guarantees: ids are handed out in increasing order and never reused. */
  predicate StoreValid(db: Db)
  {
    1 <= db.nextId && IncreasingIds(db.rows) && Bounded(db.rows, db.nextId)
  }

  function Insert(db: Db, drafts: seq<Row>): Db
  {
    Db(db.rows + Renumber(drafts, db.nextId), db.nextId + |drafts|)
  }

  function Updated(db: Db, target: nat, entry: nat, exit: nat, direct: nat): Db
  {
    Db(SetRefs(db.rows, target, entry, exit, direct), db.nextId)
  }

  function Deleted(db: Db, del: set<nat>): Db
  {
    Db(Where(db.rows, IdNotIn(del)), db.nextId)
  }

  // ---------------------------------------------------------------------
  // Facts about the statements
  // ---------------------------------------------------------------------

  /** A WHERE over two concatenated tables is the concatenation of the two WHEREs. */
  lemma {:induction false} WhereConcat(a: seq<Row>, b: seq<Row>, c: Cond)
    ensures Where(a + b, c) == Where(a, c) + Where(b, c)
    decreases |a|
  {
    if a == [] {
      assert a + b == b;
    } else {
      assert (a + b)[0] == a[0];
      assert (a + b)[1..] == a[1..] + b;
      WhereConcat(a[1..], b, c);
    }
  }

  /** When every row satisfies the clause, the WHERE returns the whole table. */
  lemma {:induction false} WhereAll(t: seq<Row>, c: Cond)
    requires forall x :: x in t ==> Holds(c, x)
    ensures Where(t, c) == t
    decreases |t|
  {
    if t != [] {
      assert t[0] in t;
      assert forall x :: x in t[1..] ==> x in t;
      WhereAll(t[1..], c);
      assert [t[0]] + t[1..] == t;
    }
  }

  /** A WHERE keeps the ids in increasing order. */
  lemma {:induction false} WhereIncreasing(t: seq<Row>, c: Cond)
    requires IncreasingIds(t)
    ensures IncreasingIds(Where(t, c))
    decreases |t|
  {
    if t != [] {
      TailIncreasing(t);
      WhereIncreasing(t[1..], c);
      if Holds(c, t[0]) {
        HeadBelowTail(t);
        ConsIncreasing(t[0], Where(t[1..], c));
      }
    }
  }

  lemma TailIncreasing(t: seq<Row>)
    requires IncreasingIds(t) && t != []
    ensures IncreasingIds(t[1..])
  {
    var rest := t[1..];
    forall i, j | 0 <= i < j < |rest| ensures rest[i].id < rest[j].id {
      assert rest[i] == t[i + 1] && rest[j] == t[j + 1];
    }
  }

  lemma HeadBelowTail(t: seq<Row>)
    requires IncreasingIds(t) && t != []
    ensures forall x :: x in t[1..] ==> t[0].id < x.id
  {
    forall x | x in t[1..] ensures t[0].id < x.id {
      var k :| 0 <= k < |t[1..]| && t[1..][k] == x;
      assert x == t[k + 1];
    }
  }

  lemma ConsIncreasing(a: Row, w: seq<Row>)
    requires IncreasingIds(w)
    requires forall x :: x in w ==> a.id < x.id
    ensures IncreasingIds([a] + w)
  {
    var r := [a] + w;
    forall i, j | 0 <= i < j < |r| ensures r[i].id < r[j].id {
      assert r[j] == w[j - 1] && w[j - 1] in w;
      if i > 0 {
        assert r[i] == w[i - 1];
      }
    }
  }

  /** Ids in increasing order are pairwise distinct. */
  lemma IncreasingUnique(t: seq<Row>, i: nat, j: nat)
    requires IncreasingIds(t)
    requires i < |t| && j < |t| && t[i].id == t[j].id
    ensures i == j
  {
  }

  /** The statements keep what auto-increment guarantees. */
  lemma {:induction false} InsertKeepsValid(db: Db, drafts: seq<Row>)
    requires StoreValid(db)
    requires forall x :: x in drafts ==> x.entryEdgeId < db.nextId && x.exitEdgeId < db.nextId && x.directEdgeId < db.nextId
    ensures StoreValid(Insert(db, drafts))
  {
    var added := Renumber(drafts, db.nextId);
    var rows := db.rows + added;
    var n := db.nextId + |drafts|;
    forall r | r in rows ensures 1 <= r.id < n && r.entryEdgeId < n && r.exitEdgeId < n && r.directEdgeId < n {
      if r !in db.rows {
        var k :| 0 <= k < |added| && added[k] == r;
        assert drafts[k] in drafts;
      }
    }
    forall i, j | 0 <= i < j < |rows| ensures rows[i].id < rows[j].id {
      if j >= |db.rows| && i < |db.rows| {
        assert rows[i] in db.rows;
      }
    }
  }

  lemma UpdateKeepsValid(db: Db, target: nat, entry: nat, exit: nat, direct: nat)
    requires StoreValid(db)
    requires entry < db.nextId && exit < db.nextId && direct < db.nextId
    ensures StoreValid(Updated(db, target, entry, exit, direct))
  {
    var rows := SetRefs(db.rows, target, entry, exit, direct);
    forall r | r in rows
      ensures 1 <= r.id < db.nextId && r.entryEdgeId < db.nextId && r.exitEdgeId < db.nextId && r.directEdgeId < db.nextId
    {
      var k :| 0 <= k < |rows| && rows[k] == r;
      assert db.rows[k] in db.rows;
    }
  }

  lemma DeleteKeepsValid(db: Db, del: set<nat>)
    requires StoreValid(db)
    ensures StoreValid(Deleted(db, del))
  {
    WhereIncreasing(db.rows, IdNotIn(del));
  }

  /**
   * The table, held by the store and changed in place by the core's
   * statements. Value() is its contents as a value.
   */
  class EdgeTable {
    var rows: seq<Row>
    var nextId: nat

    ghost function Value(): Db
      reads this
    {
      Db(rows, nextId)
    }

    ghost predicate Valid()
      reads this
    {
      StoreValid(Value())
    }

    /** An empty table whose first auto-increment id is 1. */
    constructor ()
      ensures Valid() && Value() == Db([], 1)
    {
      rows := [];
      nextId := 1;
    }

    /** DagEdge::create: a new row with the next id and NULL id references. */
    method Create(startVertex: int, endVertex: int, source: string) returns (edge: Row)
      requires Valid()
      modifies this
      ensures Valid()
      ensures edge == Row(old(nextId), startVertex, endVertex, 0, source, NoId, NoId, NoId)
      ensures Value() == Insert(old(Value()), [edge.(id := NoId)])
    {
      edge := Row(nextId, startVertex, endVertex, 0, source, NoId, NoId, NoId);
      InsertKeepsValid(Value(), [edge.(id := NoId)]);
      rows := rows + [edge];
      nextId := nextId + 1;
    }

    /** $edge->update([...]): sets the three id references of the row with this id. */
    method UpdateRefs(target: nat, entry: nat, exit: nat, direct: nat)
      requires Valid()
      requires entry < nextId && exit < nextId && direct < nextId
      modifies this
      ensures Valid()
      ensures Value() == Updated(old(Value()), target, entry, exit, direct)
    {
      UpdateKeepsValid(Value(), target, entry, exit, direct);
      rows := SetRefs(rows, target, entry, exit, direct);
    }

    /** INSERT INTO ... SELECT: appends the selected rows in one statement, with fresh ids. */
    method InsertFromSelect(drafts: seq<Row>)
      requires Valid()
      requires forall x :: x in drafts ==> x.entryEdgeId < nextId && x.exitEdgeId < nextId && x.directEdgeId < nextId
      modifies this
      ensures Valid()
      ensures Value() == Insert(old(Value()), drafts)
    {
      InsertKeepsValid(Value(), drafts);
      rows := rows + Renumber(drafts, nextId);
      nextId := nextId + |drafts|;
    }

    /** DELETE WHERE id IN del. */
    method DeleteWhereIn(del: set<nat>)
      requires Valid()
      modifies this
      ensures Valid()
      ensures Value() == Deleted(old(Value()), del)
    {
      DeleteKeepsValid(Value(), del);
      rows := Where(rows, IdNotIn(del));
    }

    /** rollBack(): the rows return to the snapshot taken at beginTransaction; the counter does not. */
    method RollBack(saved: seq<Row>)
      requires Valid()
      requires IncreasingIds(saved) && Bounded(saved, nextId)
      modifies this
      ensures Valid()
      ensures Value() == Db(saved, old(nextId))
    {
      rows := saved;
    }
  }
}
