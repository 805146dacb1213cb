/**
 * Edge removal: the lookup of the direct row, the collection of every row
 * that depends on it (the rows it created, then, pass after pass, the rows
 * built upon a collected row) and the delete of the collected ids.
 *
 * EntryIds is the collection as a function of the table; the loop method
 * GetAllEdgeEntryIds is proved to compute it, and the lemmas below say what
 * it is: the seed first, closed under "built upon", nothing collected
 * without a reason, no id twice, and the least such set.
 */
module Removal {
  import opened DagModel
  import opened EdgeStore

  /** The table after a removal, and what the call returned. */
  datatype Outcome = Outcome(db: Db, removed: bool)

  function Members(ids: seq<nat>): set<nat>
  {
    set x | x in ids
  }

  /** The first row satisfying c, in table order (->first()). */
  function First(t: seq<Row>, c: Cond): (r: Option<Row>)
    ensures r.None? <==> forall x :: x in t ==> !Holds(c, x)
    ensures r.Some? ==> r.value in t && Holds(c, r.value)
    ensures r.Some? ==> exists i :: 0 <= i < |t| && t[i] == r.value && forall j :: 0 <= j < i ==> !Holds(c, t[j])
    decreases |t|
  {
    if t == [] then None
    else if Holds(c, t[0]) then Some(t[0])
    else
      var rest := First(t[1..], c);
      assert forall x :: x in t ==> x == t[0] || x in t[1..];
      if rest.Some? then
        var i :| 0 <= i < |t[1..]| && t[1..][i] == rest.value && forall j :: 0 <= j < i ==> !Holds(c, t[1..][j]);
        assert t[i + 1] == rest.value;
        assert forall j :: 0 <= j < i + 1 ==> !Holds(c, t[j]) by {
          forall j | 0 <= j < i + 1 ensures !Holds(c, t[j]) {
            if j > 0 {
              assert t[j] == t[1..][j - 1];
            }
          }
        }
        rest
      else rest
  }

  /** The direct row named by the request: hops 0, same start, end and source. */
  function FindDirectEdge(t: seq<Row>, d: EdgeData): Option<Row>
  {
    First(t, DirectBetween(d.startVertex, d.endVertex, d.source))
  }

  /** The ids of the rows originally inserted for the direct edge. */
  function Seed(t: seq<Row>, edge: Row): seq<nat>
  {
    Pluck(Where(t, HasDirectEdge(edge.id)))
  }

  /** One scan: ids of rows with hops > 0, not yet collected, whose entry or exit is collected. */
  function Dependents(t: seq<Row>, ids: seq<nat>): seq<nat>
  {
    Pluck(Where(t, BuiltUpon(ids)))
  }

  /** How many rows of t carry an id not yet collected: what each non-empty scan lowers. */
  function Outside(t: seq<Row>, ids: seq<nat>): nat
  {
    if t == [] then 0 else (if t[0].id in ids then 0 else 1) + Outside(t[1..], ids)
  }

  lemma {:induction false} OutsideShrinks(t: seq<Row>, ids: seq<nat>, more: seq<nat>, x: Row)
    requires x in t && x.id !in ids && x.id in more
    ensures Outside(t, ids + more) < Outside(t, ids)
    decreases |t|
  {
    assert t == [t[0]] + t[1..];
    if t[0] != x {
      OutsideShrinks(t[1..], ids, more, x);
    } else {
      OutsideMono(t[1..], ids, more);
    }
  }

  lemma {:induction false} OutsideMono(t: seq<Row>, ids: seq<nat>, more: seq<nat>)
    ensures Outside(t, ids + more) <= Outside(t, ids)
    decreases |t|
  {
    if t != [] {
      OutsideMono(t[1..], ids, more);
    }
  }

  /** A non-empty scan only adds ids of the table not yet collected. */
  lemma DependentsShrink(t: seq<Row>, ids: seq<nat>)
    ensures Dependents(t, ids) != [] ==> Outside(t, ids + Dependents(t, ids)) < Outside(t, ids)
    ensures Dependents(t, ids) == [] ==> ids + Dependents(t, ids) == ids
  {
    var next := Dependents(t, ids);
    if next != [] {
      var w := Where(t, BuiltUpon(ids));
      assert w[0] in w;
      OutsideShrinks(t, ids, next, w[0]);
    }
  }

  /** The scan loop from the state (ids collected, dep added by the last pass) to its end. */
  function CollectFrom(t: seq<Row>, ids: seq<nat>, dep: seq<nat>): seq<nat>
    decreases Outside(t, ids), |dep|
  {
    if dep == [] then ids
    else
      var next := Dependents(t, ids);
      DependentsShrink(t, ids);
      CollectFrom(t, ids + next, next)
  }

  /** getIdsToDelete / GetAllEdgeEntryIds: the seed, then scans until one adds nothing. */
  function EntryIds(t: seq<Row>, edge: Row): seq<nat>
  {
    var seed := Seed(t, edge);
    var first := Dependents(t, seed);
    CollectFrom(t, seed + first, first)
  }

  /** What the removal does, on values. */
  function RemoveEdge(db: Db, d: EdgeData): Outcome
  {
    match FindDirectEdge(db.rows, d)
    case None => Outcome(db, false)
    case Some(edge) =>
      var ids := EntryIds(db.rows, edge);
      if |ids| == 0 then Outcome(db, false) else Outcome(Deleted(db, Members(ids)), true)
  }

  // ---------------------------------------------------------------------
  // The statements run against the table
  // ---------------------------------------------------------------------

  /** GetAllEdgeEntryIds.__invoke (Tasks getIdsToDelete): the do-while scan. */
  method GetAllEdgeEntryIds(t: EdgeTable, edge: Row) returns (ids: seq<nat>)
    ensures ids == EntryIds(t.rows, edge)
  {
    ids := Seed(t.rows, edge);
    var dependent := Dependents(t.rows, ids);
    ids := ids + dependent;
    while dependent != []
      invariant CollectFrom(t.rows, ids, dependent) == EntryIds(t.rows, edge)
      decreases Outside(t.rows, ids), |dependent|
    {
      DependentsShrink(t.rows, ids);
      dependent := Dependents(t.rows, ids);
      ids := ids + dependent;
    }
  }

  /** removeDagEdge: nothing to delete gives false; otherwise delete the ids and give true. */
  method DeleteEntries(t: EdgeTable, ids: seq<nat>) returns (removed: bool)
    requires t.Valid()
    modifies t
    ensures t.Valid()
    ensures Outcome(t.Value(), removed) ==
      if |ids| == 0 then Outcome(old(t.Value()), false) else Outcome(Deleted(old(t.Value()), Members(ids)), true)
  {
    if |ids| == 0 {
      return false;
    }
    t.DeleteWhereIn(Members(ids));
    return true;
  }

  /** RemoveDagEdge: Tasks execute and Actions __invoke. */
  method RemoveDagEdge(t: EdgeTable, d: EdgeData) returns (removed: bool)
    requires t.Valid()
    modifies t
    ensures t.Valid()
    ensures Outcome(t.Value(), removed) == RemoveEdge(old(t.Value()), d)
  {
    var found := FindDirectEdge(t.rows, d);
    if found.None? {
      return false;
    }
    var ids := GetAllEdgeEntryIds(t, found.value);
    removed := DeleteEntries(t, ids);
  }

  // ---------------------------------------------------------------------
  // What the collection is
  // ---------------------------------------------------------------------

  /** No row with hops > 0 is built upon a member of s without being one itself. */
  predicate ClosedUnder(t: seq<Row>, s: set<nat>)
  {
    forall r :: r in t && r.hops > 0 && (r.entryEdgeId in s || r.exitEdgeId in s) ==> r.id in s
  }

  /** x is the id of a row with hops > 0 whose entry or exit edge is among prior. */
  predicate BuiltOn(t: seq<Row>, x: nat, prior: seq<nat>)
  {
    exists r :: r in t && r.id == x && r.hops > 0 && (r.entryEdgeId in prior || r.exitEdgeId in prior)
  }

  /** Every id from position from on is built upon an id before it. */
  predicate Derived(t: seq<Row>, ids: seq<nat>, from: nat)
  {
    forall k :: from <= k < |ids| ==> BuiltOn(t, ids[k], ids[..k])
  }

  predicate Distinct(ids: seq<nat>)
  {
    forall i, j :: 0 <= i < j < |ids| ==> ids[i] != ids[j]
  }

  /** The loop state: dep is what the last pass added, a scan of the ids before it. */
  predicate LastPass(t: seq<Row>, ids: seq<nat>, dep: seq<nat>)
  {
    |dep| <= |ids| && ids[|ids| - |dep|..] == dep && dep == Dependents(t, ids[..|ids| - |dep|])
  }

  /** Rows found by a scan have hops > 0, are new, and are built upon the ids scanned. */
  lemma DependentsAre(t: seq<Row>, ids: seq<nat>, j: nat)
    requires j < |Dependents(t, ids)|
    ensures exists r :: (r in t && r.id == Dependents(t, ids)[j] && r.hops > 0 && r.id !in ids &&
      (r.entryEdgeId in ids || r.exitEdgeId in ids))
  {
    var w := Where(t, BuiltUpon(ids));
    assert w[j] in w;
  }

  /** A scan that finds nothing leaves the collection closed under "built upon". */
  lemma EmptyScanClosed(t: seq<Row>, ids: seq<nat>)
    requires Dependents(t, ids) == []
    ensures ClosedUnder(t, Members(ids))
  {
    var w := Where(t, BuiltUpon(ids));
    assert |w| == 0;
    forall r | r in t && r.hops > 0 && (r.entryEdgeId in Members(ids) || r.exitEdgeId in Members(ids))
      ensures r.id in Members(ids)
    {
      assert Holds(BuiltUpon(ids), r) ==> r in w;
    }
  }

  /** Appending a scan keeps every id after from derived. */
  lemma ScanDerived(t: seq<Row>, ids: seq<nat>, from: nat)
    requires from <= |ids| && Derived(t, ids, from)
    ensures Derived(t, ids + Dependents(t, ids), from)
  {
    var next := Dependents(t, ids);
    var ids' := ids + next;
    forall k | from <= k < |ids'|
      ensures BuiltOn(t, ids'[k], ids'[..k])
    {
      if k < |ids| {
        assert BuiltOn(t, ids[k], ids[..k]);
        assert ids'[..k] == ids[..k] && ids'[k] == ids[k];
      } else {
        DependentsAre(t, ids, k - |ids|);
        var r :| r in t && r.id == next[k - |ids|] && r.hops > 0 && r.id !in ids && (r.entryEdgeId in ids || r.exitEdgeId in ids);
        assert ids'[k] == next[k - |ids|];
        assert forall x :: x in ids ==> x in ids'[..k] by {
          assert ids'[..k][..|ids|] == ids;
        }
      }
    }
  }

  /** The scan loop only appends to the ids it starts from. */
  lemma {:induction false} CollectExtends(t: seq<Row>, ids: seq<nat>, dep: seq<nat>)
    ensures |ids| <= |CollectFrom(t, ids, dep)| && CollectFrom(t, ids, dep)[..|ids|] == ids
    decreases Outside(t, ids), |dep|
  {
    if dep == [] {
      assert ids[..|ids|] == ids;
    } else {
      var next := Dependents(t, ids);
      DependentsShrink(t, ids);
      CollectExtends(t, ids + next, next);
      var result := CollectFrom(t, ids + next, next);
      assert result[..|ids|] == result[..|ids + next|][..|ids|];
    }
  }

  /** The scan loop ends closed under "built upon". */
  lemma {:induction false} CollectClosed(t: seq<Row>, ids: seq<nat>, dep: seq<nat>)
    requires LastPass(t, ids, dep)
    ensures ClosedUnder(t, Members(CollectFrom(t, ids, dep)))
    decreases Outside(t, ids), |dep|
  {
    if dep == [] {
      assert ids[..|ids|] == ids;
      EmptyScanClosed(t, ids);
    } else {
      var next := Dependents(t, ids);
      var ids' := ids + next;
      DependentsShrink(t, ids);
      assert ids'[..|ids|] == ids && ids'[|ids'| - |next|..] == next;
      CollectClosed(t, ids', next);
    }
  }

  /** The scan loop adds only derived ids. */
  lemma {:induction false} CollectDerived(t: seq<Row>, ids: seq<nat>, dep: seq<nat>, from: nat)
    requires from <= |ids| && Derived(t, ids, from)
    ensures Derived(t, CollectFrom(t, ids, dep), from)
    decreases Outside(t, ids), |dep|
  {
    if dep != [] {
      DependentsShrink(t, ids);
      ScanDerived(t, ids, from);
      CollectDerived(t, ids + Dependents(t, ids), Dependents(t, ids), from);
    }
  }

  /** A non-empty scan adds new ids, no two alike once table ids are increasing. */
  lemma DependentsDistinct(t: seq<Row>, ids: seq<nat>)
    requires IncreasingIds(t) && Distinct(ids)
    ensures Distinct(ids + Dependents(t, ids))
  {
    var w := Where(t, BuiltUpon(ids));
    WhereIncreasing(t, BuiltUpon(ids));
    var all := ids + Dependents(t, ids);
    forall i, j | 0 <= i < j < |all| ensures all[i] != all[j] {
      if i >= |ids| {
        assert all[i] == w[i - |ids|].id && all[j] == w[j - |ids|].id;
      } else if j >= |ids| {
        assert w[j - |ids|] in w;
        assert all[i] in ids;
      }
    }
  }

  lemma {:induction false} CollectDistinct(t: seq<Row>, ids: seq<nat>, dep: seq<nat>)
    requires IncreasingIds(t) && Distinct(ids)
    ensures Distinct(CollectFrom(t, ids, dep))
    decreases Outside(t, ids), |dep|
  {
    if dep != [] {
      DependentsShrink(t, ids);
      DependentsDistinct(t, ids);
      CollectDistinct(t, ids + Dependents(t, ids), Dependents(t, ids));
    }
  }

  /** The seed is every row tagged with the direct edge's id, and nothing else. */
  lemma SeedIsTagged(t: seq<Row>, edge: Row)
    ensures forall x :: x in Members(Seed(t, edge)) <==> exists r :: r in t && r.directEdgeId == edge.id && r.id == x
  {
    var w := Where(t, HasDirectEdge(edge.id));
    forall x ensures x in Members(Seed(t, edge)) <==> exists r :: r in t && r.directEdgeId == edge.id && r.id == x {
      if x in Members(Seed(t, edge)) {
        var i :| 0 <= i < |w| && Seed(t, edge)[i] == x;
        assert w[i] in w;
      }
      if exists r :: r in t && r.directEdgeId == edge.id && r.id == x {
        var r :| r in t && r.directEdgeId == edge.id && r.id == x;
        assert r in w;
        var i :| 0 <= i < |w| && w[i] == r;
        assert Seed(t, edge)[i] == x;
      }
    }
  }

  /**
   * GetAllEdgeEntryIds starts with the seed, ends closed under "built upon",
   * and every id after the seed is a row with hops > 0 built upon an earlier id.
   */
  lemma EntryIdsFacts(t: seq<Row>, edge: Row)
    ensures |Seed(t, edge)| <= |EntryIds(t, edge)| && EntryIds(t, edge)[..|Seed(t, edge)|] == Seed(t, edge)
    ensures ClosedUnder(t, Members(EntryIds(t, edge)))
    ensures Derived(t, EntryIds(t, edge), |Seed(t, edge)|)
  {
    var seed := Seed(t, edge);
    var first := Dependents(t, seed);
    var ids := seed + first;
    assert ids[..|seed|] == seed && ids[|ids| - |first|..] == first;
    assert Derived(t, ids, |seed|) by {
      forall k | |seed| <= k < |ids|
        ensures BuiltOn(t, ids[k], ids[..k])
      {
        DependentsAre(t, seed, k - |seed|);
        assert ids[k] == first[k - |seed|];
        assert forall x :: x in seed ==> x in ids[..k] by {
          assert ids[..k][..|seed|] == seed;
        }
      }
    }
    CollectExtends(t, ids, first);
    CollectClosed(t, ids, first);
    CollectDerived(t, ids, first, |seed|);
    var result := EntryIds(t, edge);
    assert result[..|seed|] == result[..|ids|][..|seed|];
  }

  /** No id is collected twice (the whereNotIn filter), given unique table ids. */
  lemma EntryIdsDistinct(t: seq<Row>, edge: Row)
    requires IncreasingIds(t)
    ensures Distinct(EntryIds(t, edge))
  {
    var seed := Seed(t, edge);
    WhereIncreasing(t, HasDirectEdge(edge.id));
    var w := Where(t, HasDirectEdge(edge.id));
    assert Distinct(seed) by {
      forall i, j | 0 <= i < j < |seed| ensures seed[i] != seed[j] {
        assert seed[i] == w[i].id && seed[j] == w[j].id;
      }
    }
    DependentsDistinct(t, seed);
    CollectDistinct(t, seed + Dependents(t, seed), Dependents(t, seed));
  }

  /** Derived ids lie in every set that holds the first ones and is closed under "built upon". */
  lemma {:induction false} DerivedWithin(t: seq<Row>, ids: seq<nat>, from: nat, s: set<nat>, k: nat)
    requires Derived(t, ids, from) && ClosedUnder(t, s)
    requires forall i :: 0 <= i < from && i < |ids| ==> ids[i] in s
    requires k <= |ids|
    ensures forall i :: 0 <= i < k ==> ids[i] in s
    decreases k
  {
    if k > 0 {
      DerivedWithin(t, ids, from, s, k - 1);
      if k - 1 >= from {
        var r :| r in t && r.id == ids[k - 1] && r.hops > 0 && (r.entryEdgeId in ids[..k - 1] || r.exitEdgeId in ids[..k - 1]);
        assert forall x :: x in ids[..k - 1] ==> x in s;
      }
    }
  }

  /** The collection is the least set that holds the seed and is closed under "built upon". */
  lemma EntryIdsLeast(t: seq<Row>, edge: Row, s: set<nat>)
    requires Members(Seed(t, edge)) <= s && ClosedUnder(t, s)
    ensures Members(EntryIds(t, edge)) <= s
  {
    EntryIdsFacts(t, edge);
    var ids, seed := EntryIds(t, edge), Seed(t, edge);
    forall i | 0 <= i < |seed| && i < |ids| ensures ids[i] in s {
      assert ids[i] == seed[i];
    }
    DerivedWithin(t, ids, |seed|, s, |ids|);
  }
}
