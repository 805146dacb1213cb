/**
 * Concrete runs on one source: the chain D -> C -> B -> A built edge by edge,
 * a duplicate, a cycle, the hop ceiling, removals and the relation queries.
 * Each group of runs is its own module, importing only what it reads.
 */
module Scenarios {
  import opened DagModel

  const A: int := 1
  const B: int := 2
  const C: int := 3
  const D: int := 4
  const Src: string := "s"

  function E(s: int, e: int): EdgeData
  {
    EdgeData(s, e, Src)
  }

  /** The table after inserting B -> A into the empty table. */
  function OneEdge(): seq<Row>
  {
    [Row(1, B, A, 0, Src, 1, 1, 1)]
  }

  /** ... then C -> B. */
  function TwoEdges(): seq<Row>
  {
    [Row(1, B, A, 0, Src, 1, 1, 1), Row(2, C, B, 0, Src, 2, 2, 2), Row(3, C, A, 1, Src, 2, 1, 2)]
  }

  /** ... then D -> C. */
  function ThreeEdges(): seq<Row>
  {
    [Row(1, B, A, 0, Src, 1, 1, 1), Row(2, C, B, 0, Src, 2, 2, 2), Row(3, C, A, 1, Src, 2, 1, 2),
     Row(4, D, C, 0, Src, 4, 4, 4), Row(5, D, B, 1, Src, 4, 2, 4), Row(6, D, A, 2, Src, 4, 3, 4)]
  }
}

/** Insertions into the chain, a duplicate and two cycles. */
module InsertionScenarios {
  import opened DagModel
  import opened EdgeStore
  import opened Ordering
  import opened Insertion
  import opened InsertionFacts
  import opened Scenarios

  /** A hop-ordered permutation of three rows of distinct hops is those rows in hop order. */
  lemma ThreeInHopOrder(es: seq<Row>, x: Row, y: Row, z: Row)
    requires multiset(es) == multiset([x, y, z]) && SortedByHops(es) && x.hops < y.hops < z.hops
    ensures es == [x, y, z]
  {
    assert |es| == 3;
    assert x in multiset(es) && y in multiset(es) && z in multiset(es);
    assert x in es && y in es && z in es;
    assert es[0] in multiset(es) && es[1] in multiset(es) && es[2] in multiset(es);
  }

  /** Into the empty table B -> A writes its direct row and nothing implied. */
  lemma FirstRows(db: Db, d: EdgeData)
    requires db == Db([], 1) && d == E(B, A)
    ensures AddedRows(db, d) == OneEdge()
  {
    assert EndingAtStart([], d) == [] && StartingAtEnd([], d) == [];
    assert ImpliedDrafts([], DirectRow(1, d), d) == [];
  }

  /** The guards pass for B -> A into the empty table. */
  lemma FirstPasses(db: Db, d: EdgeData)
    requires db == Db([], 1) && d == E(B, A)
    ensures StoreValid(db) && !EdgeExists(db.rows, d) && !IsCircular(db.rows, d)
  {
    assert !EdgeExists([], E(B, A)) && !IsCircular([], E(B, A));
  }

  lemma FirstEdge(db: Db, d: EdgeData)
    requires db == Db([], 1) && d == E(B, A)
    ensures AddEdge(db, d, 5) == Step(Db(OneEdge(), 2), Added(OneEdge()))
  {
    FirstPasses(db, d);
    FirstWithin(db, d);
    InsertionResult(db, d, 5);
    var s := AddEdge(db, d, 5);
    assert s.db == Db([] + AddedRows(db, d), 1 + |AddedRows(db, d)|);
    FirstRows(db, d);
    assert [] + OneEdge() == OneEdge();
    OneInOrder(s.outcome.edges, OneEdge()[0]);
  }

  /** The row B -> A adds is within a ceiling of 5. */
  lemma FirstWithin(db: Db, d: EdgeData)
    requires db == Db([], 1) && d == E(B, A)
    ensures forall x :: x in AddedRows(db, d) ==> x.hops <= 5
  {
    FirstRows(db, d);
  }

  /** A permutation of one row is that row. */
  lemma OneInOrder(es: seq<Row>, x: Row)
    requires multiset(es) == multiset(OneEdge()) && x == OneEdge()[0]
    ensures es == OneEdge()
  {
    assert |es| == 1;
    assert es[0] in multiset(es);
  }

  /** C -> B after B -> A: the direct row and C -> A through B. */
  lemma SecondRows(db: Db, d: EdgeData)
    requires db == Db(OneEdge(), 2) && d == E(C, B)
    ensures AddedRows(db, d) == TwoEdges()[1..]
  {
    assert StartingAtEnd(OneEdge(), E(C, B)) == OneEdge();
    assert EndingAtStart(OneEdge(), E(C, B)) == [];
    assert ImpliedDrafts(OneEdge(), DirectRow(2, E(C, B)), E(C, B)) == [Row(NoId, C, A, 1, Src, 2, 1, 2)];
  }

  /** The guards pass for C -> B over B -> A. */
  lemma SecondPasses(db: Db, d: EdgeData)
    requires db == Db(OneEdge(), 2) && d == E(C, B)
    ensures StoreValid(db) && !EdgeExists(db.rows, d) && !IsCircular(db.rows, d)
  {
    assert !EdgeExists(OneEdge(), E(C, B)) && !IsCircular(OneEdge(), E(C, B));
  }

  lemma SecondEdge(db: Db, d: EdgeData)
    requires db == Db(OneEdge(), 2) && d == E(C, B)
    ensures AddEdge(db, d, 5).db == Db(TwoEdges(), 4)
  {
    SecondPasses(db, d);
    SecondRows(db, d);
    assert OneEdge() + TwoEdges()[1..] == TwoEdges();
    InsertionResult(db, d, 5);
  }

  /** D -> C after C -> B and B -> A: the direct row, D -> B and D -> A. */
  lemma ThirdRows(db: Db, d: EdgeData)
    requires db == Db(TwoEdges(), 4) && d == E(D, C)
    ensures AddedRows(db, d) == ThreeEdges()[3..]
  {
    assert StartingAtEnd(TwoEdges(), E(D, C)) == [Row(2, C, B, 0, Src, 2, 2, 2), Row(3, C, A, 1, Src, 2, 1, 2)];
    assert EndingAtStart(TwoEdges(), E(D, C)) == [];
  }

  /** The guards pass for D -> C over the two-edge chain. */
  lemma ThirdPasses(db: Db, d: EdgeData)
    requires db == Db(TwoEdges(), 4) && d == E(D, C)
    ensures StoreValid(db) && !EdgeExists(db.rows, d) && !IsCircular(db.rows, d)
  {
    assert !EdgeExists(TwoEdges(), E(D, C)) && !IsCircular(TwoEdges(), E(D, C));
  }

  lemma ThirdEdgeTable(db: Db, d: EdgeData)
    requires db == Db(TwoEdges(), 4) && d == E(D, C)
    ensures AddEdge(db, d, 5).db == Db(ThreeEdges(), 7)
  {
    ThirdPasses(db, d);
    InsertionResult(db, d, 5);
    var added := AddedRows(db, d);
    assert AddEdge(db, d, 5).db == Db(TwoEdges() + added, 4 + |added|);
    ThirdRows(db, d);
    ChainExtends();
  }

  lemma ChainExtends()
    ensures TwoEdges() + ThreeEdges()[3..] == ThreeEdges()
  {
  }

  /** The simple chain: the third insertion returns D -> C, D -> B, D -> A in hop order. */
  lemma ThirdEdge(db: Db, d: EdgeData)
    requires db == Db(TwoEdges(), 4) && d == E(D, C)
    ensures AddEdge(db, d, 5).outcome == Added(ThreeEdges()[3..])
  {
    ThirdPasses(db, d);
    ThirdWithin(db, d);
    InsertionResult(db, d, 5);
    var out := AddEdge(db, d, 5).outcome;
    ThirdRows(db, d);
    ThirdInOrder(out.edges);
  }

  /** The rows D -> C adds are within a ceiling of 5. */
  lemma ThirdWithin(db: Db, d: EdgeData)
    requires db == Db(TwoEdges(), 4) && d == E(D, C)
    ensures forall x :: x in AddedRows(db, d) ==> x.hops <= 5
  {
    ThirdRows(db, d);
  }

  /** A hop-ordered permutation of D -> C, D -> B, D -> A is that list. */
  lemma ThirdInOrder(es: seq<Row>)
    requires SortedByHops(es) && multiset(es) == multiset(ThreeEdges()[3..])
    ensures es == ThreeEdges()[3..]
  {
    var t := ThreeEdges()[3..];
    assert t == [t[0], t[1], t[2]];
    ThreeInHopOrder(es, t[0], t[1], t[2]);
  }

  /** Inserting B -> A again returns null and writes nothing. */
  lemma DuplicateEdge(db: Db, d: EdgeData)
    requires db == Db(OneEdge(), 2) && d == E(B, A)
    ensures AddEdge(db, d, 5) == Step(db, Duplicate)
  {
    assert EdgeExists(OneEdge(), E(B, A));
  }

  /** With B -> A and C -> B in place, A -> C closes a cycle; so does A -> A. */
  lemma CircularEdges(db: Db)
    requires db == Db(TwoEdges(), 4)
    ensures AddEdge(db, E(A, C), 5) == Step(db, Failed(CircularReference))
    ensures AddEdge(db, E(A, A), 5) == Step(db, Failed(CircularReference))
  {
    assert !EdgeExists(TwoEdges(), E(A, C)) && IsCircular(TwoEdges(), E(A, C));
    assert !EdgeExists(TwoEdges(), E(A, A)) && IsCircular(TwoEdges(), E(A, A));
  }
}

/** createEdge over the hop ceiling rolls the rows back. */
module ServiceScenarios {
  import opened DagModel
  import opened EdgeStore
  import opened Insertion
  import opened InsertionFacts
  import opened Service
  import opened Scenarios
  import opened InsertionScenarios

  /** Analogue of the ceiling test on the two-edge chain: with a ceiling of 1 hop, D -> C throws TooManyHops and createEdge restores the rows. */
  lemma CeilingRollsBack(db: Db, d: EdgeData)
    requires db == Db(TwoEdges(), 4) && d == E(D, C)
    ensures CreateEdgeOutcome(db, d, 1) == Created(Db(TwoEdges(), 7), Failure(TooManyHops(1)))
  {
    ThirdPasses(db, d);
    ThirdRows(db, d);
    InsertionResult(db, d, 1);
    assert ThreeEdges()[3..][2] in AddedRows(db, d);
  }
}

/** Removals from the chain. */
module RemovalScenarios {
  import opened DagModel
  import opened EdgeStore
  import opened InsertionFacts
  import opened Removal
  import opened Scenarios

  /** Deleting the only edge empties the table and returns true. */
  lemma DeleteOnlyEdge()
    ensures RemoveEdge(Db(OneEdge(), 2), E(B, A)) == Outcome(Db([], 2), true)
  {
    var t := OneEdge();
    var e := t[0];
    assert FindDirectEdge(t, E(B, A)) == Some(e);
    assert Seed(t, e) == [1];
    assert Dependents(t, [1]) == [];
    assert EntryIds(t, e) == [1];
  }

  /** Deleting an absent edge returns false: C -> A is stored only as an implied row. */
  lemma DeleteAbsentEdge()
    ensures RemoveEdge(Db(TwoEdges(), 4), E(C, A)) == Outcome(Db(TwoEdges(), 4), false)
    ensures RemoveEdge(Db([], 1), E(B, A)) == Outcome(Db([], 1), false)
  {
    assert FindDirectEdge(TwoEdges(), E(C, A)) == None;
  }

  /** In the chain, C -> B is found and its removal starts from the rows it is the direct edge of. */
  lemma ChainSeed()
    ensures FindDirectEdge(ThreeEdges(), E(C, B)) == Some(ThreeEdges()[1])
    ensures Seed(ThreeEdges(), ThreeEdges()[1]) == [2, 3]
  {
    ChainFound();
    ChainTagged();
  }

  lemma ChainFound()
    ensures FindDirectEdge(ThreeEdges(), E(C, B)) == Some(ThreeEdges()[1])
  {
    var t := ThreeEdges();
    var c := DirectBetween(C, B, Src);
    assert !Holds(c, t[0]) && Holds(c, t[1]);
    assert First(t[1..], c) == Some(t[1]);
  }

  lemma ChainTagged()
    ensures Where(ThreeEdges(), HasDirectEdge(2)) == [ThreeEdges()[1], ThreeEdges()[2]]
  {
    var t := ThreeEdges();
    var h := HasDirectEdge(2);
    WhereNone(t[3..], h);
    assert Where(t[2..], h) == [t[2]];
    assert Where(t[1..], h) == [t[1], t[2]];
    assert Where(t, h) == [t[1], t[2]];
  }

  /** A WHERE over one row followed by more rows. */
  lemma WhereCons(x: Row, rest: seq<Row>, c: Cond)
    ensures Where([x] + rest, c) == (if Holds(c, x) then [x] else []) + Where(rest, c)
  {
    assert ([x] + rest)[0] == x && ([x] + rest)[1..] == rest;
  }

  /** The first scan adds D -> B and D -> A. */
  lemma ChainFirstScan()
    ensures Dependents(ThreeEdges(), [2, 3]) == [5, 6]
  {
    var t := ThreeEdges();
    ChainFirstWhere();
    assert Pluck([t[4], t[5]]) == [5, 6];
  }

  /** Which rows of the chain are built upon C -> B or C -> A. */
  lemma ChainFirstHolds()
    ensures var t, c := ThreeEdges(), BuiltUpon([2, 3]);
      !Holds(c, t[0]) && !Holds(c, t[1]) && !Holds(c, t[2]) && !Holds(c, t[3]) && Holds(c, t[4]) && Holds(c, t[5])
  {
    var ids: seq<nat> := [2, 3];
    assert 2 in ids && 3 in ids && 1 !in ids && 4 !in ids && 5 !in ids && 6 !in ids;
  }

  lemma ChainFirstWhere()
    ensures Where(ThreeEdges(), BuiltUpon([2, 3])) == [ThreeEdges()[4], ThreeEdges()[5]]
  {
    var t, c := ThreeEdges(), BuiltUpon([2, 3]);
    ChainFirstHolds();
    assert t == [t[0]] + ([t[1]] + ([t[2]] + ([t[3]] + ([t[4]] + ([t[5]] + [])))));
    WhereCons(t[5], [], c);
    WhereCons(t[4], [t[5]], c);
    WhereCons(t[3], [t[4], t[5]], c);
    WhereCons(t[2], [t[3], t[4], t[5]], c);
    WhereCons(t[1], [t[2], t[3], t[4], t[5]], c);
    WhereCons(t[0], [t[1], t[2], t[3], t[4], t[5]], c);
    assert Where(t, c) == [t[4], t[5]];
  }

  /** The second scan adds nothing. */
  lemma ChainSecondScan()
    ensures Dependents(ThreeEdges(), [2, 3, 5, 6]) == []
  {
    var t, c := ThreeEdges(), BuiltUpon([2, 3, 5, 6]);
    assert forall x :: x in t ==> !Holds(c, x);
    WhereNone(t, c);
  }

  lemma ChainEntryIds()
    ensures EntryIds(ThreeEdges(), ThreeEdges()[1]) == [2, 3, 5, 6]
  {
    var t := ThreeEdges();
    ChainSeed();
    ChainFirstScan();
    ChainSecondScan();
    assert [2, 3] + Dependents(t, [2, 3]) == [2, 3, 5, 6];
    assert CollectFrom(t, [2, 3, 5, 6], []) == [2, 3, 5, 6];
    assert [2, 3, 5, 6] + Dependents(t, [2, 3, 5, 6]) == [2, 3, 5, 6];
    assert CollectFrom(t, [2, 3, 5, 6], [5, 6]) == CollectFrom(t, [2, 3, 5, 6], []);
  }

  /** Which rows of the chain the delete keeps. */
  lemma ChainKeptHolds()
    ensures var t, c := ThreeEdges(), IdNotIn(Members([2, 3, 5, 6]));
      Holds(c, t[0]) && !Holds(c, t[1]) && !Holds(c, t[2]) && Holds(c, t[3]) && !Holds(c, t[4]) && !Holds(c, t[5])
  {
    assert Members([2, 3, 5, 6]) == {2, 3, 5, 6};
  }

  lemma ChainKept()
    ensures Where(ThreeEdges(), IdNotIn(Members([2, 3, 5, 6]))) == [Row(1, B, A, 0, Src, 1, 1, 1), Row(4, D, C, 0, Src, 4, 4, 4)]
  {
    var t, c := ThreeEdges(), IdNotIn(Members([2, 3, 5, 6]));
    ChainKeptHolds();
    assert t == [t[0]] + ([t[1]] + ([t[2]] + ([t[3]] + ([t[4]] + ([t[5]] + [])))));
    WhereCons(t[5], [], c);
    WhereCons(t[4], [t[5]], c);
    WhereCons(t[3], [t[4], t[5]], c);
    WhereCons(t[2], [t[3], t[4], t[5]], c);
    WhereCons(t[1], [t[2], t[3], t[4], t[5]], c);
    WhereCons(t[0], [t[1], t[2], t[3], t[4], t[5]], c);
  }

  /** Deleting C -> B from the chain leaves B -> A and D -> C. */
  lemma DeleteFromChain()
    ensures RemoveEdge(Db(ThreeEdges(), 7), E(C, B)) ==
      Outcome(Db([Row(1, B, A, 0, Src, 1, 1, 1), Row(4, D, C, 0, Src, 4, 4, 4)], 7), true)
  {
    ChainSeed();
    ChainEntryIds();
    ChainKept();
  }
}

/** The relation queries over the chain. */
module QueryScenarios {
  import opened DagModel
  import opened Queries
  import opened Scenarios

  /** Descendants of A in the chain: B only at ceiling 0 (and at -1), B and C at 1, all three by default. */
  lemma DescendantsByCeiling()
    ensures RelatedVertices(ThreeEdges(), [A], Src, true, EffectiveMaxHops(Some(0), 5)) == {B}
    ensures RelatedVertices(ThreeEdges(), [A], Src, true, EffectiveMaxHops(Some(-1), 5)) == {B}
    ensures RelatedVertices(ThreeEdges(), [A], Src, true, EffectiveMaxHops(Some(1), 5)) == {B, C}
    ensures RelatedVertices(ThreeEdges(), [A], Src, true, EffectiveMaxHops(None, 5)) == {B, C, D}
  {
    var t := ThreeEdges();
    forall v ensures v in RelatedVertices(t, [A], Src, true, 0) <==> v == B {
      RelatedIff(t, [A], Src, true, 0, v);
      if v == B {
        assert Relates(t[0], v, [A], Src, true, 0);
      }
    }
    forall v ensures v in RelatedVertices(t, [A], Src, true, 1) <==> v == B || v == C {
      RelatedIff(t, [A], Src, true, 1, v);
      if v == B {
        assert Relates(t[0], v, [A], Src, true, 1);
      } else if v == C {
        assert Relates(t[2], v, [A], Src, true, 1);
      }
    }
    forall v ensures v in RelatedVertices(t, [A], Src, true, 5) <==> v == B || v == C || v == D {
      RelatedIff(t, [A], Src, true, 5, v);
      if v == B {
        assert Relates(t[0], v, [A], Src, true, 5);
      } else if v == C {
        assert Relates(t[2], v, [A], Src, true, 5);
      } else if v == D {
        assert Relates(t[5], v, [A], Src, true, 5);
      }
    }
  }

  /** Ancestors of D: C, B and A. */
  lemma AncestorsOfD()
    ensures RelatedVertices(ThreeEdges(), [D], Src, false, 5) == {A, B, C}
  {
    var t := ThreeEdges();
    forall v ensures v in RelatedVertices(t, [D], Src, false, 5) <==> v == A || v == B || v == C {
      RelatedIff(t, [D], Src, false, 5, v);
      if v == C {
        assert Relates(t[3], v, [D], Src, false, 5);
      } else if v == B {
        assert Relates(t[4], v, [D], Src, false, 5);
      } else if v == A {
        assert Relates(t[5], v, [D], Src, false, 5);
      }
    }
  }
}
