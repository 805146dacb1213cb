/**
 * The read side: the caller's id argument, its validation, the effective hop
 * ceiling, and the vertex set one relation subquery selects. The caller's
 * query builder is a list of key filters; the scopes append to it.
 */
module Queries {
  import opened DagModel
  import opened EdgeStore
  import opened Closure

  /** The PHP values a caller can pass as model ids. */
  datatype PhpValue =
    | PhpInt(n: int)
    | PhpFloat(x: real)  // is_int refuses a float, even a whole one such as 1.0
    | PhpBool(b: bool)
    | PhpString(s: string)
    | PhpNull
    | PhpArray(items: seq<PhpValue>)
    | PhpCollection(items: seq<PhpValue>)  // an object holding values, not an array

  /** getIdsAsArray: an array passes through; anything else becomes a one-element array. */
  function GetIdsAsArray(ids: PhpValue): (r: seq<PhpValue>)
    ensures ids.PhpArray? ==> r == ids.items
    ensures !ids.PhpArray? ==> |r| == 1 && r[0] == ids
  {
    if ids.PhpArray? then ids.items else [ids]
  }

  predicate AllInts(ids: seq<PhpValue>)
  {
    forall i :: 0 <= i < |ids| ==> ids[i].PhpInt?
  }

  /** The ints of an all-int argument, in order. */
  function IntsOf(ids: seq<PhpValue>): (r: seq<int>)
    requires AllInts(ids)
    ensures |r| == |ids| && forall i :: 0 <= i < |ids| ==> ids[i] == PhpInt(r[i])
  {
    seq(|ids|, i requires 0 <= i < |ids| => ids[i].n)
  }

  /** guardAgainstInvalidModelIds: the first value that is not an int throws InvalidArgument. */
  method GuardAgainstInvalidModelIds(ids: seq<PhpValue>) returns (r: Result<seq<int>>)
    ensures r.Success? <==> AllInts(ids)
    ensures r.Failure? ==> r.error == InvalidArgument
    ensures r.Success? ==> r.value == IntsOf(ids)
  {
    var ints: seq<int> := [];
    for i := 0 to |ids|
      invariant |ints| == i
      invariant forall j :: 0 <= j < i ==> ids[j] == PhpInt(ints[j])
    {
      if !ids[i].PhpInt? {
        return Failure(InvalidArgument);
      }
      ints := ints + [ids[i].n];
    }
    return Success(ints);
  }

  /** maxHops(): the request if given, else the configured ceiling; at most the configured one, at least 0. */
  function EffectiveMaxHops(requested: Option<int>, configured: nat): (r: nat)
    ensures r <= configured
    ensures requested.None? ==> r == configured
    ensures requested.Some? && requested.value < 0 ==> r == 0
    ensures requested.Some? && 0 <= requested.value <= configured ==> r == requested.value
    ensures requested.Some? && requested.value > configured ==> r == configured
  {
    var preferred := if requested.Some? then requested.value else configured;
    var capped := if preferred < configured then preferred else configured;
    if capped < 0 then 0 else capped
  }

  /**
   * The subquery of queryDagRelationsForModel: with down, the start vertex of
   * every row ending at a seed; otherwise the end vertex of every row starting
   * at one; same source, hops at most the ceiling. A set: each vertex once.
   */
  function RelatedVertices(t: seq<Row>, seeds: seq<int>, source: string, down: bool, ceiling: nat): set<int>
  {
    set r | r in t && r.source == source && r.hops <= ceiling && (if down then r.endVertex else r.startVertex) in seeds
      :: if down then r.startVertex else r.endVertex
  }

  /** A row reaching a seed within the ceiling, from v (down) or to v (up). */
  predicate Relates(r: Row, v: int, seeds: seq<int>, source: string, down: bool, ceiling: nat)
  {
    r.source == source && r.hops <= ceiling &&
    (if down then r.startVertex == v && r.endVertex in seeds else r.endVertex == v && r.startVertex in seeds)
  }

  lemma RelatedIff(t: seq<Row>, seeds: seq<int>, source: string, down: bool, ceiling: nat, v: int)
    ensures v in RelatedVertices(t, seeds, source, down, ceiling) <==> exists r :: r in t && Relates(r, v, seeds, source, down, ceiling)
  {
    if v in RelatedVertices(t, seeds, source, down, ceiling) {
      var r :| r in t && r.source == source && r.hops <= ceiling && (if down then r.endVertex else r.startVertex) in seeds
        && v == (if down then r.startVertex else r.endVertex);
      assert Relates(r, v, seeds, source, down, ceiling);
    }
    if exists r :: r in t && Relates(r, v, seeds, source, down, ceiling) {
      var r :| r in t && Relates(r, v, seeds, source, down, ceiling);
      assert v == (if down then r.startVertex else r.endVertex);
    }
  }

  /** In an acyclic table a seed is selected only through another seed it is related to. */
  lemma SeedNeedsAnotherSeed(t: seq<Row>, seeds: seq<int>, source: string, down: bool, ceiling: nat, v: int)
    requires NoSelfLoop(LinksOf(t))
    requires v in seeds && v in RelatedVertices(t, seeds, source, down, ceiling)
    ensures exists r :: r in t && Relates(r, v, seeds, source, down, ceiling) && r.startVertex != r.endVertex
  {
    RelatedIff(t, seeds, source, down, ceiling, v);
    var r :| r in t && Relates(r, v, seeds, source, down, ceiling);
    assert LinkOf(r) in LinksOf(t);
  }

  /** A walk of between 1 and ceiling + 1 direct edges from v to a seed (down) or from a seed to v. */
  ghost predicate WalkWithin(L: set<Link>, v: int, seeds: seq<int>, source: string, down: bool, ceiling: nat)
  {
    exists vs :: Chain(L, vs, source) && 2 <= |vs| <= ceiling + 2 &&
      (if down then vs[0] == v && vs[|vs| - 1] in seeds else vs[|vs| - 1] == v && vs[0] in seeds)
  }

  /**
   * In a closed table the subquery selects exactly the vertices joined to a
   * seed by a walk of direct edges at most ceiling + 1 long: descendants
   * with down, ancestors without.
   */
  lemma RelatedAreWalks(t: seq<Row>, seeds: seq<int>, source: string, down: bool, ceiling: nat, v: int)
    requires ClosureInvariant(LinksOf(t))
    ensures v in RelatedVertices(t, seeds, source, down, ceiling) <==> WalkWithin(LinksOf(t), v, seeds, source, down, ceiling)
  {
    var L := LinksOf(t);
    RelatedIff(t, seeds, source, down, ceiling, v);
    if v in RelatedVertices(t, seeds, source, down, ceiling) {
      var r :| r in t && Relates(r, v, seeds, source, down, ceiling);
      assert LinkOf(r) in L;
      assert HasWalk(L, LinkOf(r));
      var vs :| Chain(L, vs, r.source) && |vs| == r.hops + 2 && vs[0] == r.startVertex && vs[|vs| - 1] == r.endVertex;
      assert Chain(L, vs, source) && 2 <= |vs| <= ceiling + 2;
    }
    if WalkWithin(L, v, seeds, source, down, ceiling) {
      var vs :| Chain(L, vs, source) && 2 <= |vs| <= ceiling + 2 &&
        (if down then vs[0] == v && vs[|vs| - 1] in seeds else vs[|vs| - 1] == v && vs[0] in seeds);
      WalkHasLink(L, vs, source);
      var l := Link(vs[0], vs[|vs| - 1], |vs| - 2, source);
      var r :| r in t && LinkOf(r) == l;
      assert Relates(r, v, seeds, source, down, ceiling);
    }
  }

  // ---------------------------------------------------------------------
  // The caller's query
  // ---------------------------------------------------------------------

  /** whereIn(key, keys), or orWhereIn(key, keys) when disjunct. */
  datatype Clause = KeyIn(keys: set<int>, disjunct: bool)

  /**
   * The models a list of key filters admits, read left to right: a whereIn
   * narrows what came before, an orWhereIn widens it.
   */
  predicate Selects(cs: seq<Clause>, key: int)
    decreases |cs|
  {
    if cs == [] then true
    else
      var last := cs[|cs| - 1];
      if last.disjunct then Selects(cs[..|cs| - 1], key) || key in last.keys
      else Selects(cs[..|cs| - 1], key) && key in last.keys
  }

  /** The caller's query builder; a scope adds its filter in place. */
  class QueryBuilder {
    var clauses: seq<Clause>

    constructor ()
      ensures clauses == []
    {
      clauses := [];
    }

    /** whereIn or orWhereIn on the model's key. */
    method AddKeyFilter(keys: set<int>, disjunct: bool)
      modifies this
      ensures clauses == old(clauses) + [KeyIn(keys, disjunct)]
    {
      clauses := clauses + [KeyIn(keys, disjunct)];
    }
  }

  /** Appending a whereIn keeps the earlier filters and requires the key. */
  lemma WhereInNarrows(cs: seq<Clause>, keys: set<int>, key: int)
    ensures Selects(cs + [KeyIn(keys, false)], key) <==> Selects(cs, key) && key in keys
  {
    assert (cs + [KeyIn(keys, false)])[..|cs|] == cs;
  }

  /** Appending an orWhereIn admits the key on either side. */
  lemma OrWhereInWidens(cs: seq<Clause>, keys: set<int>, key: int)
    ensures Selects(cs + [KeyIn(keys, true)], key) <==> Selects(cs, key) || key in keys
  {
    assert (cs + [KeyIn(keys, true)])[..|cs|] == cs;
  }
}
