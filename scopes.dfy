/**
 * The IsDagManaged scopes: each wraps a scalar id into an array and adds the
 * service's relation filter to the caller's query; relations adds the
 * ancestors filter and then the descendants filter as an alternative.
 */
module DagScopes {
  import opened DagModel
  import opened Queries
  import opened Service

  /** The ancestors subquery of the seeds. */
  function Ancestors(service: DagService, ids: seq<PhpValue>, source: string, requested: Option<int>): set<int>
    requires AllInts(ids)
    reads service.table
  {
    RelatedVertices(service.table.rows, IntsOf(ids), source, false, EffectiveMaxHops(requested, service.maxHops))
  }

  /** The descendants subquery of the seeds. */
  function Descendants(service: DagService, ids: seq<PhpValue>, source: string, requested: Option<int>): set<int>
    requires AllInts(ids)
    reads service.table
  {
    RelatedVertices(service.table.rows, IntsOf(ids), source, true, EffectiveMaxHops(requested, service.maxHops))
  }

  /** scopeDagDescendantsOf: down = true, whereIn. */
  method ScopeDagDescendantsOf(service: DagService, query: QueryBuilder, modelIds: PhpValue, source: string,
                               requested: Option<int>) returns (thrown: Option<DagError>)
    modifies query
    ensures thrown.Some? <==> !AllInts(GetIdsAsArray(modelIds))
    ensures thrown.Some? ==> query.clauses == old(query.clauses)
    ensures thrown.None? ==> (query.clauses == old(query.clauses) +
      [KeyIn(Descendants(service, GetIdsAsArray(modelIds), source, requested), false)])
  {
    thrown := service.QueryDagRelationsForModel(query, GetIdsAsArray(modelIds), source, true, requested, false);
  }

  /** scopeDagAncestorsOf: down = false, whereIn. */
  method ScopeDagAncestorsOf(service: DagService, query: QueryBuilder, modelIds: PhpValue, source: string,
                             requested: Option<int>) returns (thrown: Option<DagError>)
    modifies query
    ensures thrown.Some? <==> !AllInts(GetIdsAsArray(modelIds))
    ensures thrown.Some? ==> query.clauses == old(query.clauses)
    ensures thrown.None? ==> (query.clauses == old(query.clauses) +
      [KeyIn(Ancestors(service, GetIdsAsArray(modelIds), source, requested), false)])
  {
    thrown := service.QueryDagRelationsForModel(query, GetIdsAsArray(modelIds), source, false, requested, false);
  }

  /** scopeDagRelationsOf: the ancestors filter, then the descendants filter with orWhereIn. */
  method ScopeDagRelationsOf(service: DagService, query: QueryBuilder, modelIds: PhpValue, source: string,
                             requested: Option<int>) returns (thrown: Option<DagError>)
    modifies query
    ensures thrown.Some? <==> !AllInts(GetIdsAsArray(modelIds))
    ensures thrown.Some? ==> query.clauses == old(query.clauses)
    ensures thrown.None? ==> (query.clauses == old(query.clauses) +
      [KeyIn(Ancestors(service, GetIdsAsArray(modelIds), source, requested), false),
       KeyIn(Descendants(service, GetIdsAsArray(modelIds), source, requested), true)])
  {
    var ids := GetIdsAsArray(modelIds);
    thrown := service.QueryDagRelationsForModel(query, ids, source, false, requested, false);
    if thrown.Some? {
      return;
    }
    thrown := service.QueryDagRelationsForModel(query, ids, source, true, requested, true);
  }

  /**
   * What the relations scope admits after the caller's own filters cs: a key
   * passing cs that is an ancestor, or any descendant. On a query with no
   * filters of its own that is the union of the two.
   */
  lemma RelationsIsUnion(cs: seq<Clause>, ancestors: set<int>, descendants: set<int>, key: int)
    ensures Selects(cs + [KeyIn(ancestors, false), KeyIn(descendants, true)], key) <==>
      (Selects(cs, key) && key in ancestors) || key in descendants
    ensures Selects([KeyIn(ancestors, false), KeyIn(descendants, true)], key) <==> key in ancestors + descendants
  {
    WhereInNarrows(cs, ancestors, key);
    OrWhereInWidens(cs + [KeyIn(ancestors, false)], descendants, key);
    assert cs + [KeyIn(ancestors, false), KeyIn(descendants, true)] == cs + [KeyIn(ancestors, false)] + [KeyIn(descendants, true)];
    WhereInNarrows([], ancestors, key);
    OrWhereInWidens([KeyIn(ancestors, false)], descendants, key);
    assert [KeyIn(ancestors, false), KeyIn(descendants, true)] == [] + [KeyIn(ancestors, false)] + [KeyIn(descendants, true)];
  }

  /**
   * A scalar id becomes the one seed; a float, a bool or an object holding ids
   * is one non-int value and is refused.
   */
  lemma IdsAsArrayGuarded(n: int, x: real, b: bool, items: seq<PhpValue>)
    ensures AllInts(GetIdsAsArray(PhpInt(n))) && IntsOf(GetIdsAsArray(PhpInt(n))) == [n]
    ensures !AllInts(GetIdsAsArray(PhpFloat(x))) && !AllInts(GetIdsAsArray(PhpBool(b)))
    ensures !AllInts(GetIdsAsArray(PhpCollection(items)))
    ensures AllInts(GetIdsAsArray(PhpArray(items))) <==> forall i :: 0 <= i < |items| ==> items[i].PhpInt?
  {
    assert GetIdsAsArray(PhpCollection(items))[0] == PhpCollection(items);
    assert GetIdsAsArray(PhpFloat(x))[0] == PhpFloat(x);
    assert GetIdsAsArray(PhpBool(b))[0] == PhpBool(b);
  }
}
