/**
 * ->orderBy('hops'): the store returns the selected rows in non-decreasing
 * hop order. The order among rows with equal hops is the store's choice; the
 * model picks one (an insertion sort) and promises only the ordering and that
 * no row is lost or added.
 */
module Ordering {
  import opened DagModel

  predicate SortedByHops(s: seq<Row>)
  {
    forall i, j :: 0 <= i < j < |s| ==> s[i].hops <= s[j].hops
  }

  function InsertByHops(x: Row, s: seq<Row>): (r: seq<Row>)
    requires SortedByHops(s)
    ensures SortedByHops(r)
    ensures multiset(r) == multiset(s) + multiset{x}
    ensures |r| == |s| + 1
    decreases |s|
  {
    if s == [] || x.hops <= s[0].hops then
      [x] + s
    else
      var tail := InsertByHops(x, s[1..]);
      HeadBelowInserted(x, s, tail);
      [s[0]] + tail
  }

  /** Inserting x behind the head of s, where the head is below x, keeps the head first. */
  lemma HeadBelowInserted(x: Row, s: seq<Row>, tail: seq<Row>)
    requires SortedByHops(s) && s != [] && s[0].hops < x.hops
    requires SortedByHops(tail) && multiset(tail) == multiset(s[1..]) + multiset{x}
    ensures SortedByHops([s[0]] + tail)
    ensures multiset([s[0]] + tail) == multiset(s) + multiset{x}
  {
    forall y | y in tail ensures s[0].hops <= y.hops {
      assert y in multiset(tail);
      if y != x {
        assert y in multiset(s[1..]);
        var k :| 0 <= k < |s[1..]| && s[1..][k] == y;
        assert s[k + 1] == y;
      }
    }
    assert s == [s[0]] + s[1..];
    SortedCons(s[0], tail);
  }

  lemma SortedCons(x: Row, s: seq<Row>)
    requires SortedByHops(s)
    requires forall y :: y in s ==> x.hops <= y.hops
    ensures SortedByHops([x] + s)
  {
    var r := [x] + s;
    forall i, j | 0 <= i < j < |r| ensures r[i].hops <= r[j].hops {
      assert r[j] == s[j - 1] && s[j - 1] in s;
      if i > 0 {
        assert r[i] == s[i - 1];
      }
    }
  }

  /** The rows of s in non-decreasing hop order. */
  function OrderByHops(s: seq<Row>): (r: seq<Row>)
    ensures SortedByHops(r)
    ensures multiset(r) == multiset(s)
    ensures |r| == |s|
    decreases |s|
  {
    if s == [] then []
    else
      assert s == [s[0]] + s[1..];
      InsertByHops(s[0], OrderByHops(s[1..]))
  }

  /** In a hop-ordered list the last row has the largest hop count. */
  lemma LastIsMax(s: seq<Row>)
    requires SortedByHops(s) && s != []
    ensures forall x :: x in s ==> x.hops <= s[|s| - 1].hops
  {
  }
}
