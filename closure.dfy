/**
 * The closure table read as a graph. A row stands for a path of hops + 1
 * direct edges from its start to its end; its Link forgets the ids. Three
 * facts about the set of links make the table the transitive closure of an
 * acyclic graph:
 *   HopClosed  - two links that meet compose into a link (hops add up, plus one);
 *   NoSelfLoop - no link returns to its start;
 *   Sound      - every link is backed by a walk of hops + 1 direct links.
 * A successful insertion turns the link set L into Grown(L, a, b, src): L
 * plus one link for every head (a vertex reaching a, or a itself) and every
 * tail (a vertex reached from b, or b itself). Grown keeps all three facts
 * when the cycle guard has passed; acyclicity follows.
 */
module Closure {
  import opened DagModel
  import opened EdgeStore
  import opened Insertion
  import opened InsertionFacts

  function LinksOf(t: seq<Row>): set<Link>
  {
    set r | r in t :: LinkOf(r)
  }

  /** x ends where y starts, in the same source. */
  predicate Meets(x: Link, y: Link)
  {
    x.to == y.from && x.source == y.source
  }

  predicate HopClosed(L: set<Link>)
  {
    forall x, y {:trigger Meets(x, y)} :: x in L && y in L && Meets(x, y) ==>
      Link(x.from, y.to, x.hops + y.hops + 1, x.source) in L
  }

  predicate NoSelfLoop(L: set<Link>)
  {
    forall x :: x in L ==> x.from != x.to
  }

  /** vs is a sequence of vertices joined by direct links (hops 0) of source src. */
  predicate Chain(L: set<Link>, vs: seq<int>, src: string)
  {
    |vs| >= 1 && forall i :: 0 <= i < |vs| - 1 ==> Link(vs[i], vs[i + 1], 0, src) in L
  }

  /** l is backed by a walk of l.hops + 1 direct links from l.from to l.to. */
  ghost predicate HasWalk(L: set<Link>, l: Link)
  {
    exists vs :: Chain(L, vs, l.source) && |vs| == l.hops + 2 && vs[0] == l.from && vs[|vs| - 1] == l.to
  }

  ghost predicate Sound(L: set<Link>)
  {
    forall l :: l in L ==> HasWalk(L, l)
  }

  ghost predicate ClosureInvariant(L: set<Link>)
  {
    HopClosed(L) && NoSelfLoop(L) && Sound(L)
  }

  /** What the cycle guard establishes, in link terms. */
  predicate Admits(L: set<Link>, a: int, b: int, src: string)
  {
    a != b && forall l :: l in L ==> !(l.from == b && l.to == a && l.source == src)
  }

  /** A vertex with the number of direct edges between it and the new edge. */
  datatype End = End(v: int, k: nat)

  /** a itself, and every start of a link into a, one edge further from b. */
  function Heads(L: set<Link>, a: int, src: string): set<End>
  {
    {End(a, 0)} + set x | x in L && x.to == a && x.source == src :: End(x.from, x.hops + 1)
  }

  /** b itself, and every end of a link out of b, one edge further from a. */
  function Tails(L: set<Link>, b: int, src: string): set<End>
  {
    {End(b, 0)} + set y | y in L && y.from == b && y.source == src :: End(y.to, y.hops + 1)
  }

  function Bridge(h: End, t: End, src: string): Link
  {
    Link(h.v, t.v, h.k + t.k, src)
  }

  /** One link from every head to every tail: the paths through a -> b. */
  function Bridges(L: set<Link>, a: int, b: int, src: string): set<Link>
  {
    set h, t | h in Heads(L, a, src) && t in Tails(L, b, src) :: Bridge(h, t, src)
  }

  /** The links after inserting the direct edge a -> b of source src. */
  function Grown(L: set<Link>, a: int, b: int, src: string): set<Link>
  {
    L + Bridges(L, a, b, src)
  }

  // ---------------------------------------------------------------------
  // Acyclicity
  // ---------------------------------------------------------------------

  /** Two links that meet compose. */
  lemma Compose(L: set<Link>, x: Link, y: Link)
    requires HopClosed(L) && x in L && y in L && x.source == y.source
    ensures x.to == y.from ==> Link(x.from, y.to, x.hops + y.hops + 1, x.source) in L
  {
    assert Meets(x, y) <==> x.to == y.from;
  }

  /** No two links run in opposite directions between the same vertices of one source. */
  lemma Acyclic(L: set<Link>, x: Link, y: Link)
    requires HopClosed(L) && NoSelfLoop(L)
    requires x in L && y in L && x.source == y.source
    ensures !(x.from == y.to && x.to == y.from)
  {
    Compose(L, x, y);
  }

  /** Any walk of direct links is matched by a link with one hop fewer than its edges. */
  lemma {:induction false} WalkHasLink(L: set<Link>, vs: seq<int>, src: string)
    requires HopClosed(L) && Chain(L, vs, src) && |vs| >= 2
    ensures Link(vs[0], vs[|vs| - 1], |vs| - 2, src) in L
    decreases |vs|
  {
    if |vs| > 2 {
      var rest := vs[1..];
      assert Chain(L, rest, src) by {
        forall i | 0 <= i < |rest| - 1 ensures Link(rest[i], rest[i + 1], 0, src) in L {
          assert rest[i] == vs[i + 1] && rest[i + 1] == vs[i + 2];
        }
      }
      WalkHasLink(L, rest, src);
      var first := Link(vs[0], vs[1], 0, src);
      var tail := Link(vs[1], vs[|vs| - 1], |vs| - 3, src);
      Compose(L, first, tail);
    }
  }

  // ---------------------------------------------------------------------
  // Grown keeps the invariant
  // ---------------------------------------------------------------------

  lemma HeadFrom(L: set<Link>, a: int, src: string, h: End) returns (x: Link)
    requires h in Heads(L, a, src) && h != End(a, 0)
    ensures x in L && x.to == a && x.source == src && h == End(x.from, x.hops + 1)
  {
    x :| x in L && x.to == a && x.source == src && h == End(x.from, x.hops + 1);
  }

  lemma TailFrom(L: set<Link>, b: int, src: string, t: End) returns (y: Link)
    requires t in Tails(L, b, src) && t != End(b, 0)
    ensures y in L && y.from == b && y.source == src && t == End(y.to, y.hops + 1)
  {
    y :| y in L && y.from == b && y.source == src && t == End(y.to, y.hops + 1);
  }

  /** Under the guard, no vertex is both a head and a tail. */
  lemma HeadsTailsDisjoint(L: set<Link>, a: int, b: int, src: string, h: End, t: End)
    requires HopClosed(L) && Admits(L, a, b, src)
    requires h in Heads(L, a, src) && t in Tails(L, b, src)
    ensures h.v != t.v
  {
    if h != End(a, 0) && t != End(b, 0) {
      var x := HeadFrom(L, a, src, h);
      var y := TailFrom(L, b, src, t);
      Compose(L, y, x);
    } else if h != End(a, 0) {
      var x := HeadFrom(L, a, src, h);
      assert x in L;
    } else if t != End(b, 0) {
      var y := TailFrom(L, b, src, t);
      assert y in L;
    }
  }

  /** A link into a head makes a head one link further out. */
  lemma ExtendHead(L: set<Link>, a: int, src: string, p: Link, h: End)
    requires HopClosed(L) && p in L && p.source == src && h in Heads(L, a, src) && p.to == h.v
    ensures End(p.from, p.hops + 1 + h.k) in Heads(L, a, src)
  {
    if h != End(a, 0) {
      var x := HeadFrom(L, a, src, h);
      var px := Link(p.from, a, p.hops + x.hops + 1, src);
      Compose(L, p, x);
      assert End(px.from, px.hops + 1) in Heads(L, a, src);
    } else {
      assert End(p.from, p.hops + 1) in Heads(L, a, src);
    }
  }

  /** A link out of a tail makes a tail one link further out. */
  lemma ExtendTail(L: set<Link>, b: int, src: string, t: End, q: Link)
    requires HopClosed(L) && q in L && q.source == src && t in Tails(L, b, src) && q.from == t.v
    ensures End(q.to, t.k + 1 + q.hops) in Tails(L, b, src)
  {
    if t != End(b, 0) {
      var y := TailFrom(L, b, src, t);
      var yq := Link(b, q.to, y.hops + q.hops + 1, src);
      Compose(L, y, q);
      assert End(yq.to, yq.hops + 1) in Tails(L, b, src);
    } else {
      assert End(q.to, q.hops + 1) in Tails(L, b, src);
    }
  }

  /** A link of Grown is an old link or a bridge. */
  lemma GrownFrom(L: set<Link>, a: int, b: int, src: string, l: Link) returns (h: End, t: End)
    requires l in Grown(L, a, b, src) && l !in L
    ensures h in Heads(L, a, src) && t in Tails(L, b, src) && l == Bridge(h, t, src)
  {
    h, t :| h in Heads(L, a, src) && t in Tails(L, b, src) && l == Bridge(h, t, src);
  }

  lemma BridgeInGrown(L: set<Link>, a: int, b: int, src: string, h: End, t: End)
    requires h in Heads(L, a, src) && t in Tails(L, b, src)
    ensures Bridge(h, t, src) in Bridges(L, a, b, src) && Bridge(h, t, src) in Grown(L, a, b, src)
  {
  }

  lemma GrownNoSelfLoop(L: set<Link>, a: int, b: int, src: string)
    requires HopClosed(L) && NoSelfLoop(L) && Admits(L, a, b, src)
    ensures NoSelfLoop(Grown(L, a, b, src))
  {
    forall l | l in Grown(L, a, b, src) ensures l.from != l.to {
      if l !in L {
        var h, t := GrownFrom(L, a, b, src, l);
        HeadsTailsDisjoint(L, a, b, src, h, t);
      }
    }
  }

  /** An old link followed by a bridge composes into a bridge. */
  lemma OldThenBridge(L: set<Link>, a: int, b: int, src: string, p: Link, q: Link)
    requires HopClosed(L) && p in L && q in Bridges(L, a, b, src) && p.to == q.from && p.source == q.source
    ensures Link(p.from, q.to, p.hops + q.hops + 1, p.source) in Bridges(L, a, b, src)
  {
    var h, t :| h in Heads(L, a, src) && t in Tails(L, b, src) && q == Bridge(h, t, src);
    ExtendHead(L, a, src, p, h);
    BridgeInGrown(L, a, b, src, End(p.from, p.hops + 1 + h.k), t);
  }

  /** A bridge followed by an old link composes into a bridge. */
  lemma BridgeThenOld(L: set<Link>, a: int, b: int, src: string, p: Link, q: Link)
    requires HopClosed(L) && p in Bridges(L, a, b, src) && q in L && p.to == q.from && p.source == q.source
    ensures Link(p.from, q.to, p.hops + q.hops + 1, p.source) in Bridges(L, a, b, src)
  {
    var h, t :| h in Heads(L, a, src) && t in Tails(L, b, src) && p == Bridge(h, t, src);
    ExtendTail(L, b, src, t, q);
    BridgeInGrown(L, a, b, src, h, End(q.to, t.k + 1 + q.hops));
  }

  /** Under the guard two bridges never meet. */
  lemma BridgesDoNotMeet(L: set<Link>, a: int, b: int, src: string, p: Link, q: Link)
    requires HopClosed(L) && Admits(L, a, b, src) && p in Bridges(L, a, b, src) && q in Bridges(L, a, b, src)
    ensures p.to != q.from
  {
    var h1, t1 :| h1 in Heads(L, a, src) && t1 in Tails(L, b, src) && p == Bridge(h1, t1, src);
    var h2, t2 :| h2 in Heads(L, a, src) && t2 in Tails(L, b, src) && q == Bridge(h2, t2, src);
    HeadsTailsDisjoint(L, a, b, src, h2, t1);
  }

  lemma GrownHopClosed(L: set<Link>, a: int, b: int, src: string)
    requires HopClosed(L) && Admits(L, a, b, src)
    ensures HopClosed(Grown(L, a, b, src))
  {
    var B := Bridges(L, a, b, src);
    forall p, q | p in L + B && q in L + B && p.to == q.from && p.source == q.source
      ensures Link(p.from, q.to, p.hops + q.hops + 1, p.source) in L + B
    {
      if p in L && q in L {
        Compose(L, p, q);
      } else if p in L {
        OldThenBridge(L, a, b, src, p, q);
      } else if q in L {
        BridgeThenOld(L, a, b, src, p, q);
      } else {
        BridgesDoNotMeet(L, a, b, src, p, q);
      }
    }
  }

  lemma {:induction false} ChainMono(L: set<Link>, G: set<Link>, vs: seq<int>, src: string)
    requires L <= G && Chain(L, vs, src)
    ensures Chain(G, vs, src)
  {
    forall i | 0 <= i < |vs| - 1 ensures Link(vs[i], vs[i + 1], 0, src) in G {
      assert Link(vs[i], vs[i + 1], 0, src) in L;
    }
  }

  lemma ChainJoin(L: set<Link>, v1: seq<int>, v2: seq<int>, src: string)
    requires Chain(L, v1, src) && Chain(L, v2, src) && Link(v1[|v1| - 1], v2[0], 0, src) in L
    ensures Chain(L, v1 + v2, src)
  {
    var vs := v1 + v2;
    forall i | 0 <= i < |vs| - 1 ensures Link(vs[i], vs[i + 1], 0, src) in L {
      if i < |v1| - 1 {
        assert vs[i] == v1[i] && vs[i + 1] == v1[i + 1];
      } else if i >= |v1| {
        assert vs[i] == v2[i - |v1|] && vs[i + 1] == v2[i - |v1| + 1];
      }
    }
  }

  /** A head is joined to a by a chain of h.k direct links, now in G. */
  lemma HeadChain(L: set<Link>, G: set<Link>, a: int, src: string, h: End) returns (vs: seq<int>)
    requires Sound(L) && L <= G && h in Heads(L, a, src)
    ensures Chain(G, vs, src) && |vs| == h.k + 1 && vs[0] == h.v && vs[|vs| - 1] == a
  {
    if h == End(a, 0) {
      vs := [a];
    } else {
      var x := HeadFrom(L, a, src, h);
      assert HasWalk(L, x);
      vs :| Chain(L, vs, x.source) && |vs| == x.hops + 2 && vs[0] == x.from && vs[|vs| - 1] == x.to;
      ChainMono(L, G, vs, src);
    }
  }

  /** b is joined to a tail by a chain of t.k direct links, now in G. */
  lemma TailChain(L: set<Link>, G: set<Link>, b: int, src: string, t: End) returns (vs: seq<int>)
    requires Sound(L) && L <= G && t in Tails(L, b, src)
    ensures Chain(G, vs, src) && |vs| == t.k + 1 && vs[0] == b && vs[|vs| - 1] == t.v
  {
    if t == End(b, 0) {
      vs := [b];
    } else {
      var y := TailFrom(L, b, src, t);
      assert HasWalk(L, y);
      vs :| Chain(L, vs, y.source) && |vs| == y.hops + 2 && vs[0] == y.from && vs[|vs| - 1] == y.to;
      ChainMono(L, G, vs, src);
    }
  }

  lemma GrownSound(L: set<Link>, a: int, b: int, src: string)
    requires Sound(L)
    ensures Sound(Grown(L, a, b, src))
  {
    var G := Grown(L, a, b, src);
    forall l | l in G ensures HasWalk(G, l) {
      if l in L {
        assert HasWalk(L, l);
        var vs :| Chain(L, vs, l.source) && |vs| == l.hops + 2 && vs[0] == l.from && vs[|vs| - 1] == l.to;
        ChainMono(L, G, vs, l.source);
      } else {
        var h, t := GrownFrom(L, a, b, src, l);
        var v1 := HeadChain(L, G, a, src, h);
        var v2 := TailChain(L, G, b, src, t);
        BridgeInGrown(L, a, b, src, End(a, 0), End(b, 0));
        ChainJoin(G, v1, v2, src);
        var vs := v1 + v2;
        assert Chain(G, vs, l.source) && |vs| == l.hops + 2 && vs[0] == l.from && vs[|vs| - 1] == l.to;
      }
    }
  }

  /** Inserting an admitted edge keeps the table the closure of an acyclic graph. */
  lemma GrownInvariant(L: set<Link>, a: int, b: int, src: string)
    requires ClosureInvariant(L) && Admits(L, a, b, src)
    ensures ClosureInvariant(Grown(L, a, b, src))
    ensures L <= Grown(L, a, b, src) && Link(a, b, 0, src) in Grown(L, a, b, src)
  {
    GrownNoSelfLoop(L, a, b, src);
    GrownHopClosed(L, a, b, src);
    GrownSound(L, a, b, src);
    BridgeInGrown(L, a, b, src, End(a, 0), End(b, 0));
  }

  // ---------------------------------------------------------------------
  // The table's links after an insertion
  // ---------------------------------------------------------------------

  lemma LinksConcat(a: seq<Row>, b: seq<Row>)
    ensures LinksOf(a + b) == LinksOf(a) + LinksOf(b)
  {
    forall l | l in LinksOf(a + b) ensures l in LinksOf(a) + LinksOf(b) {
      var r :| r in a + b && LinkOf(r) == l;
    }
  }

  /** Links ignore ids, so renumbering keeps them. */
  lemma LinksRenumber(drafts: seq<Row>, k: nat)
    ensures LinksOf(Renumber(drafts, k)) == LinksOf(drafts)
  {
    var rs := Renumber(drafts, k);
    forall l | l in LinksOf(drafts) ensures l in LinksOf(rs) {
      var r :| r in drafts && LinkOf(r) == l;
      var i :| 0 <= i < |drafts| && drafts[i] == r;
      assert LinkOf(rs[i]) == l;
    }
    forall l | l in LinksOf(rs) ensures l in LinksOf(drafts) {
      var r :| r in rs && LinkOf(r) == l;
      var i :| 0 <= i < |rs| && rs[i] == r;
      assert drafts[i] in drafts && LinkOf(drafts[i]) == l;
    }
  }

  /** A head other than a comes from a stored row ending at a. */
  lemma RowOfHead(t: seq<Row>, d: EdgeData, h: End) returns (x: Row)
    requires h in Heads(LinksOf(t), d.startVertex, d.source) && h != End(d.startVertex, 0)
    ensures x in EndingAtStart(t, d) && h == End(x.startVertex, x.hops + 1)
  {
    var xl := HeadFrom(LinksOf(t), d.startVertex, d.source, h);
    x :| x in t && LinkOf(x) == xl;
  }

  /** A tail other than b comes from a stored row starting at b. */
  lemma RowOfTail(t: seq<Row>, d: EdgeData, tl: End) returns (y: Row)
    requires tl in Tails(LinksOf(t), d.endVertex, d.source) && tl != End(d.endVertex, 0)
    ensures y in StartingAtEnd(t, d) && tl == End(y.endVertex, y.hops + 1)
  {
    var yl := TailFrom(LinksOf(t), d.endVertex, d.source, tl);
    y :| y in t && LinkOf(y) == yl;
  }

  lemma HeadOfRow(t: seq<Row>, d: EdgeData, x: Row)
    requires x in EndingAtStart(t, d)
    ensures End(x.startVertex, x.hops + 1) in Heads(LinksOf(t), d.startVertex, d.source)
  {
    assert LinkOf(x) in LinksOf(t);
  }

  lemma TailOfRow(t: seq<Row>, d: EdgeData, y: Row)
    requires y in StartingAtEnd(t, d)
    ensures End(y.endVertex, y.hops + 1) in Tails(LinksOf(t), d.endVertex, d.source)
  {
    assert LinkOf(y) in LinksOf(t);
  }

  lemma IncomingAreBridges(t: seq<Row>, e: Row, d: EdgeData, r: Row)
    requires r in AsIncomingEdgesToB(t, e, d)
    ensures LinkOf(r) in Bridges(LinksOf(t), d.startVertex, d.endVertex, d.source)
  {
    var xs := EndingAtStart(t, d);
    var i :| 0 <= i < |xs| && AsIncomingEdgesToB(t, e, d)[i] == r;
    HeadOfRow(t, d, xs[i]);
    BridgeInGrown(LinksOf(t), d.startVertex, d.endVertex, d.source, End(xs[i].startVertex, xs[i].hops + 1), End(d.endVertex, 0));
  }

  lemma OutgoingAreBridges(t: seq<Row>, e: Row, d: EdgeData, r: Row)
    requires r in AToBsOutgoingEdges(t, e, d)
    ensures LinkOf(r) in Bridges(LinksOf(t), d.startVertex, d.endVertex, d.source)
  {
    var ys := StartingAtEnd(t, d);
    var j :| 0 <= j < |ys| && AToBsOutgoingEdges(t, e, d)[j] == r;
    TailOfRow(t, d, ys[j]);
    BridgeInGrown(LinksOf(t), d.startVertex, d.endVertex, d.source, End(d.startVertex, 0), End(ys[j].endVertex, ys[j].hops + 1));
  }

  lemma BridgedAreBridges(t: seq<Row>, e: Row, d: EdgeData, r: Row)
    requires r in AsIncomingEdgesToEndVertexOfBsOutgoingEdges(t, e, d)
    ensures LinkOf(r) in Bridges(LinksOf(t), d.startVertex, d.endVertex, d.source)
  {
    var xs, ys := EndingAtStart(t, d), StartingAtEnd(t, d);
    BridgedRowsMember(xs, ys, e, d, r);
    var i, j :| 0 <= i < |xs| && 0 <= j < |ys| && r == BridgedRow(xs[i], ys[j], e, d);
    var x, y := xs[i], ys[j];
    HeadOfRow(t, d, x);
    TailOfRow(t, d, y);
    var h, tl := End(x.startVertex, x.hops + 1), End(y.endVertex, y.hops + 1);
    BridgeInGrown(LinksOf(t), d.startVertex, d.endVertex, d.source, h, tl);
    assert LinkOf(r) == Bridge(h, tl, d.source);
  }

  /** Every implied row is a path through the new edge. */
  lemma DraftsAreBridges(t: seq<Row>, e: Row, d: EdgeData)
    ensures LinksOf(ImpliedDrafts(t, e, d)) <= Bridges(LinksOf(t), d.startVertex, d.endVertex, d.source)
  {
    forall l | l in LinksOf(ImpliedDrafts(t, e, d)) ensures l in Bridges(LinksOf(t), d.startVertex, d.endVertex, d.source) {
      var r :| r in ImpliedDrafts(t, e, d) && LinkOf(r) == l;
      if r in AsIncomingEdgesToB(t, e, d) {
        IncomingAreBridges(t, e, d, r);
      } else if r in AToBsOutgoingEdges(t, e, d) {
        OutgoingAreBridges(t, e, d, r);
      } else {
        BridgedAreBridges(t, e, d, r);
      }
    }
  }

  /** Every path through the new edge other than the edge itself is an implied row. */
  lemma BridgesAreDrafts(t: seq<Row>, e: Row, d: EdgeData, h: End, tl: End)
    requires h in Heads(LinksOf(t), d.startVertex, d.source) && tl in Tails(LinksOf(t), d.endVertex, d.source)
    requires h != End(d.startVertex, 0) || tl != End(d.endVertex, 0)
    ensures Bridge(h, tl, d.source) in LinksOf(ImpliedDrafts(t, e, d))
  {
    var xs, ys := EndingAtStart(t, d), StartingAtEnd(t, d);
    var drafts := ImpliedDrafts(t, e, d);
    var r: Row;
    if tl == End(d.endVertex, 0) {
      var x := RowOfHead(t, d, h);
      var i :| 0 <= i < |xs| && xs[i] == x;
      r := AsIncomingEdgesToB(t, e, d)[i];
    } else if h == End(d.startVertex, 0) {
      var y := RowOfTail(t, d, tl);
      var j :| 0 <= j < |ys| && ys[j] == y;
      r := AToBsOutgoingEdges(t, e, d)[j];
    } else {
      var x := RowOfHead(t, d, h);
      var y := RowOfTail(t, d, tl);
      var i :| 0 <= i < |xs| && xs[i] == x;
      var j :| 0 <= j < |ys| && ys[j] == y;
      BridgedRowsHas(xs, ys, e, d, i, j);
      r := BridgedRow(x, y, e, d);
    }
    assert r in drafts && LinkOf(r) == Bridge(h, tl, d.source);
  }

  /** The links of the appended rows: the new edge and those of the implied drafts. */
  lemma AddedLinks(db: Db, d: EdgeData)
    ensures LinksOf(AddedRows(db, d)) ==
      {Link(d.startVertex, d.endVertex, 0, d.source)} + LinksOf(ImpliedDrafts(db.rows, DirectRow(db.nextId, d), d))
  {
    var e := DirectRow(db.nextId, d);
    var drafts := ImpliedDrafts(db.rows, e, d);
    LinksConcat([e], Renumber(drafts, db.nextId + 1));
    LinksRenumber(drafts, db.nextId + 1);
    assert e in [e];
    forall l | l in LinksOf([e]) ensures l == LinkOf(e) {
      var r :| r in [e] && LinkOf(r) == l;
    }
  }

  /** The paths through the new edge: the edge itself and the implied drafts. */
  lemma BridgesSplit(t: seq<Row>, e: Row, d: EdgeData)
    ensures Bridges(LinksOf(t), d.startVertex, d.endVertex, d.source) ==
      {Link(d.startVertex, d.endVertex, 0, d.source)} + LinksOf(ImpliedDrafts(t, e, d))
  {
    var L, a, b, src := LinksOf(t), d.startVertex, d.endVertex, d.source;
    BridgeInGrown(L, a, b, src, End(a, 0), End(b, 0));
    DraftsAreBridges(t, e, d);
    forall l | l in Bridges(L, a, b, src) ensures l in {Link(a, b, 0, src)} + LinksOf(ImpliedDrafts(t, e, d)) {
      var h, tl :| h in Heads(L, a, src) && tl in Tails(L, b, src) && l == Bridge(h, tl, src);
      if h != End(a, 0) || tl != End(b, 0) {
        BridgesAreDrafts(t, e, d, h, tl);
      }
    }
  }

  /**
   * After a successful insertion the table's links are exactly Grown: the old
   * links plus one link per path through the new edge.
   */
  lemma LinksGrown(db: Db, d: EdgeData)
    ensures LinksOf(db.rows + AddedRows(db, d)) == Grown(LinksOf(db.rows), d.startVertex, d.endVertex, d.source)
  {
    LinksConcat(db.rows, AddedRows(db, d));
    AddedLinks(db, d);
    BridgesSplit(db.rows, DirectRow(db.nextId, d), d);
  }

  /** The cycle guard in link terms. */
  lemma AdmitsIff(t: seq<Row>, d: EdgeData)
    ensures !IsCircular(t, d) <==> Admits(LinksOf(t), d.startVertex, d.endVertex, d.source)
  {
    IsCircularIff(t, d);
    if !Admits(LinksOf(t), d.startVertex, d.endVertex, d.source) && d.startVertex != d.endVertex {
      var l :| l in LinksOf(t) && l.from == d.endVertex && l.to == d.startVertex && l.source == d.source;
      var r :| r in t && LinkOf(r) == l;
      assert r.startVertex == d.endVertex && r.endVertex == d.startVertex && r.source == d.source;
    }
    if IsCircular(t, d) && d.startVertex != d.endVertex {
      var r :| r in t && r.startVertex == d.endVertex && r.endVertex == d.startVertex && r.source == d.source;
      assert LinkOf(r) in LinksOf(t);
    }
  }

  /**
   * execute keeps the table the closure of an acyclic graph, whatever its
   * outcome: a duplicate or a cycle writes nothing, and a successful write
   * (even one the hop guard then reports) grows the links admitted by the guard.
   */
  lemma AddEdgeKeepsClosure(db: Db, d: EdgeData, maxHops: int)
    requires StoreValid(db) && ClosureInvariant(LinksOf(db.rows))
    ensures ClosureInvariant(LinksOf(AddEdge(db, d, maxHops).db.rows))
  {
    if !EdgeExists(db.rows, d) && !IsCircular(db.rows, d) {
      InsertionResult(db, d, maxHops);
      LinksGrown(db, d);
      AdmitsIff(db.rows, d);
      GrownInvariant(LinksOf(db.rows), d.startVertex, d.endVertex, d.source);
    }
  }
}
