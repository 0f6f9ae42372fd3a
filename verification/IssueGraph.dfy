/** Directed graphs of issue identifiers: walks, cycles and topological orders.

    An identifier without an entry in the graph has no successors, as in
    `self._issues.get(node, {}).get("blocks", [])`; successor lists may repeat
    entries, name the node itself, or name identifiers that do not exist. */
module IssueGraph {

  type Id = string
  type Graph = map<Id, seq<Id>>

  function Succ(g: Graph, n: Id): seq<Id> {
    if n in g then g[n] else []
  }

  ghost predicate Walk(g: Graph, p: seq<Id>) {
    && |p| >= 1
    && forall i :: 0 <= i < |p| - 1 ==> p[i + 1] in Succ(g, p[i])
  }

  ghost predicate Cycle(g: Graph, c: seq<Id>) {
    && Walk(g, c)
    && |c| >= 2
    && c[0] == c[|c| - 1]
  }

  ghost predicate LeadsTo(g: Graph, p: seq<Id>, c: seq<Id>) {
    && Walk(g, p)
    && Cycle(g, c)
    && p[|p| - 1] == c[0]
  }

  /** Some directed cycle can be reached from `start`. */
  ghost predicate CycleReachable(g: Graph, start: Id) {
    exists p, c :: LeadsTo(g, p, c) && p[0] == start
  }

  ghost predicate Acyclic(g: Graph) {
    forall c :: !Cycle(g, c)
  }

  /** Every successor of an entry is listed before that entry. */
  ghost predicate Ordered(g: Graph, order: seq<Id>) {
    forall i, d :: 0 <= i < |order| && d in Succ(g, order[i]) ==> d in order[..i]
  }

  /** A walk that starts in an ordered list moves strictly towards its front. */
  lemma {:induction false} WalkDescends(g: Graph, order: seq<Id>, p: seq<Id>, k: nat)
    requires Ordered(g, order) && Walk(g, p) && k <= |order| && p[0] in order[..k]
    ensures |p| <= k && p[|p| - 1] in order[..k - (|p| - 1)]
    decreases |p|
  {
    if |p| > 1 {
      var i :| 0 <= i < k && order[i] == p[0];
      assert p[1] in order[..i];
      WalkDescends(g, order, p[1..], i);
      assert order[..i - (|p| - 2)] <= order[..k - (|p| - 1)];
    }
  }

  /** No cycle is reachable from an entry of an ordered list. */
  lemma OrderedHasNoCycle(g: Graph, order: seq<Id>, start: Id)
    requires Ordered(g, order) && start in order
    ensures !CycleReachable(g, start)
  {
    forall p, c | LeadsTo(g, p, c) && p[0] == start
      ensures false
    {
      assert order[..|order|] == order;
      WalkDescends(g, order, p, |order|);
      var k := FirstIndex(order, c[0]);
      assert c[0] in order[..k + 1] by { assert order[..k + 1][k] == c[0]; }
      WalkDescends(g, order, c, k + 1);
    }
  }

  function FirstIndex(s: seq<Id>, x: Id): (i: nat)
    requires x in s
    ensures i < |s| && s[i] == x && x !in s[..i]
  {
    if s[0] == x then 0
    else
      var i := 1 + FirstIndex(s[1..], x);
      assert s[..i] == [s[0]] + s[1..][..i - 1];
      i
  }

  /** A cycle through `n` is reachable from `n`. */
  lemma CycleThrough(g: Graph, c: seq<Id>, n: Id)
    requires Cycle(g, c) && n in c
    ensures CycleReachable(g, n)
  {
    var i :| 0 <= i < |c| && c[i] == n;
    assert LeadsTo(g, c[i..], c);
  }

  /** Two graphs that differ only at `n`: a cycle of the second that avoids `n`
      is a cycle of the first. */
  lemma CycleAvoiding(g: Graph, g': Graph, c: seq<Id>, n: Id)
    requires forall x :: x != n ==> Succ(g, x) == Succ(g', x)
    requires Cycle(g', c) && n !in c
    ensures Cycle(g, c)
  {
  }

  /** When an acyclic graph changes only at `n`, the search from `n` alone decides
      whether the whole new graph is acyclic. */
  lemma SearchFromChangedNodeSuffices(g: Graph, g': Graph, n: Id)
    requires Acyclic(g)
    requires forall x :: x != n ==> Succ(g, x) == Succ(g', x)
    ensures CycleReachable(g', n) <==> !Acyclic(g')
  {
    if !Acyclic(g') {
      var c :| Cycle(g', c);
      if n in c {
        CycleThrough(g', c, n);
      } else {
        CycleAvoiding(g, g', c, n);
      }
    }
  }

  lemma Predecessor(g: Graph, c: seq<Id>, n: Id) returns (x: Id)
    requires Cycle(g, c) && n in c
    ensures n in Succ(g, x)
  {
    var i :| 0 <= i < |c| && c[i] == n;
    var before := if i == 0 then |c| - 2 else i - 1;
    x := c[before];
    assert c[before + 1] == n;
  }

  lemma EmptyIsAcyclic()
    ensures Acyclic(map[])
  {
    forall c
      ensures !Cycle(map[], c)
    {
      assert |c| >= 2 ==> c[0 + 1] !in Succ(map[], c[0]);
    }
  }

  /** Giving successors to a node that nothing points to creates no cycle. */
  lemma SourceKeepsAcyclic(g: Graph, g': Graph, n: Id)
    requires Acyclic(g)
    requires forall x :: x != n ==> Succ(g, x) == Succ(g', x)
    requires forall x :: n !in Succ(g', x)
    ensures Acyclic(g')
  {
    forall c | Cycle(g', c)
      ensures false
    {
      if n in c {
        var x := Predecessor(g', c, n);
      } else {
        CycleAvoiding(g, g', c, n);
      }
    }
  }

  // ---------------------------------------------------------------- sorting

  ghost predicate Distinct(s: seq<Id>) {
    forall i, j :: 0 <= i < j < |s| ==> s[i] != s[j]
  }

  function Elems(s: seq<Id>): set<Id> {
    set x | x in s
  }

  lemma {:induction false} DistinctFits(s: seq<Id>, bound: set<Id>)
    requires Distinct(s) && Elems(s) <= bound
    ensures |s| <= |bound|
  {
    if s != [] {
      var last := s[|s| - 1];
      var rest := s[..|s| - 1];
      assert last in Elems(s);
      assert Elems(rest) <= bound - {last};
      DistinctFits(rest, bound - {last});
    }
  }

  /** Following successors inside an acyclic graph ends at a node without any. */
  lemma {:induction false} FindSink(g: Graph, p: seq<Id>) returns (n: Id)
    requires Acyclic(g) && Walk(g, p) && Distinct(p) && Elems(p) <= g.Keys
    ensures n in g && forall d :: d in Succ(g, n) ==> d !in g
    decreases |g.Keys| + 1 - |p|
  {
    DistinctFits(p, g.Keys);
    n := p[|p| - 1];
    assert n in Elems(p);
    if d :| d in Succ(g, n) && d in g {
      if d in p {
        var i :| 0 <= i < |p| && p[i] == d;
        assert Cycle(g, p[i..] + [d]);
        assert false;
      }
      DistinctFits(p + [d], g.Keys);
      n := FindSink(g, p + [d]);
    }
  }

  /** Successors that are keys of the graph come first in `order`. */
  ghost predicate SuccessorsFirst(g: Graph, order: seq<Id>) {
    forall i, d :: 0 <= i < |order| && d in Succ(g, order[i]) && d in g ==> d in order[..i]
  }

  lemma PrependSink(g: Graph, n: Id, rest: seq<Id>)
    requires n in g && forall d :: d in Succ(g, n) ==> d !in g
    requires SuccessorsFirst(g - {n}, rest) && forall x :: x in rest ==> x in g && x != n
    ensures SuccessorsFirst(g, [n] + rest)
  {
    var order := [n] + rest;
    forall i, d | 0 <= i < |order| && d in Succ(g, order[i]) && d in g
      ensures d in order[..i]
    {
      assert i > 0 && order[i] == rest[i - 1];
      assert order[..i] == [n] + rest[..i - 1];
      if d != n {
        assert rest[i - 1] in g - {n} && d in g - {n};
        assert d in Succ(g - {n}, rest[i - 1]);
        assert d in rest[..i - 1];
      }
    }
  }

  lemma RemovalKeepsAcyclic(g: Graph, n: Id)
    requires Acyclic(g)
    ensures Acyclic(g - {n})
  {
    forall c
      ensures !Cycle(g - {n}, c)
    {
      assert Cycle(g - {n}, c) ==> Cycle(g, c);
    }
  }

  lemma PrependFresh(n: Id, rest: seq<Id>, others: set<Id>)
    requires Distinct(rest) && Elems(rest) == others && n !in others
    ensures Distinct([n] + rest) && Elems([n] + rest) == {n} + others
    ensures forall x :: x in rest ==> x in others && x != n
  {
    assert forall x :: x in rest <==> x in others;
    assert forall x :: x in [n] + rest <==> x == n || x in rest;
  }

  /** The keys of an acyclic graph in an order that lists successors first. */
  lemma {:induction false} TopologicalOrder(g: Graph) returns (order: seq<Id>)
    requires Acyclic(g)
    ensures Distinct(order) && Elems(order) == g.Keys
    ensures SuccessorsFirst(g, order)
    decreases |g.Keys|
  {
    hide Acyclic;
    if g.Keys == {} {
      order := [];
    } else {
      hide SuccessorsFirst, Elems, Distinct;
      var n := SomeSink(g);
      var h := g - {n};
      assert h.Keys == g.Keys - {n};
      RemovalKeepsAcyclic(g, n);
      var rest := TopologicalOrder(h);
      PrependFresh(n, rest, h.Keys);
      PrependSink(g, n, rest);
      order := [n] + rest;
      assert {n} + h.Keys == g.Keys;
    }
  }

  lemma SomeSink(g: Graph) returns (n: Id)
    requires Acyclic(g) && g.Keys != {}
    ensures n in g && forall d :: d in Succ(g, n) ==> d !in g
  {
    var start :| start in g;
    n := FindSink(g, [start]);
  }
}
