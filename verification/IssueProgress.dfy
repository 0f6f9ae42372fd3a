/** Whether every issue can still be closed: the blocker check of `transition`
    deadlocks exactly when unfinished issues block each other in a cycle. */
module IssueProgress {
  import opened IssueGraph
  import opened IssueStore

  /** One `transition` call; its reason does not matter here. */
  type Call = (Id, State)

  function Play(s: Store, calls: seq<Call>): Store {
    if calls == [] then s
    else Play(Move(s, calls[0].0, Known(calls[0].1), ""), calls[1..])
  }

  predicate AllClosed(s: Store) {
    forall id :: id in s ==> s[id].state == Closed
  }

  /** What each unfinished issue waits for. */
  function WaitGraph(s: Store): Graph {
    map id | id in s && !Done(s[id].state) :: s[id].blockedBy
  }

  lemma {:induction false} PlayAppend(s: Store, x: seq<Call>, y: seq<Call>)
    ensures Play(s, x + y) == Play(Play(s, x), y)
  {
    if x == [] {
      assert x + y == y;
    } else {
      assert (x + y)[1..] == x[1..] + y;
      PlayAppend(Move(s, x[0].0, Known(x[0].1), ""), x[1..], y);
    }
  }

  // --------------------------------------------------------------- deadlock

  lemma CycleNodesWait(s: Store, c: seq<Id>, i: nat)
    requires Cycle(WaitGraph(s), c) && i < |c| - 1
    ensures Unfinished(s, c[i]) && c[i + 1] in s[c[i]].blockedBy && Unfinished(s, c[i + 1])
  {
    assert c[i + 1] in Succ(WaitGraph(s), c[i]);
    if i + 1 < |c| - 1 {
      assert c[(i + 1) + 1] in Succ(WaitGraph(s), c[i + 1]);
    } else {
      assert c[0 + 1] in Succ(WaitGraph(s), c[0]);
    }
  }

  /** No call moves an issue on a waiting cycle out of it. */
  lemma MoveKeepsCycle(s: Store, c: seq<Id>, id: Id, target: StateName, reason: string)
    requires Cycle(WaitGraph(s), c)
    ensures Cycle(WaitGraph(Move(s, id, target, reason)), c)
  {
    var t := Move(s, id, target, reason);
    forall i | 0 <= i < |c| - 1
      ensures c[i + 1] in Succ(WaitGraph(t), c[i])
    {
      CycleNodesWait(s, c, i);
    }
  }

  lemma {:induction false} CycleIsForever(s: Store, c: seq<Id>, calls: seq<Call>)
    requires Cycle(WaitGraph(s), c)
    ensures Cycle(WaitGraph(Play(s, calls)), c) && !AllClosed(Play(s, calls))
  {
    if calls == [] {
      CycleNodesWait(s, c, 0);
    } else {
      MoveKeepsCycle(s, c, calls[0].0, Known(calls[0].1), "");
      CycleIsForever(Move(s, calls[0].0, Known(calls[0].1), ""), c, calls[1..]);
    }
  }

  // --------------------------------------------------------------- schedule

  /** `t` has the issues and dependencies of `s`; only states and histories moved,
      and nothing that was done is undone. */
  ghost predicate Advanced(s: Store, t: Store) {
    && t.Keys == s.Keys
    && (forall id :: id in s ==> t[id].blockedBy == s[id].blockedBy)
    && (forall id :: id in s && Done(s[id].state) ==> Done(t[id].state))
  }

  /** An unfinished issue without unfinished blockers is resolved by at most two calls. */
  lemma ResolveOne(s: Store, id: Id) returns (calls: seq<Call>)
    requires Unfinished(s, id) && forall b :: b in s[id].blockedBy ==> !Unfinished(s, b)
    ensures |calls| <= 2 && Advanced(s, Play(s, calls)) && Done(Play(s, calls)[id].state)
  {
    if s[id].state == Open {
      calls := [(id, InProgress), (id, Resolved)];
      var t := Move(s, id, Known(InProgress), "");
      assert forall b :: b in t[id].blockedBy && b != id ==> !Unfinished(t, b);
      assert id !in s[id].blockedBy;
      assert calls[1..] == [(id, Resolved)] && calls[1..][1..] == [];
      assert Play(s, calls) == Play(t, calls[1..]);
      assert Play(t, calls[1..]) == Play(Move(t, id, Known(Resolved), ""), calls[1..][1..]);
    } else {
      calls := [(id, Resolved)];
      assert calls[1..] == [];
      assert Play(s, calls) == Move(s, id, Known(Resolved), "");
    }
  }

  /** `order` lists every unfinished issue once, after the unfinished issues it waits for. */
  ghost predicate WaitOrder(s: Store, order: seq<Id>) {
    && Elems(order) == WaitGraph(s).Keys
    && SuccessorsFirst(WaitGraph(s), order)
  }

  ghost predicate ResolvedUpTo(s: Store, t: Store, order: seq<Id>, k: nat)
    requires k <= |order|
  {
    && Advanced(s, t)
    && forall i :: 0 <= i < k ==> !Unfinished(t, order[i])
  }

  lemma NextIsUnblocked(s: Store, t: Store, order: seq<Id>, k: nat)
    requires WaitOrder(s, order) && k < |order| && ResolvedUpTo(s, t, order, k)
    ensures order[k] in t && forall b :: b in t[order[k]].blockedBy ==> !Unfinished(t, b)
  {
    var id := order[k];
    assert id in Elems(order);
    forall b | b in t[id].blockedBy
      ensures !Unfinished(t, b)
    {
      if Unfinished(s, b) {
        assert b in Succ(WaitGraph(s), id) && b in WaitGraph(s);
        var i :| 0 <= i < k && order[..k][i] == b;
        assert order[i] == b;
      }
    }
  }

  /** Going through a waiting order resolves every entry. */
  lemma {:induction false} ResolveAll(s: Store, order: seq<Id>, k: nat) returns (calls: seq<Call>)
    requires WaitOrder(s, order) && k <= |order|
    ensures |calls| <= 2 * k && ResolvedUpTo(s, Play(s, calls), order, k)
  {
    hide Move;
    if k == 0 {
      calls := [];
    } else {
      calls := ResolveAll(s, order, k - 1);
      var t, id := Play(s, calls), order[k - 1];
      NextIsUnblocked(s, t, order, k - 1);
      if !Done(t[id].state) {
        var more := ResolveOne(t, id);
        PlayAppend(s, calls, more);
        calls := calls + more;
      }
    }
  }

  /** When everything is resolved or closed, one call per resolved issue closes it. */
  lemma {:induction false} CloseAll(s: Store, ids: set<Id>) returns (calls: seq<Call>)
    requires forall id :: id in s ==> Done(s[id].state)
    requires ids <= s.Keys && forall id :: id in s && id !in ids ==> s[id].state == Closed
    ensures |calls| <= |ids| && AllClosed(Play(s, calls)) && Play(s, calls).Keys == s.Keys
    decreases |ids|
  {
    if ids == {} {
      calls := [];
    } else {
      var id :| id in ids;
      if s[id].state == Closed {
        calls := CloseAll(s, ids - {id});
      } else {
        var t := Move(s, id, Known(Closed), "");
        assert t[id].state == Closed;
        var rest := CloseAll(t, ids - {id});
        calls := [(id, Closed)] + rest;
        assert calls[1..] == rest;
      }
    }
  }

  ghost predicate Closable(s: Store) {
    exists calls: seq<Call> :: AllClosed(Play(s, calls))
  }

  ghost predicate ClosableWithin(s: Store, bound: nat) {
    exists calls: seq<Call> :: |calls| <= bound && AllClosed(Play(s, calls))
  }

  /** Without a waiting cycle, at most three calls per issue close everything. */
  lemma ClosingSchedule(s: Store) returns (calls: seq<Call>)
    requires Acyclic(WaitGraph(s))
    ensures |calls| <= 3 * |s| && AllClosed(Play(s, calls))
  {
    var order := TopologicalOrder(WaitGraph(s));
    DistinctFits(order, s.Keys);
    var first := ResolveAll(s, order, |order|);
    var t := Play(s, first);
    forall id | id in t
      ensures Done(t[id].state)
    {
      if !Done(s[id].state) {
        assert id in Elems(order);
      }
    }
    var second := CloseAll(t, t.Keys);
    PlayAppend(s, first, second);
    calls := first + second;
  }

  /** For every store whatsoever: all issues can be closed if and only if no
      unfinished issues block each other in a cycle. */
  lemma ClosableIffNoWaitingCycle(s: Store)
    ensures Closable(s) <==> Acyclic(WaitGraph(s))
    ensures Closable(s) <==> ClosableWithin(s, 3 * |s|)
  {
    if Acyclic(WaitGraph(s)) {
      var calls := ClosingSchedule(s);
    } else {
      var c :| Cycle(WaitGraph(s), c);
      forall calls: seq<Call>
        ensures !AllClosed(Play(s, calls))
      {
        CycleIsForever(s, c, calls);
      }
    }
  }

  function Reversed(p: seq<Id>): (r: seq<Id>)
    ensures |r| == |p| && forall i :: 0 <= i < |p| ==> r[i] == p[|p| - 1 - i]
  {
    seq(|p|, i requires 0 <= i < |p| => p[|p| - 1 - i])
  }

  lemma WaitingCycleMirrors(s: Store, c: seq<Id>)
    requires Mirrored(s) && Cycle(WaitGraph(s), c)
    ensures Cycle(BlocksGraph(s), Reversed(c))
  {
    var r := Reversed(c);
    forall i | 0 <= i < |r| - 1
      ensures r[i + 1] in Succ(BlocksGraph(s), r[i])
    {
      CycleNodesWait(s, c, |c| - 2 - i);
    }
  }

  /** The blocker check never deadlocks when dependencies come from `add_block`:
      after any run, at most three calls per issue close every issue. */
  lemma RunCanAlwaysBeClosed(ops: seq<Op>)
    requires LinksOnlyByAddBlock(ops)
    ensures ClosableWithin(Run(ops), 3 * |Run(ops)|)
  {
    var s := Run(ops);
    RunIsAcyclic(ops);
    RunIsMirrored(ops);
    forall c
      ensures !Cycle(WaitGraph(s), c)
    {
      if Cycle(WaitGraph(s), c) {
        WaitingCycleMirrors(s, c);
      }
    }
    ClosableIffNoWaitingCycle(s);
  }

  /** "b" waits for "a" through `create`, and blocks it through `add_block`. */
  lemma LoopThroughCreate(s: Store)
    requires s == map["a" := New([], []), "b" := New([], ["a"])]
    ensures LinkAnswer(s, "b", "a") == NowBlocks && !Closable(Link(s, "b", "a"))
  {
    var t := Linked(s, "b", "a");
    var order := ["a", "b"];
    assert order[..1] == ["a"];
    assert Succ(BlocksGraph(t), order[0]) == [] && Succ(BlocksGraph(t), order[1]) == ["a"];
    OrderedHasNoCycle(BlocksGraph(t), order, "b");
    assert t["a"].blockedBy == ["b"] && t["b"].blockedBy == ["a"];
    assert Cycle(WaitGraph(t), ["a", "b", "a"]);
    ClosableIffNoWaitingCycle(t);
  }

  /** Blockers given to `create` are outside the cycle check: `add_block` accepts
      the edge that closes the loop, and neither issue can ever be resolved. */
  lemma CreateCanDeadlock(ops: seq<Op>)
    requires ops == [Create("a", [], []), Create("b", [], ["a"]), AddBlock("b", "a")]
    ensures FreshRun(ops) && LinkAnswer(Run(ops[..2]), "b", "a") == NowBlocks
    ensures !Closable(Run(ops))
  {
    assert ops[..1] == [Create("a", [], [])];
    assert ops[..1][..0] == [] && ops[..0] == [];
    assert ops[..2][..1] == ops[..1] && ops[..3] == ops;
    assert Run(ops[..1]) == map["a" := New([], [])];
    LoopThroughCreate(Run(ops[..2]));
  }
}
