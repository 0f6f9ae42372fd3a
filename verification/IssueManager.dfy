/** The issue manager itself: a dictionary of issues changed in place, and the
    depth-first search that guards it against dependency cycles. */
module IssueManagement {
  import opened IssueGraph
  import opened IssueStore

  /** The two sets that `_has_cycle` shares between its recursive calls. */
  class CycleSearch {
    const g: Graph
    ghost const nodes: set<Id>  // every identifier the search can meet
    var visited: set<Id>
    var path: set<Id>
    ghost var finished: seq<Id>  // nodes whose search found nothing, in that order

    ghost predicate Valid()
      reads this
    {
      && (forall n, d :: n in nodes && d in Succ(g, n) ==> d in nodes)
      && visited == path + Elems(finished)
      && path !! Elems(finished)
      && visited <= nodes
      && Ordered(g, finished)
    }

    constructor (g: Graph, start: Id)
      ensures Valid() && this.g == g && start in nodes
      ensures visited == {} && path == {} && finished == []
    {
      this.g := g;
      nodes := {start} + g.Keys + set n, d | n in g && d in g[n] :: d;
      visited, path, finished := {}, {}, [];
    }

    /** `stack` lists the nodes of `path`, from the start of the search to the
        caller of this call. */
    method Dfs(node: Id, ghost stack: seq<Id>) returns (found: bool)
      requires Valid() && node in nodes && node !in visited
      requires Walk(g, stack + [node]) && Elems(stack) == path
      modifies this
      ensures found ==> CycleReachable(g, (stack + [node])[0])
      ensures !found ==> Valid() && path == old(path) && old(visited) <= visited
      ensures !found ==> old(finished) <= finished && node in finished
      decreases nodes - visited
    {
      visited := visited + {node};
      path := path + {node};
      ghost var here := stack + [node];
      var deps := Succ(g, node);
      for k := 0 to |deps|
        invariant Valid() && path == old(path) + {node} && old(visited) + {node} <= visited
        invariant old(finished) <= finished
        invariant forall i :: 0 <= i < k ==> deps[i] in finished
      {
        var dep := deps[k];
        assert Walk(g, here + [dep]);
        if dep !in visited {
          var r := Dfs(dep, here);
          if r {
            return true;
          }
        } else if dep in path {
          BackEdge(here, dep);
          return true;
        }
      }
      path := path - {node};
      Finish(node);
      return false;
    }

    lemma BackEdge(here: seq<Id>, dep: Id)
      requires |here| >= 1 && Walk(g, here + [dep]) && dep in here
      ensures CycleReachable(g, here[0])
    {
      var i :| 0 <= i < |here| && here[i] == dep;
      var p := here + [dep];
      assert LeadsTo(g, p[..i + 1], p[i..]);
    }

    ghost method Finish(node: Id)
      requires node in nodes && node in visited && node !in path
      requires visited == path + {node} + Elems(finished) && path !! Elems(finished)
      requires forall n, d :: n in nodes && d in Succ(g, n) ==> d in nodes
      requires visited <= nodes && Ordered(g, finished)
      requires forall d :: d in Succ(g, node) ==> d in finished
      modifies this`finished
      ensures Valid() && finished == old(finished) + [node]
    {
      finished := finished + [node];
      forall i, d | 0 <= i < |finished| && d in Succ(g, finished[i])
        ensures d in finished[..i]
      {
        if i < |old(finished)| {
          assert finished[..i] == old(finished)[..i];
        } else {
          assert finished[..i] == old(finished);
        }
      }
    }
  }

  /** `_has_cycle`: always terminates, and answers whether some directed cycle can
      be reached from `start`. */
  method HasCycle(g: Graph, start: Id) returns (found: bool)
    ensures found <==> CycleReachable(g, start)
  {
    var search := new CycleSearch(g, start);
    assert [] + [start] == [start];
    found := search.Dfs(start, []);
    if !found {
      OrderedHasNoCycle(g, search.finished, start);
    }
  }

  class IssueManager {
    var issues: Store

    constructor ()
      ensures issues == Run([])
    {
      issues := map[];
    }

    method Create(id: Id, blocks: seq<Id>, blockedBy: seq<Id>) returns (r: Id)
      modifies this
      ensures r == id && issues == Apply(old(issues), Op.Create(id, blocks, blockedBy))
    {
      issues := issues[id := Issue(Open, blocks, blockedBy, [Entry(Open, "created")])];
      r := id;
    }

    method Transition(id: Id, target: StateName, reason: string) returns (reply: MoveReply)
      modifies this
      ensures reply == MoveAnswer(old(issues), id, target)
      ensures issues == Apply(old(issues), Op.Transition(id, target, reason))
    {
      if id !in issues {
        return NoSuchIssue;
      }
      var issue := issues[id];
      if target.Unknown? {
        return NoSuchState;
      }
      if target.state !in Next(issue.state) {
        return NotAllowed;
      }
      if Done(target.state) {
        for k := 0 to |issue.blockedBy|
          invariant issues == old(issues)
          invariant FirstUnfinished(issues, issue.blockedBy) == FirstUnfinished(issues, issue.blockedBy[k..])
        {
          var blocker := issue.blockedBy[k];
          if blocker in issues && !Done(issues[blocker].state) {
            return Blocked(blocker);
          }
          assert issue.blockedBy[k..][1..] == issue.blockedBy[k + 1..];
        }
      }
      issue := issue.(state := target.state);
      issue := issue.(history := issue.history + [Entry(target.state, reason)]);
      issues := issues[id := issue];
      return Moved;
    }

    method AddBlock(a: Id, b: Id) returns (reply: LinkReply)
      modifies this
      ensures reply == LinkAnswer(old(issues), a, b)
      ensures issues == Apply(old(issues), Op.AddBlock(a, b))
    {
      if a !in issues {
        return NoSuchBlocker;
      }
      if b !in issues {
        return NoSuchBlocked;
      }
      if b !in issues[a].blocks {
        issues := issues[a := issues[a].(blocks := issues[a].blocks + [b])];
      }
      if a !in issues[b].blockedBy {
        issues := issues[b := issues[b].(blockedBy := issues[b].blockedBy + [a])];
      }
      assert issues == Linked(old(issues), a, b);
      var cyclic := HasCycle(BlocksGraph(issues), a);
      if cyclic {
        issues := issues[a := issues[a].(blocks := RemoveFirst(issues[a].blocks, b))];
        issues := issues[b := issues[b].(blockedBy := RemoveFirst(issues[b].blockedBy, a))];
        return WouldCycle;
      }
      return NowBlocks;
    }
  }
}
