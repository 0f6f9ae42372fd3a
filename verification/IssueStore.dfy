/** The issue store as a value: what each operation of the issue manager does to
    it, and what holds of every store that a run of operations can produce. */
module IssueStore {
  import opened IssueGraph

  datatype State = Open | InProgress | Review | Resolved | Closed

  /** A state name as callers pass it: one of the five, or any other text. */
  datatype StateName = Known(state: State) | Unknown(text: string)

  datatype Entry = Entry(state: State, reason: string)

  datatype Issue = Issue(state: State, blocks: seq<Id>, blockedBy: seq<Id>, history: seq<Entry>)

  type Store = map<Id, Issue>

  function Next(s: State): set<State> {
    match s
    case Open => {InProgress}
    case InProgress => {Review, Resolved, Open}
    case Review => {Resolved, InProgress}
    case Resolved => {Closed, InProgress}
    case Closed => {}
  }

  predicate Done(s: State) {
    s == Resolved || s == Closed
  }

  /** Place in the order open, in progress, review, resolved, closed. */
  function Rank(s: State): nat {
    match s
    case Open => 0
    case InProgress => 1
    case Review => 2
    case Resolved => 3
    case Closed => 4
  }

  /** One step forward, or over the review; back from review or resolution to work, and
      from work to open. Nothing leaves `Closed`. */
  ghost predicate Allowed(s: State, t: State) {
    || Rank(t) == Rank(s) + 1
    || (s == InProgress && t == Resolved)
    || (s in {Review, Resolved} && t == InProgress)
    || (s == InProgress && t == Open)
  }

  lemma NextIsAllowed(s: State, t: State)
    ensures t in Next(s) <==> Allowed(s, t)
  {
  }

  // ------------------------------------------------------------- operations

  function New(blocks: seq<Id>, blockedBy: seq<Id>): Issue {
    Issue(Open, blocks, blockedBy, [Entry(Open, "created")])
  }

  datatype MoveReply = NoSuchIssue | NoSuchState | NotAllowed | Blocked(blocker: Id) | Moved

  /** An existing blocker that is neither resolved nor closed. */
  predicate Unfinished(s: Store, id: Id) {
    id in s && !Done(s[id].state)
  }

  function FirstUnfinished(s: Store, ids: seq<Id>): (r: seq<Id>)
    ensures r == [] <==> forall b :: b in ids ==> !Unfinished(s, b)
    ensures r != [] ==> |r| == 1 && r[0] in ids && Unfinished(s, r[0])
  {
    if ids == [] then []
    else if Unfinished(s, ids[0]) then [ids[0]]
    else FirstUnfinished(s, ids[1..])
  }

  function MoveAnswer(s: Store, id: Id, target: StateName): MoveReply {
    if id !in s then NoSuchIssue
    else if target.Unknown? then NoSuchState
    else if target.state !in Next(s[id].state) then NotAllowed
    else if !Done(target.state) then Moved
    else
      var blocker := FirstUnfinished(s, s[id].blockedBy);
      if blocker == [] then Moved else Blocked(blocker[0])
  }

  /** The reply to each request: a move is made if and only if the issue exists, the
      move is allowed, and, for a resolution or closure, every blocker that exists is
      resolved or closed; otherwise the first blocker that is not is named. */
  lemma MoveAnswerMeans(s: Store, id: Id, target: StateName)
    ensures MoveAnswer(s, id, target) == NoSuchIssue <==> id !in s
    ensures MoveAnswer(s, id, target) == NoSuchState <==> id in s && target.Unknown?
    ensures MoveAnswer(s, id, target) == NotAllowed <==> id in s && target.Known? && !Allowed(s[id].state, target.state)
    ensures MoveAnswer(s, id, target) == Moved <==>
              && id in s && target.Known? && Allowed(s[id].state, target.state)
              && (target.state in {Resolved, Closed} ==>
                    forall b :: b in s[id].blockedBy && b in s ==> s[b].state in {Resolved, Closed})
    ensures forall b :: MoveAnswer(s, id, target) == Blocked(b) <==>
              && id in s && target.Known? && Allowed(s[id].state, target.state) && target.state in {Resolved, Closed}
              && exists k :: 0 <= k < |s[id].blockedBy| && s[id].blockedBy[k] == b && FirstWaiting(s, s[id].blockedBy, k)
  {
    if id in s && target.Known? {
      NextIsAllowed(s[id].state, target.state);
      var r := FirstUnfinished(s, s[id].blockedBy);
      assert r == [] || r == [r[0]];
      forall b
        ensures FirstUnfinished(s, s[id].blockedBy) == [b] <==>
                exists k :: 0 <= k < |s[id].blockedBy| && s[id].blockedBy[k] == b && FirstWaiting(s, s[id].blockedBy, k)
      {
        FirstUnfinishedIsFirst(s, s[id].blockedBy, b);
      }
    }
  }

  lemma {:induction false} FirstUnfinishedIsFirst(s: Store, ids: seq<Id>, b: Id)
    ensures FirstUnfinished(s, ids) == [b] <==> exists k :: 0 <= k < |ids| && ids[k] == b && FirstWaiting(s, ids, k)
  {
    if ids != [] {
      FirstUnfinishedIsFirst(s, ids[1..], b);
      if Unfinished(s, ids[0]) {
        assert FirstWaiting(s, ids, 0);
      } else {
        forall k: nat | k < |ids| - 1
          ensures FirstWaiting(s, ids[1..], k) <==> FirstWaiting(s, ids, k + 1)
        {
        }
        if k :| 0 <= k < |ids| && ids[k] == b && FirstWaiting(s, ids, k) {
          assert k > 0 && ids[1..][k - 1] == b && FirstWaiting(s, ids[1..], k - 1);
        }
        if k :| 0 <= k < |ids[1..]| && ids[1..][k] == b && FirstWaiting(s, ids[1..], k) {
          assert ids[k + 1] == b && FirstWaiting(s, ids, k + 1);
        }
      }
    }
  }

  /** Entry `k` exists and is neither resolved nor closed; those before it are, or do
      not exist. */
  ghost predicate FirstWaiting(s: Store, ids: seq<Id>, k: nat) {
    && k < |ids| && ids[k] in s && s[ids[k]].state !in {Resolved, Closed}
    && forall j :: 0 <= j < k && ids[j] in s ==> s[ids[j]].state in {Resolved, Closed}
  }

  function Move(s: Store, id: Id, target: StateName, reason: string): Store {
    if MoveAnswer(s, id, target) != Moved then s
    else
      s[id := s[id].(state := target.state, history := s[id].history + [Entry(target.state, reason)])]
  }

  function BlocksGraph(s: Store): Graph {
    map id | id in s :: s[id].blocks
  }

  function Appended(ids: seq<Id>, id: Id): seq<Id> {
    if id in ids then ids else ids + [id]
  }

  function RemoveFirst(ids: seq<Id>, id: Id): seq<Id> {
    if ids == [] then []
    else if ids[0] == id then ids[1..]
    else [ids[0]] + RemoveFirst(ids[1..], id)
  }

  /** Both ends of the edge "a blocks b", each appended unless already listed. */
  function Linked(s: Store, a: Id, b: Id): Store
    requires a in s && b in s
  {
    var t := s[a := s[a].(blocks := Appended(s[a].blocks, b))];
    t[b := t[b].(blockedBy := Appended(t[b].blockedBy, a))]
  }

  function Unlinked(s: Store, a: Id, b: Id): Store
    requires a in s && b in s
  {
    var t := s[a := s[a].(blocks := RemoveFirst(s[a].blocks, b))];
    t[b := t[b].(blockedBy := RemoveFirst(t[b].blockedBy, a))]
  }

  datatype LinkReply = NoSuchBlocker | NoSuchBlocked | WouldCycle | NowBlocks

  ghost function LinkAnswer(s: Store, a: Id, b: Id): LinkReply {
    if a !in s then NoSuchBlocker
    else if b !in s then NoSuchBlocked
    else if CycleReachable(BlocksGraph(Linked(s, a, b)), a) then WouldCycle
    else NowBlocks
  }

  ghost function Link(s: Store, a: Id, b: Id): Store {
    match LinkAnswer(s, a, b)
    case NowBlocks => Linked(s, a, b)
    case WouldCycle => Unlinked(Linked(s, a, b), a, b)
    case _ => s
  }

  // ------------------------------------------------------------------- runs

  datatype Op =
    | Create(id: Id, blocks: seq<Id>, blockedBy: seq<Id>)
    | AddBlock(a: Id, b: Id)
    | Transition(id: Id, target: StateName, reason: string)

  ghost function Apply(s: Store, op: Op): Store {
    match op
    case Create(id, blocks, blockedBy) => s[id := New(blocks, blockedBy)]
    case AddBlock(a, b) => Link(s, a, b)
    case Transition(id, target, reason) => Move(s, id, target, reason)
  }

  ghost function Run(ops: seq<Op>): Store {
    if ops == [] then map[]
    else Apply(Run(ops[..|ops| - 1]), ops[|ops| - 1])
  }

  /** `id` does not exist and no issue blocks it yet. */
  ghost predicate Fresh(s: Store, id: Id) {
    && id !in s
    && forall x :: x in s ==> id !in s[x].blocks && id !in s[x].blockedBy
  }

  /** Identifiers are generated at random, so a created issue is not mentioned
      before: neither by the store nor by its own lists. */
  ghost predicate FreshRun(ops: seq<Op>) {
    forall k :: 0 <= k < |ops| && ops[k].Create? ==>
      Fresh(Run(ops[..k]), ops[k].id) && ops[k].id !in ops[k].blocks && ops[k].id !in ops[k].blockedBy
  }

  /** Dependencies come from `add_block` only. */
  ghost predicate LinksOnlyByAddBlock(ops: seq<Op>) {
    && FreshRun(ops)
    && forall k :: 0 <= k < |ops| && ops[k].Create? ==> ops[k].blocks == [] && ops[k].blockedBy == []
  }

  lemma RunPrefix(ops: seq<Op>)
    requires ops != []
    ensures FreshRun(ops) ==> FreshRun(ops[..|ops| - 1])
    ensures LinksOnlyByAddBlock(ops) ==> LinksOnlyByAddBlock(ops[..|ops| - 1])
  {
    var before := ops[..|ops| - 1];
    assert forall k :: 0 <= k < |before| ==> before[..k] == ops[..k];
  }

  // ------------------------------------------- adding an edge, or refusing to

  lemma RemoveAppended(ids: seq<Id>, id: Id)
    requires id !in ids
    ensures RemoveFirst(ids + [id], id) == ids
  {
    if ids == [] {
    } else {
      assert (ids + [id])[1..] == ids[1..] + [id];
      RemoveAppended(ids[1..], id);
    }
  }

  lemma RemoveShortens(ids: seq<Id>, id: Id)
    requires id in ids
    ensures |RemoveFirst(ids, id)| == |ids| - 1
  {
  }

  /** A refused edge leaves the store as it was if and only if neither end listed
      the other beforehand; an entry that was already there is lost. */
  lemma RefusalRestoresIff(s: Store, a: Id, b: Id)
    requires LinkAnswer(s, a, b) == WouldCycle
    ensures Link(s, a, b) == s <==> b !in s[a].blocks && a !in s[b].blockedBy
  {
    var u := Link(s, a, b);
    assert u.Keys == s.Keys;
    if b in s[a].blocks {
      RemoveShortens(s[a].blocks, b);
      assert u[a].blocks != s[a].blocks;
    } else {
      RemoveAppended(s[a].blocks, b);
    }
    if a in s[b].blockedBy {
      RemoveShortens(s[b].blockedBy, a);
      assert u[b].blockedBy != s[b].blockedBy;
    } else {
      RemoveAppended(s[b].blockedBy, a);
    }
  }

  lemma LinkedGraph(s: Store, a: Id, b: Id)
    requires a in s && b in s
    ensures forall x :: x != a ==> Succ(BlocksGraph(s), x) == Succ(BlocksGraph(Linked(s, a, b)), x)
    ensures b in s[a].blocks ==> BlocksGraph(Linked(s, a, b)) == BlocksGraph(s)
  {
  }

  /** On an acyclic store `add_block` accepts exactly the edges that keep it
      acyclic, the result is acyclic either way, and a refusal restores every
      `blocks` list. */
  lemma LinkKeepsAcyclic(s: Store, a: Id, b: Id)
    requires Acyclic(BlocksGraph(s)) && a in s && b in s
    ensures LinkAnswer(s, a, b) == NowBlocks <==> Acyclic(BlocksGraph(Linked(s, a, b)))
    ensures Acyclic(BlocksGraph(Link(s, a, b)))
    ensures LinkAnswer(s, a, b) == WouldCycle ==> BlocksGraph(Link(s, a, b)) == BlocksGraph(s)
  {
    LinkedGraph(s, a, b);
    SearchFromChangedNodeSuffices(BlocksGraph(s), BlocksGraph(Linked(s, a, b)), a);
    if LinkAnswer(s, a, b) == WouldCycle {
      RemoveAppended(s[a].blocks, b);
      assert BlocksGraph(Link(s, a, b)) == BlocksGraph(s);
    }
  }

  /** Every run over fresh identifiers keeps the `blocks` graph acyclic. */
  lemma {:induction false} RunIsAcyclic(ops: seq<Op>)
    requires FreshRun(ops)
    ensures Acyclic(BlocksGraph(Run(ops)))
  {
    if ops != [] {
      RunPrefix(ops);
      var before, op := ops[..|ops| - 1], ops[|ops| - 1];
      RunIsAcyclic(before);
      var s, t := Run(before), Run(ops);
      match op {
        case Create(id, blocks, blockedBy) =>
          SourceKeepsAcyclic(BlocksGraph(s), BlocksGraph(t), id);
        case AddBlock(a, b) =>
          if a in s && b in s {
            LinkKeepsAcyclic(s, a, b);
          }
        case Transition(id, target, reason) =>
          assert BlocksGraph(t) == BlocksGraph(s);
      }
    } else {
      EmptyIsAcyclic();
    }
  }

  /** `blocked_by` is the reverse of `blocks`, among existing issues. */
  ghost predicate Mirrored(s: Store) {
    && (forall x, y :: x in s && y in s[x].blocks ==> y in s && x in s[y].blockedBy)
    && (forall x, y :: y in s && x in s[y].blockedBy ==> x in s && y in s[x].blocks)
  }

  lemma LinkedEntries(s: Store, a: Id, b: Id)
    requires a in s && b in s
    ensures var t := Linked(s, a, b);
            && t.Keys == s.Keys
            && (forall x, y :: x in s ==> (y in t[x].blocks <==> y in s[x].blocks || (x == a && y == b)))
            && (forall x, y :: y in s ==> (x in t[y].blockedBy <==> x in s[y].blockedBy || (x == a && y == b)))
  {
  }

  lemma LinkedMirrors(s: Store, a: Id, b: Id)
    requires Mirrored(s) && a in s && b in s
    ensures Mirrored(Linked(s, a, b))
  {
    hide Linked;
    LinkedEntries(s, a, b);
  }

  lemma LinkKeepsMirror(s: Store, a: Id, b: Id)
    requires Mirrored(s) && Acyclic(BlocksGraph(s))
    ensures Mirrored(Link(s, a, b))
    ensures LinkAnswer(s, a, b) != NowBlocks ==> Link(s, a, b) == s
  {
    if a in s && b in s {
      LinkedMirrors(s, a, b);
      if LinkAnswer(s, a, b) == WouldCycle {
        LinkKeepsAcyclic(s, a, b);
        LinkedGraph(s, a, b);
        hide Linked, Unlinked;
        assert b !in s[a].blocks;
        RefusalRestoresIff(s, a, b);
      }
    }
  }

  lemma CreateKeepsMirror(s: Store, id: Id)
    requires Mirrored(s) && Fresh(s, id)
    ensures Mirrored(s[id := New([], [])])
  {
  }

  lemma MoveKeepsMirror(s: Store, id: Id, target: StateName, reason: string)
    requires Mirrored(s)
    ensures Mirrored(Move(s, id, target, reason))
  {
  }

  /** When dependencies come from `add_block` only, every run keeps the mirror. */
  lemma {:induction false} RunIsMirrored(ops: seq<Op>)
    requires LinksOnlyByAddBlock(ops)
    ensures Mirrored(Run(ops))
  {
    hide Mirrored, Link, Move, Fresh, Acyclic;
    if ops == [] {
      EmptyIsMirrored();
    } else {
      RunPrefix(ops);
      var before, op := ops[..|ops| - 1], ops[|ops| - 1];
      RunIsMirrored(before);
      match op {
        case Create(id, blocks, blockedBy) =>
          CreateKeepsMirror(Run(before), id);
        case AddBlock(a, b) =>
          RunIsAcyclic(before);
          LinkKeepsMirror(Run(before), a, b);
        case Transition(id, target, reason) =>
          MoveKeepsMirror(Run(before), id, target, reason);
      }
    }
  }

  lemma EmptyIsMirrored()
    ensures Mirrored(map[])
  {
  }

  /** In such a run a call that is refused changes nothing at all: every `blocks`
      and every `blocked_by` list is as before. */
  lemma RefusalChangesNothing(ops: seq<Op>, a: Id, b: Id)
    requires LinksOnlyByAddBlock(ops) && LinkAnswer(Run(ops), a, b) != NowBlocks
    ensures Link(Run(ops), a, b) == Run(ops)
  {
    RunIsAcyclic(ops);
    RunIsMirrored(ops);
    LinkKeepsMirror(Run(ops), a, b);
  }

  /** A blocker given to `create` is lost when the matching edge is refused. */
  lemma RefusalCanForgetABlocker() returns (ops: seq<Op>, a: Id, b: Id)
    ensures FreshRun(ops)
    ensures LinkAnswer(Run(ops), a, b) == WouldCycle
    ensures b in Run(ops) && a in Run(ops)[b].blockedBy && a !in Link(Run(ops), a, b)[b].blockedBy
  {
    a, b := "a", "b";
    // "b" is created with `blocks=["a"]` and `blocked_by=["a"]`.
    ops := [Create(a, [], []), Create(b, [a], [a])];
    assert ops[..1] == [Create(a, [], [])] && ops[..1][..0] == [] && ops[..0] == [];
    assert Run(ops[..0]) == map[];
    assert Run(ops[..1]) == map[a := New([], [])];
    var s := Run(ops);
    assert s == map[a := New([], []), b := New([a], [a])];
    var t := Linked(s, a, b);
    assert t[a].blocks == [b] && t[b].blocks == [a];
    assert Cycle(BlocksGraph(t), [a, b, a]);
    CycleThrough(BlocksGraph(t), [a, b, a], a);
    RemoveAppended([], a);
  }

  // ---------------------------------------------------------------- history

  /** A path of allowed moves from `Open` to the current state. */
  ghost predicate HistoryFits(i: Issue) {
    && |i.history| >= 1
    && i.history[0].state == Open
    && i.history[|i.history| - 1].state == i.state
    && forall h :: 0 <= h < |i.history| - 1 ==> Allowed(i.history[h].state, i.history[h + 1].state)
  }

  /** One operation creates an issue, leaves its state and history alone, or moves
      it along one allowed edge and writes one entry; an entry that says the issue
      is done is written only while nothing unfinished blocks it. */
  ghost predicate HistoryStep(s: Store, i: Issue, j: Issue) {
    || (j.state == i.state && j.history == i.history)
    || (&& Allowed(i.state, j.state)
        && |j.history| == |i.history| + 1 && j.history[..|i.history|] == i.history
        && j.history[|i.history|].state == j.state
        && (j.state in {Resolved, Closed} ==>
              forall b :: b in i.blockedBy && b in s ==> s[b].state in {Resolved, Closed}))
  }

  lemma OperationHistory(s: Store, op: Op, id: Id)
    requires id in Apply(s, op)
    ensures op.Create? && op.id == id ==> Apply(s, op)[id] == New(op.blocks, op.blockedBy)
    ensures !(op.Create? && op.id == id) ==> id in s && HistoryStep(s, s[id], Apply(s, op)[id])
  {
  }

  /** Every issue's history is a path of allowed moves to its current state, and
      `Closed` can only be its last entry. */
  lemma {:induction false} RunHistory(ops: seq<Op>, id: Id)
    requires id in Run(ops)
    ensures HistoryFits(Run(ops)[id])
    ensures forall h :: 0 <= h < |Run(ops)[id].history| - 1 ==> Run(ops)[id].history[h].state != Closed
  {
    hide Apply, HistoryStep;
    var before, op := ops[..|ops| - 1], ops[|ops| - 1];
    OperationHistory(Run(before), op, id);
    if !(op.Create? && op.id == id) {
      RunHistory(before, id);
      StepKeepsFit(Run(before), Run(before)[id], Run(ops)[id]);
    }
    FitClosesLast(Run(ops)[id]);
  }

  lemma StepKeepsFit(s: Store, i: Issue, j: Issue)
    requires HistoryFits(i) && HistoryStep(s, i, j)
    ensures HistoryFits(j)
  {
    assert forall h :: 0 <= h < |i.history| ==> j.history[h] == i.history[h] by {
      if j.history != i.history {
        assert forall h :: 0 <= h < |i.history| ==> j.history[..|i.history|][h] == i.history[h];
      }
    }
  }

  lemma FitClosesLast(i: Issue)
    requires HistoryFits(i)
    ensures forall h :: 0 <= h < |i.history| - 1 ==> i.history[h].state != Closed
  {
    forall h | 0 <= h < |i.history| - 1
      ensures i.history[h].state != Closed
    {
      assert Allowed(i.history[h].state, i.history[h + 1].state);
    }
  }

  /** Step `k` of the run wrote entry `h` of `id`, at a time when every existing
      blocker of `id` was itself resolved or closed. */
  ghost predicate WrittenUnblocked(ops: seq<Op>, k: nat, id: Id, h: nat) {
    && k < |ops|
    && id in Run(ops[..k]) && id in Run(ops[..k + 1])
    && |Run(ops[..k])[id].history| == h
    && |Run(ops[..k + 1])[id].history| == h + 1
    && var s := Run(ops[..k]);
       forall b :: b in s[id].blockedBy && b in s ==> s[b].state in {Resolved, Closed}
  }

  /** Each `Resolved` or `Closed` entry was written when nothing unfinished
      blocked the issue. */
  lemma {:induction false} DoneEntriesWereUnblocked(ops: seq<Op>, id: Id, h: nat)
    requires id in Run(ops) && h < |Run(ops)[id].history| && Run(ops)[id].history[h].state in {Resolved, Closed}
    ensures exists k: nat :: WrittenUnblocked(ops, k, id, h)
    decreases |ops|
  {
    hide Apply, Unfinished;
    var before, op := ops[..|ops| - 1], ops[|ops| - 1];
    var s := Run(before);
    OperationHistory(s, op, id);
    assert ops[..|ops|] == ops && ops[..|ops| - 1] == before;
    if h < |s[id].history| {
      assert Run(ops)[id].history[..|s[id].history|][h] == Run(ops)[id].history[h];
      DoneEntriesWereUnblocked(before, id, h);
      var k: nat :| WrittenUnblocked(before, k, id, h);
      assert before[..k] == ops[..k] && before[..k + 1] == ops[..k + 1];
      assert WrittenUnblocked(ops, k, id, h);
    } else {
      assert WrittenUnblocked(ops, |ops| - 1, id, h);
    }
  }
}
