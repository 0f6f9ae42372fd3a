/** Removing exact duplicates of stored memories: several scanners forget all but
    the best row of a group, optimistically, while anything else may write. */
module DuplicateClusters {
  import TextOrder

  type Id = string

  datatype Worth = Worth(success: real, failure: real, accesses: nat, createdAt: string)

  /** A memory row. `policy` stands for its tags and metadata, which decide its
      availability; `rest` for the other fields of its snapshot. */
  datatype Row = Row(project: string, content: string, ordinary: bool, policy: string, worth: Worth, rest: string)

  type Db = map<Id, Row>

  /** The content hash, the availability gate over tags and metadata, the tags and
      metadata that mark a row forgotten, and the eligibility guard of the query. */
  datatype Rules = Rules(
    hash: string -> string, healthy: string -> bool, forgotten: string -> string, eligible: Row -> bool)

  /** What the coordinator promises of a forgotten row: it is unavailable. */
  ghost predicate Sound(g: Rules) {
    forall p :: !g.healthy(g.forgotten(p))
  }

  predicate Available(g: Rules, r: Row) {
    r.ordinary && g.healthy(r.policy)
  }

  /** What a scanner remembers of a row: everything but the content itself. */
  datatype Snapshot = Snapshot(project: string, contentHash: string, policy: string, worth: Worth, rest: string)

  function Observed(g: Rules, r: Row): Snapshot {
    Snapshot(r.project, g.hash(r.content), r.policy, r.worth, r.rest)
  }

  // ------------------------------------------------------------ coordinator

  predicate Matches(g: Rules, db: Db, id: Id, s: Snapshot) {
    id in db && Observed(g, db[id]) == s && Available(g, db[id])
  }

  predicate Permitted(g: Rules, db: Db, source: Id, expected: Snapshot, peer: Id, survivor: Snapshot) {
    && source != peer && expected.project == survivor.project
    && Matches(g, db, source, expected) && Matches(g, db, peer, survivor)
  }

  function Forgotten(g: Rules, r: Row): Row {
    r.(policy := g.forgotten(r.policy))
  }

  /** One `mutate_ordinary_source(operation="forgotten")`: it compares the source
      and its peer with their snapshots and availability, and writes, atomically. */
  function Mutate(g: Rules, db: Db, source: Id, expected: Snapshot, peer: Id, survivor: Snapshot): Db {
    if Permitted(g, db, source, expected, peer, survivor) then db[source := Forgotten(g, db[source])] else db
  }

  /** A call that changes anything forgets its source, of which it saw the current
      state, next to another available row of the same project that it saw too. */
  lemma MutateMeans(g: Rules, db: Db, source: Id, expected: Snapshot, peer: Id, survivor: Snapshot)
    requires Mutate(g, db, source, expected, peer, survivor) != db
    ensures source != peer && source in db && peer in db && db[source].project == db[peer].project
    ensures var r := db[source]; expected == Snapshot(r.project, g.hash(r.content), r.policy, r.worth, r.rest)
    ensures var r := db[peer]; survivor == Snapshot(r.project, g.hash(r.content), r.policy, r.worth, r.rest)
    ensures db[source].ordinary && g.healthy(db[source].policy) && db[peer].ordinary && g.healthy(db[peer].policy)
    ensures Mutate(g, db, source, expected, peer, survivor) == db[source := db[source].(policy := g.forgotten(db[source].policy))]
  {
  }

  // ----------------------------------------------------------------- groups

  datatype Group = Group(project: string, content: string)

  function GroupOf(r: Row): Group {
    Group(r.project, r.content)
  }

  /** The eligible, available rows of a group. */
  function Members(g: Rules, db: Db, group: Group): set<Id> {
    set id | id in db && GroupOf(db[id]) == group && g.eligible(db[id]) && Available(g, db[id])
  }

  ghost predicate HasAvailable(g: Rules, db: Db, group: Group) {
    exists id :: id in db && GroupOf(db[id]) == group && Available(g, db[id])
  }

  function Ratio(w: Worth): real {
    var total := w.success + w.failure;
    if total > 0.0 then w.success / total else 0.5
  }

  /** The ranking of `max(rows, key=ranking_key)`: worth, then accesses, then
      creation time, then identifier. */
  predicate Below(a: Worth, x: Id, b: Worth, y: Id) {
    if Ratio(a) != Ratio(b) then Ratio(a) < Ratio(b)
    else if a.accesses != b.accesses then a.accesses < b.accesses
    else if a.createdAt != b.createdAt then TextOrder.Before(a.createdAt, b.createdAt)
    else TextOrder.Before(x, y)
  }

  predicate IsTop(db: Db, ids: set<Id>, top: Id)
    requires ids <= db.Keys
  {
    top in ids && forall id :: id in ids && id != top ==> Below(db[id].worth, id, db[top].worth, top)
  }

  lemma {:induction false} TopExists(db: Db, ids: set<Id>)
    requires ids <= db.Keys && ids != {}
    ensures exists top :: IsTop(db, ids, top)
    decreases |ids|
  {
    hide TextOrder.Before, Ratio;
    TextOrder.Order();
    var x :| x in ids;
    var rest := ids - {x};
    if rest == {} {
      assert forall id :: id in ids && id != x ==> id in rest;
      assert IsTop(db, ids, x);
    } else {
      TopExists(db, rest);
      var top :| IsTop(db, rest, top);
      assert IsTop(db, ids, if Below(db[top].worth, top, db[x].worth, x) then x else top);
    }
  }

  lemma TopIsUnique(db: Db, ids: set<Id>, a: Id, b: Id)
    requires ids <= db.Keys && IsTop(db, ids, a) && IsTop(db, ids, b)
    ensures a == b
  {
    hide TextOrder.Before, Ratio;
    TextOrder.Order();
  }

  function Top(db: Db, ids: set<Id>): (top: Id)
    requires ids <= db.Keys && ids != {}
    ensures IsTop(db, ids, top)
  {
    TopExists(db, ids);
    assert forall a, b :: IsTop(db, ids, a) && IsTop(db, ids, b) ==> a == b by {
      forall a, b | IsTop(db, ids, a) && IsTop(db, ids, b)
        ensures a == b
      {
        TopIsUnique(db, ids, a, b);
      }
    }
    var top :| IsTop(db, ids, top);
    top
  }

  // ------------------------------------------------- which row should survive

  /** Successes and trials of a row; without trials, one success in two. */
  function Hits(w: Worth): real {
    if w.success + w.failure > 0.0 then w.success else 1.0
  }

  function Trials(w: Worth): real {
    if w.success + w.failure > 0.0 then w.success + w.failure else 2.0
  }

  /** `top` has the greatest share of successes among `ids`; among equal shares the
      most accesses, then the latest creation time, then the last identifier. */
  ghost predicate Best(db: Db, ids: set<Id>, top: Id)
    requires ids <= db.Keys
  {
    && top in ids
    && forall id :: id in ids ==>
         var w, t := db[id].worth, db[top].worth;
         && Hits(w) * Trials(t) <= Hits(t) * Trials(w)
         && (Hits(w) * Trials(t) == Hits(t) * Trials(w) ==>
               && w.accesses <= t.accesses
               && (w.accesses == t.accesses ==>
                     && !TextOrder.Lexicographic(t.createdAt, w.createdAt)
                     && (w.createdAt == t.createdAt ==> !TextOrder.Lexicographic(top, id))))
  }

  lemma Scale(r: real, s: real, k: real)
    requires k > 0.0
    ensures r < s <==> r * k < s * k
  {
  }

  lemma CrossMultiply(x: real, p: real, y: real, q: real)
    requires p > 0.0 && q > 0.0
    ensures x / p < y / q <==> x * q < y * p
    ensures x / p == y / q <==> x * q == y * p
  {
    var r, s := x / p, y / q;
    assert r * p == x && s * q == y;
    Scale(r, s, p * q);
    Scale(s, r, p * q);
    assert r * (p * q) == (r * p) * q && s * (p * q) == (s * q) * p;
  }

  lemma RatioMeans(a: Worth, b: Worth)
    ensures Ratio(a) < Ratio(b) <==> Hits(a) * Trials(b) < Hits(b) * Trials(a)
    ensures Ratio(a) == Ratio(b) <==> Hits(a) * Trials(b) == Hits(b) * Trials(a)
  {
    RatioIs(a);
    RatioIs(b);
    hide Ratio, Hits, Trials;
    CrossMultiply(Hits(a), Trials(a), Hits(b), Trials(b));
  }

  lemma RatioIs(w: Worth)
    ensures Trials(w) > 0.0 && Ratio(w) == Hits(w) / Trials(w)
  {
  }

  /** The ranking of the source picks that row. */
  lemma TopIsBest(db: Db, ids: set<Id>, top: Id)
    requires ids <= db.Keys
    ensures IsTop(db, ids, top) <==> Best(db, ids, top)
  {
    hide TextOrder.Before, TextOrder.Lexicographic, Ratio, Hits, Trials;
    TextOrder.Order();
    forall a, b
      ensures Ratio(a) < Ratio(b) <==> Hits(a) * Trials(b) < Hits(b) * Trials(a)
      ensures Ratio(a) == Ratio(b) <==> Hits(a) * Trials(b) == Hits(b) * Trials(a)
    {
      RatioMeans(a, b);
    }
    forall x, y
      ensures TextOrder.Before(x, y) <==> TextOrder.Lexicographic(x, y)
    {
      TextOrder.BeforeIsLexicographic(x, y);
    }
  }

  /** The rows that the queries select: of this project and content, eligible, and
      ordinary and healthy. */
  lemma MembersMean(g: Rules, db: Db, project: string, content: string, id: Id)
    ensures id in Members(g, db, Group(project, content)) <==>
              && id in db && db[id].project == project && db[id].content == content
              && g.eligible(db[id]) && db[id].ordinary && g.healthy(db[id].policy)
  {
  }

  // ---------------------------------------------- any number of scanners

  /** A scanner between its query and its last write. */
  datatype Scanner =
    | Idle
    | Cleaning(best: Id, survivor: Snapshot, todo: seq<(Id, Snapshot)>)

  datatype World = World(db: Db, scanners: map<nat, Scanner>)

  datatype Step =
    | Observe(who: nat, group: Group, order: seq<Id>)  // the query and the ranking
    | Forget(who: nat)                                 // one coordinator call
    | Fail(who: nat)                                   // a call that fails for any other reason
    | Stop(who: nat)                                   // the scanner ends or crashes
    | Write(db: Db)                                    // any other writer

  /** Everything the scanner plans to forget belongs to the survivor's group. */
  ghost predicate Coherent(s: Scanner) {
    s.Cleaning? ==>
      forall i :: 0 <= i < |s.todo| ==>
        && s.todo[i].0 != s.best
        && s.todo[i].1.project == s.survivor.project
        && s.todo[i].1.contentHash == s.survivor.contentHash
  }

  ghost predicate AllCoherent(w: World) {
    forall who :: who in w.scanners ==> Coherent(w.scanners[who])
  }

  /** `order` lists the rows to forget in the order the query returned them. */
  ghost function Plan(g: Rules, db: Db, group: Group, order: seq<Id>): Scanner {
    var ids := Members(g, db, group);
    if |ids| < 2 || !(forall i :: 0 <= i < |order| ==> order[i] in ids && order[i] != Top(db, ids)) then Idle
    else
      Cleaning(Top(db, ids), Observed(g, db[Top(db, ids)]),
               seq(|order|, i requires 0 <= i < |order| => (order[i], Observed(g, db[order[i]]))))
  }

  ghost function Do(g: Rules, w: World, step: Step): World {
    match step
    case Observe(who, group, order) => w.(scanners := w.scanners[who := Plan(g, w.db, group, order)])
    case Forget(who) =>
      if who !in w.scanners || w.scanners[who].Idle? || w.scanners[who].todo == [] then w
      else
        var s := w.scanners[who];
        World(Mutate(g, w.db, s.todo[0].0, s.todo[0].1, s.best, s.survivor),
              w.scanners[who := s.(todo := s.todo[1..])])
    case Fail(who) =>
      if who !in w.scanners || w.scanners[who].Idle? || w.scanners[who].todo == [] then w
      else w.(scanners := w.scanners[who := w.scanners[who].(todo := w.scanners[who].todo[1..])])
    case Stop(who) => w.(scanners := w.scanners[who := Idle])
    case Write(db) => w.(db := db)
  }

  ghost function Run(g: Rules, db: Db, steps: seq<Step>): World {
    if steps == [] then World(db, map[])
    else Do(g, Run(g, db, steps[..|steps| - 1]), steps[|steps| - 1])
  }

  lemma StepKeepsCoherent(g: Rules, w: World, step: Step)
    requires AllCoherent(w)
    ensures AllCoherent(Do(g, w, step))
  {
  }

  lemma {:induction false} RunIsCoherent(g: Rules, db: Db, steps: seq<Step>)
    ensures AllCoherent(Run(g, db, steps))
  {
    if steps != [] {
      RunIsCoherent(g, db, steps[..|steps| - 1]);
      StepKeepsCoherent(g, Run(g, db, steps[..|steps| - 1]), steps[|steps| - 1]);
    }
  }

  /** The hash distinguishes the contents stored in `db`. */
  ghost predicate CollisionFree(g: Rules, db: Db) {
    forall x, y :: x in db && y in db && g.hash(db[x].content) == g.hash(db[y].content) ==> db[x].content == db[y].content
  }

  /** A forget never removes the last available row of a group: in any
      interleaving, when step `k` of the run changes row `id` by forgetting it, an
      available row of its group remains. */
  lemma ForgetLeavesOneAvailable(g: Rules, db: Db, steps: seq<Step>, k: nat, id: Id)
    requires Sound(g) && k < |steps| && steps[k].Forget?
    requires CollisionFree(g, Run(g, db, steps[..k]).db)
    requires var was, now := Run(g, db, steps[..k]).db, Run(g, db, steps[..k + 1]).db;
             id in was && id in now && now[id] != was[id]
    ensures var was, now := Run(g, db, steps[..k]).db, Run(g, db, steps[..k + 1]).db;
            && Available(g, was[id]) && !Available(g, now[id])
            && HasAvailable(g, now, GroupOf(was[id]))
            && forall x :: x in was && x != id ==> x in now && now[x] == was[x]
  {
    RunIsCoherent(g, db, steps[..k]);
    assert steps[..k + 1][..k] == steps[..k];
    var w := Run(g, db, steps[..k]);
    var s := w.scanners[steps[k].who];
    var now := Run(g, db, steps[..k + 1]).db;
    assert id == s.todo[0].0;
    assert s.best in now && GroupOf(now[s.best]) == GroupOf(w.db[id]) && Available(g, now[s.best]);
  }

  // -------------------------------------------------- one scan, undisturbed

  /** The database after forgetting the rows in `ids`. */
  function ForgetAll(g: Rules, db: Db, ids: set<Id>): Db {
    map id | id in db :: if id in ids then Forgotten(g, db[id]) else db[id]
  }

  ghost predicate Duplicated(g: Rules, db: Db, group: Group) {
    |Members(g, db, group)| >= 2
  }

  ghost predicate NoDuplicates(g: Rules, db: Db) {
    forall group :: !Duplicated(g, db, group)
  }

  /** `clusters` is a possible answer of the grouping query: duplicated groups, and
      at least one of them if there are any. */
  ghost predicate Listed(g: Rules, db: Db, clusters: seq<Group>) {
    && (forall i :: 0 <= i < |clusters| ==> Duplicated(g, db, clusters[i]))
    && (forall i, j :: 0 <= i < j < |clusters| ==> clusters[i] != clusters[j])
    && (clusters == [] ==> NoDuplicates(g, db))
  }

  /** The rows a scan forgets in one group: all but the top one. */
  function Losers(g: Rules, db: Db, group: Group): set<Id>
    requires Members(g, db, group) != {}
  {
    Members(g, db, group) - {Top(db, Members(g, db, group))}
  }

  /** Without interference the next call succeeds, and forgets one row more. */
  lemma ForgetOneMore(g: Rules, seen: Db, group: Group, gone: set<Id>, mid: Id, best: Id)
    requires mid in Members(g, seen, group) && best in Members(g, seen, group) && mid != best
    requires mid !in gone && best !in gone
    ensures Mutate(g, ForgetAll(g, seen, gone), mid, Observed(g, seen[mid]), best, Observed(g, seen[best]))
         == ForgetAll(g, seen, gone + {mid})
  {
  }

  class DuplicateScanner {
    var db: Db

    constructor (db: Db)
      ensures this.db == db
    {
      this.db := db;
    }

    /** Forget the losers of one group; `fails` says which calls fail. */
    method CleanGroup(g: Rules, group: Group, fails: Id -> bool) returns (cleaned: nat, ghost gone: set<Id>)
      requires Sound(g) && Members(g, db, group) != {}
      modifies this
      ensures db == ForgetAll(g, old(db), gone) && cleaned == |gone|
      ensures gone == set id | id in Losers(g, old(db), group) && !fails(id)
    {
      hide Members, ForgetAll, Mutate, Observed, Top;
      var seen := db;
      var rows := Members(g, seen, group);
      MembersExist(g, seen, group);
      var best := Top(seen, rows);
      var todo := rows - {best};
      cleaned, gone := 0, {};
      ForgetNone(g, seen);
      while todo != {}
        invariant todo <= rows - {best} && gone == set id | id in rows - {best} - todo && !fails(id)
        invariant db == ForgetAll(g, seen, gone) && cleaned == |gone|
        decreases todo
      {
        var mid :| mid in todo;
        todo := todo - {mid};
        if !fails(mid) {
          ForgetOneMore(g, seen, group, gone, mid, best);
          db := Mutate(g, db, mid, Observed(g, seen[mid]), best, Observed(g, seen[best]));
          cleaned := cleaned + 1;
          gone := gone + {mid};
        }
      }
    }

    /** `scan_duplicate_clusters`: clean the first listed group in which any call
        succeeds, and no other. */
    method Scan(g: Rules, clusters: seq<Group>, fails: Id -> bool) returns (ghost which: nat)
      requires Sound(g) && Listed(g, db, clusters)
      modifies this
      ensures which <= |clusters|
      ensures forall j :: 0 <= j < which ==> Forgettable(g, old(db), clusters[j], fails) == {}
      ensures which == |clusters| ==> db == old(db)
      ensures which < |clusters| ==>
                && Forgettable(g, old(db), clusters[which], fails) != {}
                && db == ForgetAll(g, old(db), Forgettable(g, old(db), clusters[which], fails))
      ensures which < |clusters| ==> OnlyBestKept(g, old(db), clusters[which], fails, db)
    {
      hide Members, ForgetAll, Top;
      which := 0;
      for k := 0 to |clusters|
        invariant db == old(db) && which == k
        invariant forall j :: 0 <= j < k ==> Forgettable(g, old(db), clusters[j], fails) == {}
      {
        var rows := Members(g, db, clusters[k]);
        if |rows| >= 2 {
          var cleaned, gone := CleanGroup(g, clusters[k], fails);
          assert gone == Forgettable(g, old(db), clusters[k], fails);
          CleanedKeepsBest(g, old(db), clusters[k], fails);
          if cleaned > 0 {
            return;
          }
          assert gone == {};
          ForgetNone(g, old(db));
        }
        which := k + 1;
      }
    }
  }

  /** Of this group the best row stays as it was, and every other one whose call does
      not fail is forgotten; everything else stays. */
  ghost predicate OnlyBestKept(g: Rules, db: Db, group: Group, fails: Id -> bool, db': Db) {
    && Members(g, db, group) <= db.Keys
    && exists best ::
         && Best(db, Members(g, db, group), best)
         && db'.Keys == db.Keys
         && forall id :: id in db ==>
              db'[id] == if id in Members(g, db, group) && id != best && !fails(id) then
                           db[id].(policy := g.forgotten(db[id].policy))
                         else db[id]
  }

  lemma CleanedKeepsBest(g: Rules, db: Db, group: Group, fails: Id -> bool)
    requires Members(g, db, group) != {}
    ensures OnlyBestKept(g, db, group, fails, ForgetAll(g, db, Forgettable(g, db, group, fails)))
  {
    hide Top, Best, Members;
    MembersExist(g, db, group);
    var ids := Members(g, db, group);
    TopIsBest(db, ids, Top(db, ids));
  }

  /** The losers of a group whose calls do not fail. */
  function Forgettable(g: Rules, db: Db, group: Group, fails: Id -> bool): set<Id> {
    if Members(g, db, group) == {} then {} else set id | id in Losers(g, db, group) && !fails(id)
  }

  lemma ForgetNone(g: Rules, db: Db)
    ensures ForgetAll(g, db, {}) == db
  {
  }

  lemma MembersExist(g: Rules, db: Db, group: Group)
    ensures Members(g, db, group) <= db.Keys
  {
  }

  // ----------------------------------------- the steps of one scanner alone

  /** One observation of a group, then a call for each row it plans to forget. */
  ghost function Alone(who: nat, group: Group, order: seq<Id>, k: nat): seq<Step> {
    [Observe(who, group, order)] + seq(k, i => Forget(who))
  }

  ghost function IdsOf(order: seq<Id>): set<Id> {
    set id | id in order
  }

  lemma PlanIs(g: Rules, db: Db, group: Group, order: seq<Id>)
    requires Duplicated(g, db, group) && forall i :: 0 <= i < |order| ==> order[i] in Losers(g, db, group)
    ensures Members(g, db, group) <= db.Keys && forall i :: 0 <= i < |order| ==> order[i] in db
    ensures var plan, best := Plan(g, db, group, order), Top(db, Members(g, db, group));
            && plan.Cleaning? && plan.best == best && plan.survivor == Observed(g, db[best]) && |plan.todo| == |order|
            && forall i :: 0 <= i < |order| ==> plan.todo[i] == (order[i], Observed(g, db[order[i]]))
  {
    hide Members, Top, Observed;
    MembersExist(g, db, group);
  }

  /** After `k` calls the first `k` rows are forgotten and the others still planned. */
  lemma {:induction false} AloneForgets(g: Rules, db: Db, who: nat, group: Group, order: seq<Id>, k: nat)
    requires Duplicated(g, db, group) && k <= |order|
    requires forall i :: 0 <= i < |order| ==> order[i] in Losers(g, db, group)
    requires forall i, j :: 0 <= i < j < |order| ==> order[i] != order[j]
    ensures var w, plan := Run(g, db, Alone(who, group, order, k)), Plan(g, db, group, order);
            && plan.Cleaning? && |plan.todo| == |order|
            && w.db == ForgetAll(g, db, IdsOf(order[..k]))
            && w.scanners == map[who := plan.(todo := plan.todo[k..])]
  {
    hide Members, ForgetAll, Top, Mutate, Observed, Plan, Losers;
    var plan, steps := Plan(g, db, group, order), Alone(who, group, order, k);
    PlanIs(g, db, group, order);
    if k == 0 {
      assert steps == [Observe(who, group, order)] && steps[..0] == [];
      ForgetNone(g, db);
      assert IdsOf(order[..0]) == {};
      assert plan.todo[0..] == plan.todo;
    } else {
      AloneForgets(g, db, who, group, order, k - 1);
      assert steps[..k] == Alone(who, group, order, k - 1) && steps[k] == Forget(who);
      AloneStep(g, db, group, order, k);
      assert plan.todo[k - 1..][1..] == plan.todo[k..];
    }
  }

  lemma AloneStep(g: Rules, db: Db, group: Group, order: seq<Id>, k: nat)
    requires Duplicated(g, db, group) && 0 < k <= |order|
    requires forall i :: 0 <= i < |order| ==> order[i] in Losers(g, db, group)
    requires forall i, j :: 0 <= i < j < |order| ==> order[i] != order[j]
    requires order[k - 1] in db && Members(g, db, group) <= db.Keys
    ensures var best, was, id := Top(db, Members(g, db, group)), ForgetAll(g, db, IdsOf(order[..k - 1])), order[k - 1];
            var now := Mutate(g, was, id, Observed(g, db[id]), best, Observed(g, db[best]));
            now == ForgetAll(g, db, IdsOf(order[..k]))
  {
    hide Members, ForgetAll, Top, Mutate, Observed;
    var gone := IdsOf(order[..k - 1]);
    assert order[..k] == order[..k - 1] + [order[k - 1]];
    assert IdsOf(order[..k]) == gone + {order[k - 1]};
    ForgetOneMore(g, db, group, gone, order[k - 1], Top(db, Members(g, db, group)));
  }

  /** A scanner that works alone through a duplicated group leaves what an undisturbed
      scan leaves. */
  lemma AloneCleans(g: Rules, db: Db, who: nat, group: Group, order: seq<Id>)
    requires Duplicated(g, db, group)
    requires forall id :: id in order <==> id in Losers(g, db, group)
    requires forall i, j :: 0 <= i < j < |order| ==> order[i] != order[j]
    ensures Run(g, db, Alone(who, group, order, |order|)).db == ForgetAll(g, db, Losers(g, db, group))
  {
    hide Members, ForgetAll, Top, Losers, Run;
    AloneForgets(g, db, who, group, order, |order|);
    assert order[..|order|] == order;
    assert IdsOf(order) == Losers(g, db, group);
  }

  // ------------------------------------------------------------ convergence

  /** One scan without interference or failures. */
  ghost predicate Cleaned(g: Rules, db: Db, db': Db) {
    if !NoDuplicates(g, db) then
      exists group :: Duplicated(g, db, group) && db' == ForgetAll(g, db, Losers(g, db, group))
    else
      db' == db
  }

  lemma UndisturbedScanCleans(g: Rules, db: Db, clusters: seq<Group>, which: nat, db': Db)
    requires Listed(g, db, clusters) && which <= |clusters|
    requires which == |clusters| ==> db' == db
    requires forall j :: 0 <= j < which ==> Forgettable(g, db, clusters[j], _ => false) == {}
    requires which < |clusters| ==> db' == ForgetAll(g, db, Forgettable(g, db, clusters[which], _ => false))
    ensures Cleaned(g, db, db')
  {
    hide Members, ForgetAll, Top;
    forall j | 0 <= j < |clusters|
      ensures Forgettable(g, db, clusters[j], _ => false) == Losers(g, db, clusters[j]) != {}
    {
      LosersExist(g, db, clusters[j]);
    }
    if clusters != [] {
      assert Duplicated(g, db, clusters[0]);
      assert which == 0;
    }
  }

  lemma LosersExist(g: Rules, db: Db, group: Group)
    requires Duplicated(g, db, group)
    ensures Losers(g, db, group) != {}
  {
    var ids := Members(g, db, group);
    var top := Top(db, ids);
    assert ids == (ids - {top}) + {top};
    assert |ids| == |ids - {top}| + 1;
  }

  /** Cleaning a group leaves exactly its best row, and every other group alone. */
  lemma CleaningKeepsTheTop(g: Rules, db: Db, group: Group, other: Group)
    requires Sound(g) && Duplicated(g, db, group)
    ensures Members(g, db, group) <= db.Keys
    ensures var db' := ForgetAll(g, db, Losers(g, db, group));
            && Members(g, db', group) == {Top(db, Members(g, db, group))}
            && Best(db, Members(g, db, group), Top(db, Members(g, db, group)))
            && (other != group ==> Members(g, db', other) == Members(g, db, other))
            && (other != group ==> forall id :: id in Members(g, db, other) ==> db'[id] == db[id])
  {
    hide Top, Best;
    TopIsBest(db, Members(g, db, group), Top(db, Members(g, db, group)));
  }

  ghost function DuplicatedGroups(g: Rules, db: Db): set<Group> {
    set id | id in db && Duplicated(g, db, GroupOf(db[id])) :: GroupOf(db[id])
  }

  lemma DuplicatedGroupsAreAll(g: Rules, db: Db, group: Group)
    ensures Duplicated(g, db, group) <==> group in DuplicatedGroups(g, db)
  {
    if Duplicated(g, db, group) {
      var id :| id in Members(g, db, group);
      assert GroupOf(db[id]) == group;
    }
  }

  lemma CleaningRemovesOneGroup(g: Rules, db: Db, group: Group)
    requires Sound(g) && Duplicated(g, db, group)
    ensures DuplicatedGroups(g, ForgetAll(g, db, Losers(g, db, group))) == DuplicatedGroups(g, db) - {group}
  {
    hide Members, ForgetAll, Top, Losers, DuplicatedGroups;
    var db' := ForgetAll(g, db, Losers(g, db, group));
    forall other
      ensures other in DuplicatedGroups(g, db') <==> other in DuplicatedGroups(g, db) && other != group
    {
      CleaningKeepsTheTop(g, db, group, other);
      DuplicatedGroupsAreAll(g, db, other);
      DuplicatedGroupsAreAll(g, db', other);
    }
  }

  /** What is left of a group once its duplicates are gone. */
  ghost function Remaining(g: Rules, db: Db, group: Group): set<Id> {
    if Duplicated(g, db, group) then {Top(db, Members(g, db, group))} else Members(g, db, group)
  }

  lemma RemainingIsStable(g: Rules, db: Db, cleaned: Group, group: Group)
    requires Sound(g) && Duplicated(g, db, cleaned)
    ensures Remaining(g, ForgetAll(g, db, Losers(g, db, cleaned)), group) == Remaining(g, db, group)
  {
    hide ForgetAll, Losers, Members;
    var db' := ForgetAll(g, db, Losers(g, db, cleaned));
    CleaningKeepsTheTop(g, db, cleaned, group);
    if group != cleaned && Duplicated(g, db, group) {
      var ids := Members(g, db, group);
      MembersExist(g, db, group);
      MembersExist(g, db', group);
      assert IsTop(db', ids, Top(db, ids));
      TopIsUnique(db', ids, Top(db, ids), Top(db', ids));
    }
  }

  /** Of a duplicated group the best row is left, of any other group all rows. */
  ghost predicate BestLeft(g: Rules, db: Db, later: Db, group: Group) {
    var ids, left := Members(g, db, group), Members(g, later, group);
    ids <= db.Keys && if |ids| >= 2 then exists best :: left == {best} && Best(db, ids, best) else left == ids
  }

  /** Repeated undisturbed scans: after as many scans as there were duplicated
      groups no eligible duplicates are left, and every group still has exactly
      its best row, or all its rows if it had no duplicates. */
  lemma ScansConverge(g: Rules, dbs: seq<Db>)
    requires Sound(g) && dbs != []
    requires forall i :: 0 <= i < |dbs| - 1 ==> Cleaned(g, dbs[i], dbs[i + 1])
    requires |dbs| > |DuplicatedGroups(g, dbs[0])|
    ensures NoDuplicates(g, dbs[|dbs| - 1])
    ensures var last := dbs[|dbs| - 1];
            forall group :: BestLeft(g, dbs[0], last, group)
  {
    hide Members, Cleaned, DuplicatedGroups, Best, Top, NoDuplicates;
    ScansLeave(g, dbs);
    var last := dbs[|dbs| - 1];
    forall group
      ensures BestLeft(g, dbs[0], last, group)
    {
      MembersExist(g, dbs[0], group);
      var ids := Members(g, dbs[0], group);
      assert Members(g, last, group) == Remaining(g, dbs[0], group);
      if |ids| >= 2 {
        TopIsBest(dbs[0], ids, Top(dbs[0], ids));
      }
    }
  }

  lemma {:induction false} ScansLeave(g: Rules, dbs: seq<Db>)
    requires Sound(g) && dbs != []
    requires forall i :: 0 <= i < |dbs| - 1 ==> Cleaned(g, dbs[i], dbs[i + 1])
    requires |dbs| > |DuplicatedGroups(g, dbs[0])|
    ensures NoDuplicates(g, dbs[|dbs| - 1])
    ensures forall group :: Members(g, dbs[|dbs| - 1], group) == Remaining(g, dbs[0], group)
    decreases |dbs|
  {
    hide Members, ForgetAll, Losers, DuplicatedGroups;
    if |dbs| == 1 {
      NoneDuplicated(g, dbs[0]);
    } else {
      assert Cleaned(g, dbs[0], dbs[1]);
      if !NoDuplicates(g, dbs[0]) {
        var group :| Duplicated(g, dbs[0], group) && dbs[1] == ForgetAll(g, dbs[0], Losers(g, dbs[0], group));
        CleaningRemovesOneGroup(g, dbs[0], group);
        DuplicatedGroupsAreAll(g, dbs[0], group);
        forall other
          ensures Remaining(g, dbs[1], other) == Remaining(g, dbs[0], other)
        {
          RemainingIsStable(g, dbs[0], group, other);
        }
      } else {
        NoDuplicatedGroup(g, dbs[0]);
      }
      ScansLeave(g, dbs[1..]);
    }
  }

  lemma NoneDuplicated(g: Rules, db: Db)
    requires |DuplicatedGroups(g, db)| == 0
    ensures NoDuplicates(g, db)
    ensures forall group :: Members(g, db, group) == Remaining(g, db, group)
  {
    hide Members, DuplicatedGroups;
    forall group
      ensures !Duplicated(g, db, group)
    {
      DuplicatedGroupsAreAll(g, db, group);
    }
  }

  lemma NoDuplicatedGroup(g: Rules, db: Db)
    requires NoDuplicates(g, db)
    ensures DuplicatedGroups(g, db) == {}
  {
  }
}
