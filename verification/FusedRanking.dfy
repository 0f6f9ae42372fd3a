/** Ranking recalled rows by fixture identifier: sort by relevance, then keep the
    first row of each identifier. The result does not depend on how the rows
    were arranged. */
module FusedRanking {
  import Collections
  import TextOrder

  /** A relevance that can be compared, or one that cannot (missing, boolean, not
      a number, or not finite). */
  datatype Relevance = Finite(value: real) | Unusable

  datatype Raw = NotARow | Row(id: string, relevance: Relevance)

  datatype Payload = Payload(core: seq<Raw>, related: seq<Raw>, divergent: seq<Raw>)

  /** A row as the ranking sees it: the identifier after renaming. */
  datatype Item = Item(fixture: string, relevance: Relevance)

  function Renamed(names: map<string, string>, id: string): string {
    if id in names then names[id] else id
  }

  /** The rows with an identifier, renamed. */
  function Items(names: map<string, string>, rows: seq<Raw>): seq<Item> {
    if rows == [] then []
    else
      (if rows[0].Row? && rows[0].id != "" then [Item(Renamed(names, rows[0].id), rows[0].relevance)] else [])
      + Items(names, rows[1..])
  }

  function AllItems(names: map<string, string>, p: Payload): seq<Item> {
    Items(names, p.core) + Items(names, p.related) + Items(names, p.divergent)
  }

  predicate Comparable(items: seq<Item>) {
    forall i :: 0 <= i < |items| ==> items[i].relevance.Finite?
  }

  // ---------------------------------------------------------- the reference

  /** The row is in one of the three layers. */
  ghost predicate Occurs(p: Payload, row: Raw) {
    row in p.core || row in p.related || row in p.divergent
  }

  /** A row with an identifier stands for what `names` says, or for itself. */
  ghost predicate MapsTo(names: map<string, string>, row: Raw, x: string) {
    row.Row? && row.id != "" && x == if row.id in names then names[row.id] else row.id
  }

  /** Some row stands for `x` with this relevance. */
  ghost predicate Given(p: Payload, names: map<string, string>, x: string, relevance: Relevance) {
    exists row :: Occurs(p, row) && MapsTo(names, row, x) && row.relevance == relevance
  }

  /** Every row with an identifier has a relevance that can be compared. */
  ghost predicate AllFinite(p: Payload) {
    forall row :: Occurs(p, row) && row.Row? && row.id != "" ==> row.relevance.Finite?
  }

  ghost predicate BestOf(p: Payload, names: map<string, string>, x: string, b: real) {
    Given(p, names, x, Finite(b)) && forall c :: Given(p, names, x, Finite(c)) ==> c <= b
  }

  /** `x` ranks above `y`: its best relevance is greater, or the same and `x` is the
      smaller text. */
  ghost predicate Above(p: Payload, names: map<string, string>, x: string, y: string) {
    exists b, c :: BestOf(p, names, x, b) && BestOf(p, names, y, c) && (b > c || (b == c && TextOrder.Lexicographic(x, y)))
  }

  /** `r` lists every identifier that a row stands for, the empty one apart, once
      each, by best relevance. */
  ghost predicate Ranked(p: Payload, names: map<string, string>, r: seq<string>) {
    && (forall x :: x in r <==> x != "" && exists relevance :: Given(p, names, x, relevance))
    && forall i, j :: 0 <= i < j < |r| ==> Above(p, names, r[i], r[j])
  }

  /** The first row that stands for `x`, counted through core, related and divergent. */
  ghost predicate FirstAt(p: Payload, names: map<string, string>, x: string, q: nat) {
    var rows := p.core + p.related + p.divergent;
    q < |rows| && MapsTo(names, rows[q], x) && forall j :: 0 <= j < q ==> !MapsTo(names, rows[j], x)
  }

  ghost predicate Earlier(p: Payload, names: map<string, string>, x: string, y: string) {
    exists q, q' :: FirstAt(p, names, x, q) && FirstAt(p, names, y, q') && q < q'
  }

  /** `r` lists the same identifiers in the order of their first rows. */
  ghost predicate Listed(p: Payload, names: map<string, string>, r: seq<string>) {
    && (forall x :: x in r <==> x != "" && exists relevance :: Given(p, names, x, relevance))
    && forall i, j :: 0 <= i < j < |r| ==> Earlier(p, names, r[i], r[j])
  }

  /** What the ranking of a payload is. */
  ghost predicate RankingOf(p: Payload, names: map<string, string>, r: seq<string>) {
    if AllFinite(p) then Ranked(p, names, r) else Listed(p, names, r)
  }

  // ------------------------------------------------------ the extracted items

  /** `b` is the best relevance of `id`. */
  ghost predicate IsBest(items: seq<Item>, id: string, b: real) {
    && Item(id, Finite(b)) in items
    && forall c :: Item(id, Finite(c)) in items ==> c <= b
  }

  /** `x` ranks before `y`: by best relevance, descending, then by identifier. */
  ghost predicate RanksBefore(items: seq<Item>, x: string, y: string) {
    exists b, c :: IsBest(items, x, b) && IsBest(items, y, c) && (b > c || (b == c && TextOrder.Before(x, y)))
  }

  /** `r` lists every non-empty identifier once, in ranking order. */
  ghost predicate IsRanking(items: seq<Item>, r: seq<string>) {
    && (forall i, j :: 0 <= i < j < |r| ==> RanksBefore(items, r[i], r[j]))
    && (forall x :: x in r <==> x != "" && exists b :: IsBest(items, x, b))
  }

  lemma RanksBeforeIsStrict(items: seq<Item>, x: string, y: string)
    requires RanksBefore(items, x, y)
    ensures !RanksBefore(items, y, x) && x != y
  {
    hide TextOrder.Before;
    TextOrder.Order();
  }

  lemma SameBest(items: seq<Item>, items': seq<Item>)
    requires forall x :: x in items <==> x in items'
    ensures forall id, b :: IsBest(items, id, b) <==> IsBest(items', id, b)
    ensures forall x, y :: RanksBefore(items, x, y) <==> RanksBefore(items', x, y)
  {
  }

  // ------------------------------------------------------------- the method

  /** The sort key order: relevance descending, then identifier ascending. */
  predicate KeyBefore(a: Item, b: Item) {
    a.relevance.Finite? && b.relevance.Finite? &&
    (a.relevance.value > b.relevance.value ||
     (a.relevance.value == b.relevance.value && TextOrder.Before(a.fixture, b.fixture)))
  }

  ghost predicate SortedItems(items: seq<Item>) {
    forall i, j :: 0 <= i < j < |items| ==> !KeyBefore(items[j], items[i])
  }

  function Insert(x: Item, s: seq<Item>): seq<Item> {
    if s == [] || !KeyBefore(s[0], x) then [x] + s else [s[0]] + Insert(x, s[1..])
  }

  /** `rows.sort(key=...)`: stable, by the sort key. */
  function SortByKey(items: seq<Item>): seq<Item> {
    if items == [] then [] else Insert(items[0], SortByKey(items[1..]))
  }

  lemma KeyTransitive(a: Item, b: Item, c: Item)
    requires a.relevance.Finite? && b.relevance.Finite? && c.relevance.Finite?
    requires !KeyBefore(b, a) && !KeyBefore(c, b)
    ensures !KeyBefore(c, a)
  {
    hide TextOrder.Before;
    TextOrder.Order();
  }

  lemma KeyAsymmetric(a: Item, b: Item)
    requires KeyBefore(a, b)
    ensures !KeyBefore(b, a)
  {
    hide TextOrder.Before;
    TextOrder.Order();
  }

  lemma {:induction false} InsertMembers(x: Item, s: seq<Item>)
    ensures multiset(Insert(x, s)) == multiset(s) + multiset{x}
    ensures forall y :: y in Insert(x, s) <==> y == x || y in s
  {
    if s != [] && KeyBefore(s[0], x) {
      InsertMembers(x, s[1..]);
      assert s == [s[0]] + s[1..];
    }
  }

  lemma {:induction false} InsertSorted(x: Item, s: seq<Item>)
    requires x.relevance.Finite? && Comparable(s) && SortedItems(s)
    ensures SortedItems(Insert(x, s))
  {
    hide KeyBefore;
    if s == [] || !KeyBefore(s[0], x) {
      forall j | 0 <= j < |s|
        ensures !KeyBefore(s[j], x)
      {
        if j > 0 {
          KeyTransitive(x, s[0], s[j]);
        }
      }
    } else {
      InsertSorted(x, s[1..]);
      InsertMembers(x, s[1..]);
      KeyAsymmetric(s[0], x);
      var t := Insert(x, s[1..]);
      forall j | 0 <= j < |t|
        ensures !KeyBefore(t[j], s[0])
      {
        assert t[j] in t;
        if t[j] != x {
          var k :| 1 <= k < |s| && s[k] == t[j];
        }
      }
    }
  }

  /** Sorting permutes the items and orders them by the key. */
  lemma {:induction false} SortSorts(items: seq<Item>)
    requires Comparable(items)
    ensures SortedItems(SortByKey(items)) && Comparable(SortByKey(items))
    ensures multiset(SortByKey(items)) == multiset(items)
    ensures forall y :: y in SortByKey(items) <==> y in items
  {
    hide KeyBefore;
    if items != [] {
      SortSorts(items[1..]);
      InsertMembers(items[0], SortByKey(items[1..]));
      InsertSorted(items[0], SortByKey(items[1..]));
      assert items == [items[0]] + items[1..];
      forall i | 0 <= i < |SortByKey(items)|
        ensures SortByKey(items)[i].relevance.Finite?
      {
        assert SortByKey(items)[i] in SortByKey(items);
      }
    }
  }

  /** `r` lists the identifiers of `items` in the order of their first rows `at`. */
  ghost predicate FirstRows(items: seq<Item>, n: nat, r: seq<string>, at: seq<nat>)
    requires n <= |items|
  {
    && |at| == |r|
    && (forall i, j :: 0 <= i < j < |at| ==> at[i] < at[j])
    && (forall i :: 0 <= i < |at| ==> at[i] < n && items[at[i]].fixture == r[i] && r[i] != "")
    && (forall i, q :: 0 <= i < |at| && 0 <= q < at[i] ==> items[q].fixture != r[i])
    && (forall q :: 0 <= q < n && items[q].fixture != "" ==> items[q].fixture in r)
  }

  /** In sorted items the first row of an identifier carries its best relevance. */
  lemma FirstIsBest(items: seq<Item>, r: seq<string>, at: seq<nat>, i: nat)
    requires Comparable(items) && SortedItems(items) && FirstRows(items, |items|, r, at) && i < |r|
    ensures IsBest(items, r[i], items[at[i]].relevance.value)
  {
    var b := items[at[i]].relevance.value;
    assert items[at[i]] == Item(r[i], Finite(b));
    forall c | Item(r[i], Finite(c)) in items
      ensures c <= b
    {
      var q :| 0 <= q < |items| && items[q] == Item(r[i], Finite(c));
      assert at[i] <= q;
    }
  }

  lemma FirstRowsRank(items: seq<Item>, r: seq<string>, at: seq<nat>)
    requires Comparable(items) && SortedItems(items) && FirstRows(items, |items|, r, at)
    ensures IsRanking(items, r)
  {
    hide TextOrder.Before;
    TextOrder.Order();
    forall i, j | 0 <= i < j < |r|
      ensures RanksBefore(items, r[i], r[j])
    {
      FirstIsBest(items, r, at, i);
      FirstIsBest(items, r, at, j);
      assert at[i] < at[j];
      assert items[at[i]].fixture != items[at[j]].fixture;
    }
    forall x
      ensures x in r <==> x != "" && exists b :: IsBest(items, x, b)
    {
      if x in r {
        var i :| 0 <= i < |r| && r[i] == x;
        FirstIsBest(items, r, at, i);
      }
    }
  }

  /** `_remap_public_fused_ranking`. When every relevance is comparable identifiers
      are ranked; otherwise they keep the order of their first rows. */
  method RemapFusedRanking(p: Payload, names: map<string, string>) returns (ranked: seq<string>)
    ensures RankingOf(p, names, ranked)
  {
    hide TextOrder.Before, AllItems, SortByKey, KeyBefore, IsRanking, Ranked, Listed, AllFinite;
    var items := AllItems(names, p);
    var rows := items;
    if Comparable(items) {
      rows := SortByKey(items);
      SortSorts(items);
    }
    ranked := [];
    var seen: set<string> := {};
    ghost var at: seq<nat> := [];
    for k := 0 to |rows|
      invariant FirstRows(rows, k, ranked, at)
      invariant forall x :: x in seen <==> x in ranked
    {
      var id := rows[k].fixture;
      if id != "" && id !in seen {
        seen := seen + {id};
        ranked := ranked + [id];
        at := at + [k];
      }
    }
    ComparableMeans(p, names);
    if Comparable(items) {
      FirstRowsRank(rows, ranked, at);
      SameRanking(rows, items, ranked);
      RankingMeans(p, names, ranked);
    } else {
      FirstRowsMean(p, names, ranked, at);
    }
  }

  lemma SameRanking(items: seq<Item>, items': seq<Item>, r: seq<string>)
    requires forall x :: x in items <==> x in items'
    requires IsRanking(items, r)
    ensures IsRanking(items', r)
  {
    SameBest(items, items');
  }

  // ---------------------------------------- the items stand for the payload

  lemma {:induction false} ItemsAppend(names: map<string, string>, a: seq<Raw>, b: seq<Raw>)
    ensures Items(names, a + b) == Items(names, a) + Items(names, b)
  {
    if a == [] {
      assert a + b == b;
    } else {
      assert (a + b)[1..] == a[1..] + b;
      ItemsAppend(names, a[1..], b);
    }
  }

  predicate HasId(row: Raw) {
    row.Row? && row.id != ""
  }

  /** The position of the row behind item `k`. */
  ghost function RowOf(rows: seq<Raw>, k: nat): nat {
    if rows == [] then 0
    else if HasId(rows[0]) then (if k == 0 then 0 else 1 + RowOf(rows[1..], k - 1))
    else 1 + RowOf(rows[1..], k)
  }

  lemma {:induction false} RowOfIs(names: map<string, string>, rows: seq<Raw>, k: nat)
    requires k < |Items(names, rows)|
    ensures var q := RowOf(rows, k);
            && q < |rows| && HasId(rows[q])
            && MapsTo(names, rows[q], Items(names, rows)[k].fixture) && rows[q].relevance == Items(names, rows)[k].relevance
  {
    if !HasId(rows[0]) {
      RowOfIs(names, rows[1..], k);
    } else if k > 0 {
      RowOfIs(names, rows[1..], k - 1);
    }
  }

  lemma {:induction false} RowsInOrder(names: map<string, string>, rows: seq<Raw>, k: nat, l: nat)
    requires k < l < |Items(names, rows)|
    ensures RowOf(rows, k) < RowOf(rows, l)
    decreases |rows|
  {
    if !HasId(rows[0]) {
      RowsInOrder(names, rows[1..], k, l);
    } else if k > 0 {
      RowsInOrder(names, rows[1..], k - 1, l - 1);
    }
  }

  lemma {:induction false} ItemOfRow(names: map<string, string>, rows: seq<Raw>, q: nat) returns (k: nat)
    requires q < |rows| && HasId(rows[q])
    ensures k < |Items(names, rows)| && RowOf(rows, k) == q
  {
    if q == 0 {
      k := 0;
    } else {
      k := ItemOfRow(names, rows[1..], q - 1);
      if HasId(rows[0]) {
        k := k + 1;
      }
    }
  }

  ghost function Rows(p: Payload): seq<Raw> {
    p.core + p.related + p.divergent
  }

  lemma ItemsOfRows(p: Payload, names: map<string, string>)
    ensures AllItems(names, p) == Items(names, Rows(p))
    ensures forall row :: Occurs(p, row) <==> row in Rows(p)
  {
    ItemsAppend(names, p.core + p.related, p.divergent);
    ItemsAppend(names, p.core, p.related);
  }

  lemma ItemMeans(p: Payload, names: map<string, string>, x: string, relevance: Relevance)
    ensures Item(x, relevance) in AllItems(names, p) <==> Given(p, names, x, relevance)
  {
    hide AllItems, Rows;
    ItemsOfRows(p, names);
    var rows, items := Rows(p), AllItems(names, p);
    if Item(x, relevance) in items {
      var k :| 0 <= k < |items| && items[k] == Item(x, relevance);
      RowOfIs(names, rows, k);
      assert Occurs(p, rows[RowOf(rows, k)]);
    }
    if row :| Occurs(p, row) && MapsTo(names, row, x) && row.relevance == relevance {
      var q :| 0 <= q < |rows| && rows[q] == row;
      var k := ItemOfRow(names, rows, q);
      RowOfIs(names, rows, k);
      assert items[k] == Item(x, relevance);
    }
  }

  lemma ComparableMeans(p: Payload, names: map<string, string>)
    ensures Comparable(AllItems(names, p)) <==> AllFinite(p)
  {
    hide AllItems, Rows, Items;
    ItemsOfRows(p, names);
    var rows, items := Rows(p), AllItems(names, p);
    if AllFinite(p) {
      forall k | 0 <= k < |items|
        ensures items[k].relevance.Finite?
      {
        RowOfIs(names, rows, k);
      assert Occurs(p, rows[RowOf(rows, k)]);
      }
    }
    if Comparable(items) {
      forall row | Occurs(p, row) && row.Row? && row.id != ""
        ensures row.relevance.Finite?
      {
        var q :| 0 <= q < |rows| && rows[q] == row;
        var k := ItemOfRow(names, rows, q);
        RowOfIs(names, rows, k);
      RowOfIs(names, rows, k);
      }
    }
  }

  lemma RankingMeans(p: Payload, names: map<string, string>, r: seq<string>)
    requires Comparable(AllItems(names, p)) && IsRanking(AllItems(names, p), r)
    ensures Ranked(p, names, r)
  {
    hide AllItems, Given, TextOrder.Before, TextOrder.Lexicographic;
    var items := AllItems(names, p);
    forall x, relevance
      ensures Item(x, relevance) in items <==> Given(p, names, x, relevance)
    {
      ItemMeans(p, names, x, relevance);
    }
    BestMeans(p, names);
    forall x
      ensures x in r <==> x != "" && exists relevance :: Given(p, names, x, relevance)
    {
      if x != "" && exists relevance :: Given(p, names, x, relevance) {
        var relevance :| Given(p, names, x, relevance);
        BestExists(items, x, relevance);
      }
    }
    forall i, j | 0 <= i < j < |r|
      ensures Above(p, names, r[i], r[j])
    {
      assert RanksBefore(items, r[i], r[j]);
      TextOrder.BeforeIsLexicographic(r[i], r[j]);
    }
  }

  lemma BestMeans(p: Payload, names: map<string, string>)
    ensures forall x, b :: IsBest(AllItems(names, p), x, b) <==> BestOf(p, names, x, b)
  {
    hide AllItems, Given;
    forall x, relevance
      ensures Item(x, relevance) in AllItems(names, p) <==> Given(p, names, x, relevance)
    {
      ItemMeans(p, names, x, relevance);
    }
  }

  /** An identifier that occurs has a best relevance. */
  lemma {:induction false} BestExists(items: seq<Item>, x: string, relevance: Relevance)
    requires Comparable(items) && Item(x, relevance) in items
    ensures exists b :: IsBest(items, x, b)
    decreases |items|
  {
    var rest, last := items[..|items| - 1], items[|items| - 1];
    assert items == rest + [last];
    if i :| 0 <= i < |rest| && rest[i].fixture == x {
      assert rest[i] == Item(x, rest[i].relevance);
      BestExists(rest, x, rest[i].relevance);
      var b :| IsBest(rest, x, b);
      var c := if last.fixture == x && last.relevance.value > b then last.relevance.value else b;
      assert last == Item(last.fixture, Finite(last.relevance.value));
      assert IsBest(items, x, c);
    } else {
      assert last == Item(x, Finite(last.relevance.value));
      assert IsBest(items, x, last.relevance.value);
    }
  }

  lemma FirstRowsMean(p: Payload, names: map<string, string>, r: seq<string>, at: seq<nat>)
    requires FirstRows(AllItems(names, p), |AllItems(names, p)|, r, at)
    ensures Listed(p, names, r)
  {
    hide AllItems, Items, Rows, Given, RowOf;
    ItemsOfRows(p, names);
    RowsAre(p);
    var rows, items := Rows(p), AllItems(names, p);
    forall i | 0 <= i < |r|
      ensures FirstAt(p, names, r[i], RowOf(rows, at[i]))
    {
      var q := RowOf(rows, at[i]);
      RowOfIs(names, rows, at[i]);
      forall j | 0 <= j < q
        ensures !MapsTo(names, rows[j], r[i])
      {
        if MapsTo(names, rows[j], r[i]) {
          var k := ItemOfRow(names, rows, j);
          RowOfIs(names, rows, k);
          if at[i] < k {
            RowsInOrder(names, rows, at[i], k);
          }
        }
      }
    }
    forall i, j | 0 <= i < j < |r|
      ensures Earlier(p, names, r[i], r[j])
    {
      RowsInOrder(names, rows, at[i], at[j]);
    }
    forall x
      ensures x in r <==> x != "" && exists relevance :: Given(p, names, x, relevance)
    {
      if x in r {
        var i :| 0 <= i < |r| && r[i] == x;
        ItemMeans(p, names, x, items[at[i]].relevance);
        assert items[at[i]] in items;
      }
      if relevance :| x != "" && Given(p, names, x, relevance) {
        ItemMeans(p, names, x, relevance);
        var q :| 0 <= q < |items| && items[q] == Item(x, relevance);
      }
    }
  }

  lemma RowsAre(p: Payload)
    ensures Rows(p) == p.core + p.related + p.divergent
  {
  }

  // ------------------------------------------------------ what does not matter

  lemma AboveIsStrict(p: Payload, names: map<string, string>, x: string, y: string)
    requires Above(p, names, x, y)
    ensures !Above(p, names, y, x)
  {
    hide Given, TextOrder.Before, TextOrder.Lexicographic;
    TextOrder.Order();
    TextOrder.BeforeIsLexicographic(x, y);
    TextOrder.BeforeIsLexicographic(y, x);
  }

  /** Payloads in which the same identifiers are given the same relevances have the
      same ranking, and there is only one. */
  lemma RankingIsUnique(p: Payload, names: map<string, string>, p': Payload, names': map<string, string>,
                        r: seq<string>, r': seq<string>)
    requires forall x, relevance :: Given(p, names, x, relevance) <==> Given(p', names', x, relevance)
    requires Ranked(p, names, r) && Ranked(p', names', r')
    ensures r == r'
  {
    hide Given, TextOrder.Lexicographic;
    forall x, y
      ensures Above(p', names', x, y) <==> Above(p, names, x, y)
    {
      SameAbove(p, names, p', names', x, y);
    }
    hide Above;
    var before := (x, y) => Above(p, names, x, y);
    forall x, y | before(x, y)
      ensures !before(y, x)
    {
      AboveIsStrict(p, names, x, y);
    }
    Collections.OrderIsUnique(before, r, r');
  }

  lemma SameAbove(p: Payload, names: map<string, string>, p': Payload, names': map<string, string>, x: string, y: string)
    requires forall x, relevance :: Given(p, names, x, relevance) <==> Given(p', names', x, relevance)
    ensures Above(p', names', x, y) <==> Above(p, names, x, y)
  {
    hide Given, TextOrder.Lexicographic;
    assert forall z, b :: BestOf(p', names', z, b) <==> BestOf(p, names, z, b);
  }

  /** Payloads whose three layers together hold the same rows have the same ranking,
      in whatever order and layers the rows are. */
  lemma RankingIgnoresArrangement(p: Payload, p': Payload, names: map<string, string>, r: seq<string>, r': seq<string>)
    requires multiset(p.core) + multiset(p.related) + multiset(p.divergent)
          == multiset(p'.core) + multiset(p'.related) + multiset(p'.divergent)
    requires AllFinite(p) && RankingOf(p, names, r) && RankingOf(p', names, r')
    ensures AllFinite(p') && r == r'
  {
    var all := multiset(p.core) + multiset(p.related) + multiset(p.divergent);
    var all' := multiset(p'.core) + multiset(p'.related) + multiset(p'.divergent);
    forall row
      ensures Occurs(p, row) <==> Occurs(p', row)
    {
      assert row in all <==> Occurs(p, row);
      assert row in all' <==> Occurs(p', row);
    }
    hide Occurs, Ranked;
    assert forall x, relevance :: Given(p, names, x, relevance) <==> Given(p', names, x, relevance);
    RankingIsUnique(p, names, p', names, r, r');
  }

  /** Two rows that differ in their runtime identifier only, and stand for the same. */
  ghost predicate SameButRuntimeId(names: map<string, string>, row: Raw, names': map<string, string>, row': Raw) {
    && (row.Row? <==> row'.Row?)
    && (row.Row? ==> row.relevance == row'.relevance && (row.id == "" <==> row'.id == ""))
    && forall x :: MapsTo(names, row, x) <==> MapsTo(names', row', x)
  }

  ghost predicate SameLayer(names: map<string, string>, a: seq<Raw>, names': map<string, string>, a': seq<Raw>) {
    |a| == |a'| && forall i :: 0 <= i < |a| ==> SameButRuntimeId(names, a[i], names', a'[i])
  }

  lemma RenamedRows(p: Payload, names: map<string, string>, p': Payload, names': map<string, string>)
    requires SameLayer(names, p.core, names', p'.core) && SameLayer(names, p.related, names', p'.related)
    requires SameLayer(names, p.divergent, names', p'.divergent)
    ensures SameLayer(names, Rows(p), names', Rows(p'))
  {
    hide SameButRuntimeId;
  }

  lemma RenamedOccurs(p: Payload, names: map<string, string>, p': Payload, names': map<string, string>, row: Raw)
    returns (row': Raw)
    requires SameLayer(names, Rows(p), names', Rows(p')) && Occurs(p, row)
    ensures Occurs(p', row') && SameButRuntimeId(names, row, names', row')
  {
    ItemsOfRows(p, names);
    ItemsOfRows(p', names');
    var q :| 0 <= q < |Rows(p)| && Rows(p)[q] == row;
    row' := Rows(p')[q];
  }

  lemma RenamedGiven(p: Payload, names: map<string, string>, p': Payload, names': map<string, string>)
    requires SameLayer(names, Rows(p), names', Rows(p'))
    ensures AllFinite(p') ==> AllFinite(p)
    ensures forall x, relevance :: Given(p, names, x, relevance) ==> Given(p', names', x, relevance)
  {
    hide Occurs, Rows, SameLayer;
    if AllFinite(p') {
      forall row | Occurs(p, row) && row.Row? && row.id != ""
        ensures row.relevance.Finite?
      {
        var row' := RenamedOccurs(p, names, p', names', row);
      }
    }
    forall x, relevance | Given(p, names, x, relevance)
      ensures Given(p', names', x, relevance)
    {
      var row :| Occurs(p, row) && MapsTo(names, row, x) && row.relevance == relevance;
      var row' := RenamedOccurs(p, names, p', names', row);
      MapsToIsRow(names, row, x);
    }
  }

  lemma MapsToIsRow(names: map<string, string>, row: Raw, x: string)
    ensures MapsTo(names, row, x) ==> row.Row?
  {
  }

  /** The runtime identifiers do not matter, whether relevances are comparable or not:
      only what they stand for. */
  lemma RankingIgnoresRuntimeIds(p: Payload, names: map<string, string>, p': Payload, names': map<string, string>,
                                 r: seq<string>, r': seq<string>)
    requires SameLayer(names, p.core, names', p'.core) && SameLayer(names, p.related, names', p'.related)
    requires SameLayer(names, p.divergent, names', p'.divergent)
    requires RankingOf(p, names, r) && RankingOf(p', names', r')
    ensures r == r'
  {
    hide Ranked, Given, Rows, AllFinite, Earlier;
    RenamedRows(p, names, p', names');
    assert SameLayer(names', Rows(p'), names, Rows(p));
    hide SameLayer;
    RenamedGiven(p, names, p', names');
    RenamedGiven(p', names', p, names);
    if AllFinite(p) {
      RankingIsUnique(p, names, p', names', r, r');
    } else {
      forall x, y
        ensures Earlier(p, names, x, y) <==> Earlier(p', names', x, y)
      {
        SameEarlier(p, names, p', names', x, y);
      }
      var before := (x, y) => Earlier(p, names, x, y);
      forall x, y | before(x, y)
        ensures !before(y, x)
      {
        EarlierIsStrict(p, names, x, y);
      }
      Collections.OrderIsUnique(before, r, r');
    }
  }

  lemma SameEarlier(p: Payload, names: map<string, string>, p': Payload, names': map<string, string>, x: string, y: string)
    requires SameLayer(names, Rows(p), names', Rows(p'))
    ensures Earlier(p, names, x, y) <==> Earlier(p', names', x, y)
  {
    hide MapsTo, Rows;
    RowsAre(p);
    RowsAre(p');
    forall z, q
      ensures FirstAt(p, names, z, q) <==> FirstAt(p', names', z, q)
    {
    }
  }

  lemma EarlierIsStrict(p: Payload, names: map<string, string>, x: string, y: string)
    requires Earlier(p, names, x, y)
    ensures !Earlier(p, names, y, x)
  {
    hide MapsTo;
    forall z, q, q' | FirstAt(p, names, z, q) && FirstAt(p, names, z, q')
      ensures q == q'
    {
    }
  }

  // -------------------------------------------------------- channel evidence

  /** A row of one channel; the source may give it any rank. */
  datatype ChannelRow = ChannelRow(item: Item, rank: int)

  function ItemsOf(rows: seq<ChannelRow>): (items: seq<Item>)
    ensures |items| == |rows| && forall i :: 0 <= i < |rows| ==> items[i] == rows[i].item
  {
    seq(|rows|, i requires 0 <= i < |rows| => rows[i].item)
  }

  /** There is one sorted arrangement. */
  lemma {:induction false} SortedIsUnique(a: seq<Item>, b: seq<Item>)
    requires Comparable(a) && Comparable(b) && SortedItems(a) && SortedItems(b) && multiset(a) == multiset(b)
    ensures a == b
  {
    hide KeyBefore, SortedItems, Comparable;
    assert |a| == |multiset(a)| && |b| == |multiset(b)|;
    if a != [] {
      HeadIsLeast(a, b);
      HeadIsLeast(b, a);
      SortedTail(a);
      SortedTail(b);
      SameKeySameItem(a[0], b[0]);
      SortedIsUnique(a[1..], b[1..]);
      assert a == [a[0]] + a[1..] && b == [b[0]] + b[1..];
    }
  }

  lemma SortedTail(a: seq<Item>)
    requires Comparable(a) && SortedItems(a) && a != []
    ensures a[0].relevance.Finite? && Comparable(a[1..]) && SortedItems(a[1..])
    ensures multiset(a[1..]) == multiset(a) - multiset{a[0]}
  {
    hide KeyBefore;
    assert a == [a[0]] + a[1..];
  }

  lemma HeadIsLeast(a: seq<Item>, b: seq<Item>)
    requires a != [] && b != [] && Comparable(a) && SortedItems(a) && multiset(a) == multiset(b)
    ensures !KeyBefore(b[0], a[0])
  {
    assert b[0] in multiset(b) && b[0] in a;
    var i :| 0 <= i < |a| && a[i] == b[0];
    if i == 0 && KeyBefore(b[0], a[0]) {
      KeyAsymmetric(b[0], a[0]);
    }
  }

  lemma SameKeySameItem(x: Item, y: Item)
    requires x.relevance.Finite? && y.relevance.Finite? && !KeyBefore(x, y) && !KeyBefore(y, x)
    ensures x == y
  {
    hide TextOrder.Before;
    TextOrder.Order();
  }

  /** The scores of all rows can be compared. */
  ghost predicate Scored(rows: seq<ChannelRow>) {
    forall i :: 0 <= i < |rows| ==> rows[i].item.relevance.Finite?
  }

  /** `r` has the items of `rows`, scores descending, equal scores by identifier,
      numbered from one. */
  ghost predicate Reranked(rows: seq<ChannelRow>, r: seq<ChannelRow>) {
    && multiset(ItemsOf(r)) == multiset(ItemsOf(rows)) && Scored(r)
    && (forall i :: 0 <= i < |r| ==> r[i].rank == i + 1)
    && forall i, j :: 0 <= i < j < |r| ==>
         && r[i].item.relevance.value >= r[j].item.relevance.value
         && (r[i].item.relevance.value == r[j].item.relevance.value ==>
               !TextOrder.Lexicographic(r[j].item.fixture, r[i].item.fixture))
  }

  lemma SortedMeans(rows: seq<ChannelRow>, r: seq<ChannelRow>)
    requires Scored(r) && multiset(ItemsOf(r)) == multiset(ItemsOf(rows))
    requires forall i :: 0 <= i < |r| ==> r[i].rank == i + 1
    ensures SortedItems(ItemsOf(r)) <==> Reranked(rows, r)
  {
    hide TextOrder.Before, TextOrder.Lexicographic;
    forall x, y
      ensures TextOrder.Before(x, y) <==> TextOrder.Lexicographic(x, y)
    {
      TextOrder.BeforeIsLexicographic(x, y);
    }
    var items := ItemsOf(r);
    if SortedItems(items) {
      forall i, j | 0 <= i < j < |r|
        ensures r[i].item.relevance.value >= r[j].item.relevance.value
        ensures r[i].item.relevance.value == r[j].item.relevance.value ==>
                  !TextOrder.Lexicographic(r[j].item.fixture, r[i].item.fixture)
      {
        assert !KeyBefore(items[j], items[i]);
      }
    }
  }

  /** The re-ranking of one channel: comparable rows are sorted and numbered from
      one; others keep their order and the ranks they came with. */
  method RerankChannel(rows: seq<ChannelRow>) returns (r: seq<ChannelRow>)
    ensures if Scored(rows) then Reranked(rows, r) else r == rows
  {
    hide KeyBefore, SortByKey, Reranked, SortedItems;
    r := rows;
    if Comparable(ItemsOf(rows)) {
      var sorted := SortByKey(ItemsOf(rows));
      r := [];
      for k := 0 to |sorted|
        invariant |r| == k && forall i :: 0 <= i < k ==> r[i] == ChannelRow(sorted[i], i + 1)
      {
        r := r + [ChannelRow(sorted[k], k + 1)];
      }
      assert ItemsOf(r) == sorted;
      SortSorts(ItemsOf(rows));
      assert Scored(r) by {
        assert forall i :: 0 <= i < |r| ==> ItemsOf(r)[i].relevance.Finite?;
      }
      SortedMeans(rows, r);
    }
  }

  /** The evidence of a channel depends on its identifiers and scores only, not on
      the order of its rows or the ranks they came with. */
  lemma RerankingIgnoresArrangement(rows: seq<ChannelRow>, rows': seq<ChannelRow>, r: seq<ChannelRow>, r': seq<ChannelRow>)
    requires multiset(ItemsOf(rows)) == multiset(ItemsOf(rows'))
    requires Reranked(rows, r) && Reranked(rows', r')
    ensures r == r'
  {
    hide KeyBefore, TextOrder.Lexicographic, SortedItems;
    SortedMeans(rows, r);
    SortedMeans(rows', r');
    SortedIsUnique(ItemsOf(r), ItemsOf(r'));
    assert |r| == |ItemsOf(r)| && |r'| == |ItemsOf(r')|;
    forall i | 0 <= i < |r|
      ensures r[i] == r'[i]
    {
      assert r[i].item == ItemsOf(r)[i] && r'[i].item == ItemsOf(r')[i];
    }
  }
}
