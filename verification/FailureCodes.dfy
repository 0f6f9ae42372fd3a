/** Collecting failure codes from a nested maintenance result with a bounded
    stack, and when that agrees with collecting all of them. */
module FailureCodes {
  import Collections
  import TextOrder

  /** A result value: only texts, dictionaries and lists (or tuples) matter. */
  datatype Value =
    | Text(text: string)
    | Dict(entries: seq<Entry>)
    | List(items: seq<Value>)
    | Scalar

  datatype Entry = Entry(key: string, value: Value)

  /** The character classes that sanitising depends on. */
  datatype Classes = Classes(space: char -> bool, alphanumeric: char -> bool)

  const MAX_VISITED: nat := 1000
  const MAX_CODES: nat := 20
  const MAX_LENGTH: nat := 200

  // ------------------------------------------------------------- sanitising

  function Stripped(k: Classes, s: string): string {
    StripEnd(k, StripStart(k, s))
  }

  function StripStart(k: Classes, s: string): string {
    if s != "" && k.space(s[0]) then StripStart(k, s[1..]) else s
  }

  function StripEnd(k: Classes, s: string): string {
    if s != "" && k.space(s[|s| - 1]) then StripEnd(k, s[..|s| - 1]) else s
  }

  predicate Allowed(k: Classes, c: char) {
    k.alphanumeric(c) || c in "._:-"
  }

  function Filtered(k: Classes, s: string): string {
    if s == "" then "" else (if Allowed(k, s[0]) then [s[0]] else "") + Filtered(k, s[1..])
  }

  function Sanitised(k: Classes, s: string): string {
    var t := Filtered(k, Stripped(k, s));
    if |t| <= MAX_LENGTH then t else t[..MAX_LENGTH]
  }

  lemma {:induction false} FilteredIsAllowed(k: Classes, s: string)
    ensures forall i :: 0 <= i < |Filtered(k, s)| ==> Allowed(k, Filtered(k, s)[i])
  {
    if s != "" {
      FilteredIsAllowed(k, s[1..]);
    }
  }

  ghost predicate Permitted(k: Classes, c: char) {
    k.alphanumeric(c) || c == '.' || c == '_' || c == ':' || c == '-'
  }

  /** Not empty, at most 200 characters, and permitted characters only. */
  ghost predicate Clean(k: Classes, code: string) {
    0 < |code| <= 200 && forall i :: 0 <= i < |code| ==> Permitted(k, code[i])
  }

  // --------------------------------------------- the plain recursive reading

  function Lookup(entries: seq<Entry>, key: string): Value {
    if entries == [] then Scalar
    else if entries[0].key == key then entries[0].value
    else Lookup(entries[1..], key)
  }

  function Code(k: Classes, v: Value): set<string> {
    if v.Text? && Sanitised(k, v.text) != "" then {Sanitised(k, v.text)} else {}
  }

  function Codes(k: Classes, items: seq<Value>): set<string> {
    if items == [] then {} else Code(k, items[0]) + Codes(k, items[1..])
  }

  /** The codes that one dictionary names itself. */
  function Own(k: Classes, entries: seq<Entry>): set<string> {
    var listed := Lookup(entries, "failure_codes");
    Code(k, Lookup(entries, "failure_code")) + if listed.List? then Codes(k, listed.items) else {}
  }

  function Children(v: Value): seq<Value> {
    match v
    case Dict(entries) => Containers(entries)
    case List(items) => items
    case _ => []
  }

  /** The values of a dictionary that are dictionaries or lists. */
  function Containers(entries: seq<Entry>): (r: seq<Value>)
    ensures forall v :: v in r ==> exists i :: 0 <= i < |entries| && entries[i].value == v
  {
    if entries == [] then []
    else
      (if entries[0].value.Dict? || entries[0].value.List? then [entries[0].value] else []) + Containers(entries[1..])
  }

  /** Every code in a value, at any depth. */
  function Collect(k: Classes, v: Value): set<string>
    decreases v, 0
  {
    match v
    case Dict(entries) => Own(k, entries) + CollectEntries(k, entries)
    case List(items) => CollectAll(k, items)
    case _ => {}
  }

  function CollectAll(k: Classes, items: seq<Value>): set<string>
    decreases items, 1
  {
    if items == [] then {} else Collect(k, items[0]) + CollectAll(k, items[1..])
  }

  function CollectEntries(k: Classes, entries: seq<Entry>): set<string>
    decreases entries, 1
  {
    if entries == [] then {} else Collect(k, entries[0].value) + CollectEntries(k, entries[1..])
  }

  lemma {:induction false} CodesAreClean(k: Classes, items: seq<Value>)
    ensures forall c :: c in Codes(k, items) ==> Clean(k, c)
  {
    if items != [] {
      CodeIsClean(k, items[0]);
      CodesAreClean(k, items[1..]);
    }
  }

  lemma CodeIsClean(k: Classes, v: Value)
    ensures forall c :: c in Code(k, v) ==> Clean(k, c)
  {
    if v.Text? {
      FilteredIsAllowed(k, Stripped(k, v.text));
    }
  }

  /** Whatever is collected from a result, at any depth, is sanitised. */
  lemma {:induction false} CollectedIsClean(k: Classes, v: Value)
    ensures forall c :: c in Collect(k, v) ==> Clean(k, c)
    decreases v, 0
  {
    hide Clean, Code, Codes, Lookup;
    match v
    case Dict(entries) =>
      CodeIsClean(k, Lookup(entries, "failure_code"));
      if Lookup(entries, "failure_codes").List? {
        CodesAreClean(k, Lookup(entries, "failure_codes").items);
      }
      EntriesAreClean(k, entries);
    case List(items) => AllAreClean(k, items);
    case _ =>
  }

  lemma {:induction false} AllAreClean(k: Classes, items: seq<Value>)
    ensures forall c :: c in CollectAll(k, items) ==> Clean(k, c)
    decreases items, 1
  {
    hide Clean;
    if items != [] {
      CollectedIsClean(k, items[0]);
      AllAreClean(k, items[1..]);
    }
  }

  lemma {:induction false} EntriesAreClean(k: Classes, entries: seq<Entry>)
    ensures forall c :: c in CollectEntries(k, entries) ==> Clean(k, c)
    decreases entries, 1
  {
    hide Clean;
    if entries != [] {
      CollectedIsClean(k, entries[0].value);
      EntriesAreClean(k, entries[1..]);
    }
  }

  /** How many values the traversal visits in all. */
  function Size(v: Value): nat
    decreases v, 0
  {
    match v
    case Dict(entries) => 1 + SizeEntries(entries)
    case List(items) => 1 + SizeAll(items)
    case _ => 1
  }

  function SizeAll(items: seq<Value>): nat
    decreases items, 1
  {
    if items == [] then 0 else Size(items[0]) + SizeAll(items[1..])
  }

  function SizeEntries(entries: seq<Entry>): nat
    decreases entries, 1
  {
    if entries == [] then 0
    else
      (if entries[0].value.Dict? || entries[0].value.List? then Size(entries[0].value) else 0) + SizeEntries(entries[1..])
  }

  // ------------------------------------------------ the codes of a result

  /** Not in the white space at either end of the text. */
  ghost predicate Inner(k: Classes, s: string, p: nat)
    requires p < |s|
  {
    (exists i :: 0 <= i <= p && !k.space(s[i])) && (exists i :: p <= i < |s| && !k.space(s[i]))
  }

  ghost predicate Increasing(at: seq<nat>) {
    forall i, j :: 0 <= i < j < |at| ==> at[i] < at[j]
  }

  /** `at` are the positions of the permitted characters inside the outer white space. */
  ghost predicate KeptAt(k: Classes, s: string, at: seq<nat>) {
    && Increasing(at)
    && forall p :: p in at <==> 0 <= p < |s| && Inner(k, s, p) && Permitted(k, s[p])
  }

  ghost predicate Picked(s: string, at: seq<nat>, full: string) {
    |full| == |at| && forall i :: 0 <= i < |at| ==> at[i] < |s| && full[i] == s[at[i]]
  }

  /** `code` is the text's permitted characters, at most 200 of them, if any. */
  ghost predicate CodeOf(k: Classes, s: string, code: string) {
    code != "" && exists at, full ::
      KeptAt(k, s, at) && Picked(s, at, full) && code == if |full| <= 200 then full else full[..200]
  }

  /** The value under the first entry with this key. */
  ghost predicate Under(entries: seq<Entry>, key: string, v: Value) {
    exists i :: 0 <= i < |entries| && entries[i] == Entry(key, v) && forall j :: 0 <= j < i ==> entries[j].key != key
  }

  /** The dictionary names `code`, alone or in its list. */
  ghost predicate Names(k: Classes, entries: seq<Entry>, code: string) {
    || (exists s :: Under(entries, "failure_code", Text(s)) && CodeOf(k, s, code))
    || (exists items, s :: Under(entries, "failure_codes", List(items)) && Text(s) in items && CodeOf(k, s, code))
  }

  /** The value reached by the child numbers `path`. */
  ghost function ValueAt(v: Value, path: seq<nat>): Value
    decreases |path|
  {
    if path == [] then v
    else
      match v
      case Dict(entries) => if path[0] < |entries| then ValueAt(entries[path[0]].value, path[1..]) else Scalar
      case List(items) => if path[0] < |items| then ValueAt(items[path[0]], path[1..]) else Scalar
      case _ => Scalar
  }

  ghost predicate NamedAt(k: Classes, v: Value, path: seq<nat>, code: string) {
    ValueAt(v, path).Dict? && Names(k, ValueAt(v, path).entries, code)
  }

  lemma {:induction false} StripStartMeans(k: Classes, s: string) returns (n: nat)
    ensures n <= |s| && StripStart(k, s) == s[n..]
    ensures (forall i :: 0 <= i < n ==> k.space(s[i])) && (n < |s| ==> !k.space(s[n]))
  {
    n := 0;
    if s != "" && k.space(s[0]) {
      var m := StripStartMeans(k, s[1..]);
      n := m + 1;
      assert forall i :: 0 < i < n ==> s[i] == s[1..][i - 1];
    }
  }

  lemma {:induction false} StripEndMeans(k: Classes, s: string) returns (n: nat)
    ensures n <= |s| && StripEnd(k, s) == s[..n]
    ensures (forall i :: n <= i < |s| ==> k.space(s[i])) && (n > 0 ==> !k.space(s[n - 1]))
  {
    n := |s|;
    if s != "" && k.space(s[|s| - 1]) {
      n := StripEndMeans(k, s[..|s| - 1]);
      assert forall i :: 0 <= i < |s| - 1 ==> s[i] == s[..|s| - 1][i];
    }
  }

  lemma StrippedMeans(k: Classes, s: string) returns (lo: nat, hi: nat)
    ensures lo <= hi <= |s| && Stripped(k, s) == s[lo..hi]
    ensures forall p :: 0 <= p < |s| ==> (Inner(k, s, p) <==> lo <= p < hi)
  {
    lo := StripStartMeans(k, s);
    var m := StripEndMeans(k, s[lo..]);
    hi := lo + m;
    assert forall i :: lo <= i < |s| ==> s[i] == s[lo..][i - lo];
    assert forall i :: hi <= i < |s| ==> k.space(s[i]);
    assert lo < hi ==> !k.space(s[lo]) && !k.space(s[hi - 1]);
  }

  /** The permitted positions of a stretch, in order. */
  lemma {:induction false} FilteredMeans(k: Classes, s: string, lo: nat, hi: nat) returns (at: seq<nat>)
    requires lo <= hi <= |s|
    ensures Increasing(at) && Picked(s, at, Filtered(k, s[lo..hi]))
    ensures forall p :: p in at <==> lo <= p < hi && Permitted(k, s[p])
    decreases hi - lo
  {
    at := [];
    if lo < hi {
      at := FilteredMeans(k, s, lo + 1, hi);
      assert s[lo..hi][1..] == s[lo + 1..hi];
      if Permitted(k, s[lo]) {
        assert forall i :: 0 <= i < |at| ==> at[i] in at;
        at := [lo] + at;
      }
    }
  }

  lemma SanitisedMeans(k: Classes, s: string, code: string)
    ensures CodeOf(k, s, code) <==> code != "" && code == Sanitised(k, s)
  {
    hide Inner, Permitted;
    var lo, hi := StrippedMeans(k, s);
    var at := FilteredMeans(k, s, lo, hi);
    var full := Filtered(k, Stripped(k, s));
    assert KeptAt(k, s, at) && Picked(s, at, full);
    forall at', full' | KeptAt(k, s, at') && Picked(s, at', full')
      ensures full' == full
    {
      Collections.OrderIsUnique((x, y) => x < y, at, at');
    }
  }

  lemma {:induction false} LookupMeans(entries: seq<Entry>, key: string, v: Value)
    ensures Under(entries, key, v) ==> Lookup(entries, key) == v
    ensures v != Scalar && Lookup(entries, key) == v ==> Under(entries, key, v)
  {
    if entries != [] && entries[0].key != key {
      LookupMeans(entries[1..], key, v);
      if i :| 0 <= i < |entries| && entries[i] == Entry(key, v) && forall j :: 0 <= j < i ==> entries[j].key != key {
        assert entries[1..][i - 1] == Entry(key, v);
      }
      if i :| 0 <= i < |entries[1..]| && entries[1..][i] == Entry(key, v) && forall j :: 0 <= j < i ==> entries[1..][j].key != key {
        assert entries[i + 1] == Entry(key, v);
      }
    } else if entries != [] {
      assert entries[0] == Entry(key, Lookup(entries, key));
    }
  }

  lemma {:induction false} CodesMean(k: Classes, items: seq<Value>, code: string)
    ensures code in Codes(k, items) <==> exists s :: Text(s) in items && CodeOf(k, s, code)
  {
    hide CodeOf, Sanitised;
    if items != [] {
      CodesMean(k, items[1..], code);
      CodeMeans(k, items[0], code);
      assert forall v :: v in items <==> v == items[0] || v in items[1..];
    }
  }

  lemma CodeMeans(k: Classes, v: Value, code: string)
    ensures code in Code(k, v) <==> v.Text? && CodeOf(k, v.text, code)
  {
    hide CodeOf, Sanitised;
    if v.Text? {
      SanitisedMeans(k, v.text, code);
    }
  }

  lemma OwnMeans(k: Classes, entries: seq<Entry>, code: string)
    ensures code in Own(k, entries) <==> Names(k, entries, code)
  {
    hide CodeOf, Under, Lookup, Codes, Code;
    var one, listed := Lookup(entries, "failure_code"), Lookup(entries, "failure_codes");
    CodeMeans(k, one, code);
    forall v
      ensures Under(entries, "failure_code", v) ==> one == v
      ensures v != Scalar && one == v ==> Under(entries, "failure_code", v)
      ensures Under(entries, "failure_codes", v) ==> listed == v
      ensures v != Scalar && listed == v ==> Under(entries, "failure_codes", v)
    {
      LookupMeans(entries, "failure_code", v);
      LookupMeans(entries, "failure_codes", v);
    }
    if listed.List? {
      CodesMean(k, listed.items, code);
      assert Under(entries, "failure_codes", List(listed.items));
    }
    if one.Text? {
      assert Under(entries, "failure_code", Text(one.text));
    }
  }

  /** A code is collected if and only if some dictionary, at any depth, names it. */
  lemma {:induction false} CollectMeans(k: Classes, v: Value, code: string)
    ensures code in Collect(k, v) <==> exists path :: NamedAt(k, v, path, code)
    decreases v, 0
  {
    hide Names, Own, CodeOf;
    match v
    case Dict(entries) =>
      OwnMeans(k, entries, code);
      EntriesMean(k, entries, code);
      NamedBelow(k, v, code);
      assert ValueAt(v, []) == v;
      if i, path :| 0 <= i < |entries| && NamedAt(k, entries[i].value, path, code) {
        assert NamedAt(k, Parts(v)[i], path, code);
      }
      if i, path :| 0 <= i < |Parts(v)| && NamedAt(k, Parts(v)[i], path, code) {
        assert NamedAt(k, entries[i].value, path, code);
      }
    case List(items) =>
      ItemsMean(k, items, code);
      NamedBelow(k, v, code);
      assert ValueAt(v, []) == v && Parts(v) == items;
    case _ =>
      forall path
        ensures !NamedAt(k, v, path, code)
      {
      }
  }

  ghost function Parts(v: Value): seq<Value> {
    match v
    case Dict(entries) => seq(|entries|, i requires 0 <= i < |entries| => entries[i].value)
    case List(items) => items
    case _ => []
  }

  /** A code named below `v` is named in `v` itself or below one of its parts. */
  lemma NamedBelow(k: Classes, v: Value, code: string)
    ensures (exists path :: NamedAt(k, v, path, code)) <==>
            NamedAt(k, v, [], code) || exists i, path :: 0 <= i < |Parts(v)| && NamedAt(k, Parts(v)[i], path, code)
  {
    hide Names;
    forall i, path | 0 <= i < |Parts(v)|
      ensures NamedAt(k, Parts(v)[i], path, code) <==> NamedAt(k, v, [i] + path, code)
    {
      assert ([i] + path)[1..] == path;
    }
    if path :| path != [] && NamedAt(k, v, path, code) {
      assert path == [path[0]] + path[1..];
      assert NamedAt(k, Parts(v)[path[0]], path[1..], code);
    }
  }

  lemma {:induction false} ItemsMean(k: Classes, items: seq<Value>, code: string)
    ensures code in CollectAll(k, items) <==>
            exists i, path :: 0 <= i < |items| && NamedAt(k, items[i], path, code)
    decreases items, 1
  {
    hide NamedAt;
    if items != [] {
      CollectMeans(k, items[0], code);
      ItemsMean(k, items[1..], code);
      assert forall i :: 0 < i < |items| ==> items[i] == items[1..][i - 1];
      if i, path :| 0 <= i < |items[1..]| && NamedAt(k, items[1..][i], path, code) {
        assert NamedAt(k, items[i + 1], path, code);
      }
      if i, path :| 0 <= i < |items| && NamedAt(k, items[i], path, code) {
        if i > 0 {
          assert NamedAt(k, items[1..][i - 1], path, code);
        }
      }
    }
  }

  lemma {:induction false} EntriesMean(k: Classes, entries: seq<Entry>, code: string)
    ensures code in CollectEntries(k, entries) <==>
            exists i, path :: 0 <= i < |entries| && NamedAt(k, entries[i].value, path, code)
    decreases entries, 1
  {
    hide NamedAt;
    if entries != [] {
      CollectMeans(k, entries[0].value, code);
      EntriesMean(k, entries[1..], code);
      if i, path :| 0 <= i < |entries[1..]| && NamedAt(k, entries[1..][i].value, path, code) {
        assert NamedAt(k, entries[i + 1].value, path, code);
      }
      if i, path :| 0 <= i < |entries| && NamedAt(k, entries[i].value, path, code) {
        if i > 0 {
          assert NamedAt(k, entries[1..][i - 1].value, path, code);
        }
      }
    }
  }

  // ------------------------------------------------------- the stack's codes

  lemma {:induction false} CollectAppend(k: Classes, x: seq<Value>, y: seq<Value>)
    ensures CollectAll(k, x + y) == CollectAll(k, x) + CollectAll(k, y)
    ensures SizeAll(x + y) == SizeAll(x) + SizeAll(y)
  {
    if x == [] {
      assert x + y == y;
    } else {
      assert (x + y)[1..] == x[1..] + y;
      CollectAppend(k, x[1..], y);
    }
  }

  lemma {:induction false} ContainersCarryAll(k: Classes, entries: seq<Entry>)
    ensures CollectAll(k, Containers(entries)) == CollectEntries(k, entries)
    ensures SizeAll(Containers(entries)) == SizeEntries(entries)
  {
    if entries != [] {
      var v := entries[0].value;
      ContainersCarryAll(k, entries[1..]);
      var first := if v.Dict? || v.List? then [v] else [];
      CollectAppend(k, first, Containers(entries[1..]));
      assert [v][1..] == [];
    }
  }

  function OwnCodes(k: Classes, v: Value): set<string> {
    if v.Dict? then Own(k, v.entries) else {}
  }

  /** Popping a value and pushing its children loses no code. */
  lemma PopKeepsCodes(k: Classes, stack: seq<Value>)
    requires stack != []
    ensures var top, rest := stack[|stack| - 1], stack[..|stack| - 1];
            && CollectAll(k, stack) == CollectAll(k, rest + Children(top)) + OwnCodes(k, top)
            && SizeAll(stack) == SizeAll(rest + Children(top)) + 1
  {
    var top, rest := stack[|stack| - 1], stack[..|stack| - 1];
    assert stack == rest + [top];
    CollectAppend(k, rest, [top]);
    CollectAppend(k, rest, Children(top));
    if top.Dict? {
      ContainersCarryAll(k, top.entries);
    }
    assert [top][1..] == [];
  }

  /** The codes one dictionary adds to those found so far. */
  method AddOwnCodes(k: Classes, entries: seq<Entry>, found: set<string>) returns (codes: set<string>)
    ensures codes == found + Own(k, entries)
  {
    codes := found + Code(k, Lookup(entries, "failure_code"));
    var listed := Lookup(entries, "failure_codes");
    if listed.List? {
      for i := 0 to |listed.items|
        invariant codes + Codes(k, listed.items[i..]) == found + Own(k, entries)
      {
        assert listed.items[i..][1..] == listed.items[i + 1..];
        codes := codes + Code(k, listed.items[i]);
      }
      assert listed.items[|listed.items|..] == [];
    }
  }

  /** `v` occurs in `result`, at some depth. */
  ghost predicate Occurs(result: Value, v: Value) {
    exists path :: ValueAt(result, path) == v
  }

  lemma {:induction false} StepDown(result: Value, path: seq<nat>, i: nat)
    requires i < |Parts(ValueAt(result, path))|
    ensures ValueAt(result, path + [i]) == Parts(ValueAt(result, path))[i]
    decreases |path|
  {
    if path == [] {
      assert path + [i] == [i] && [i][1..] == [];
    } else {
      assert (path + [i])[1..] == path[1..] + [i];
      StepDown(Parts(result)[path[0]], path[1..], i);
    }
  }

  lemma ChildOccurs(result: Value, v: Value, child: Value)
    requires Occurs(result, v) && child in Children(v)
    ensures Occurs(result, child)
  {
    var path :| ValueAt(result, path) == v;
    if v.Dict? {
      var i :| 0 <= i < |v.entries| && v.entries[i].value == child;
      assert Parts(v)[i] == child;
      StepDown(result, path, i);
    } else {
      var i :| 0 <= i < |v.items| && v.items[i] == child;
      StepDown(result, path, i);
    }
  }

  lemma ChildrenOccur(result: Value, v: Value)
    requires Occurs(result, v)
    ensures forall child :: child in Children(v) ==> Occurs(result, child)
  {
    forall child | child in Children(v)
      ensures Occurs(result, child)
    {
      ChildOccurs(result, v, child);
    }
  }

  /** Fewer than 20 codes, or fewer than 20 before those of one last dictionary. */
  ghost predicate BarelyFull(k: Classes, result: Value, codes: set<string>) {
    exists v, few :: Occurs(result, v) && |few| < 20 && codes == few + OwnCodes(k, v)
  }

  lemma OwnCodesMean(k: Classes, v: Value, code: string)
    ensures code in OwnCodes(k, v) <==> v.Dict? && Names(k, v.entries, code)
  {
    hide Own, Names;
    if v.Dict? {
      OwnMeans(k, v.entries, code);
    }
  }

  /** The codes and values still to come from the stack make up those of the result. */
  ghost predicate OnTheWay(k: Classes, result: Value, stack: seq<Value>, codes: set<string>, visited: nat) {
    && codes + CollectAll(k, stack) == Collect(k, result)
    && visited + SizeAll(stack) == Size(result)
    && forall v :: v in stack ==> Occurs(result, v)
  }

  lemma PopKeepsOnTheWay(k: Classes, result: Value, stack: seq<Value>, codes: set<string>, visited: nat)
    requires stack != [] && OnTheWay(k, result, stack, codes, visited)
    ensures var top, rest := stack[|stack| - 1], stack[..|stack| - 1];
            && Occurs(result, top)
            && OnTheWay(k, result, rest + Children(top), codes + OwnCodes(k, top), visited + 1)
  {
    hide Collect, CollectAll, Size, SizeAll, OwnCodes, Occurs, Children;
    PopKeepsCodes(k, stack);
    ChildrenOccur(result, stack[|stack| - 1]);
  }

  /** The loop: the codes found and the number of values popped. */
  method Traverse(k: Classes, result: Value) returns (codes: set<string>, visited: nat)
    ensures visited <= MAX_VISITED && visited <= Size(result) && codes <= Collect(k, result)
    ensures visited == Size(result) ==> codes == Collect(k, result)
    ensures visited < Size(result) ==> visited == MAX_VISITED || |codes| >= MAX_CODES
    ensures BarelyFull(k, result, codes)
  {
    hide Own, Codes, Code, OwnCodes, Containers, OnTheWay, Occurs, Collect, Size;
    codes := {};
    var stack := [result];
    visited := 0;
    StartOnTheWay(k, result);
    ghost var last, few := Scalar, codes;
    while stack != [] && |codes| < MAX_CODES && visited < MAX_VISITED
      invariant OnTheWay(k, result, stack, codes, visited) && visited <= MAX_VISITED && |few| < MAX_CODES
      invariant if visited == 0 then stack == [result] && codes == {} else Occurs(result, last) && codes == few + OwnCodes(k, last)
      decreases MAX_VISITED - visited
    {
      PopKeepsOnTheWay(k, result, stack, codes, visited);
      var current := stack[|stack| - 1];
      stack := stack[..|stack| - 1];
      visited := visited + 1;
      last, few := current, codes;
      OwnCodesAre(k, current);
      if current.Dict? {
        codes := AddOwnCodes(k, current.entries, codes);
        stack := stack + Containers(current.entries);
      } else if current.List? {
        stack := stack + current.items;
      } else {
        assert stack + [] == stack;
      }
    }
    EndOfTheWay(k, result, stack, codes, visited);
  }

  lemma StartOnTheWay(k: Classes, result: Value)
    ensures OnTheWay(k, result, [result], {}, 0)
  {
    CollectOne(k, result);
    OccursItself(result);
  }

  lemma EndOfTheWay(k: Classes, result: Value, stack: seq<Value>, codes: set<string>, visited: nat)
    requires OnTheWay(k, result, stack, codes, visited)
    ensures visited <= Size(result) && codes <= Collect(k, result)
    ensures if stack == [] then visited == Size(result) && codes == Collect(k, result) else visited < Size(result)
  {
    hide Collect, Size, Occurs;
    SizeIsPositive(stack);
    NothingLeft(k);
  }

  /** `_result_failure_codes`, with the number of values it popped. It returns
      codes of the result only, sorted; all of them unless it stopped early; and
      it cannot stop early on a result with few values and few codes. */
  method ResultFailureCodes(k: Classes, result: Value) returns (r: seq<string>, visited: nat)
    ensures visited <= 1000 && visited <= Size(result)
    ensures forall c :: c in r ==> exists path :: NamedAt(k, result, path, c)
    ensures visited == Size(result) ==> forall path, c :: NamedAt(k, result, path, c) ==> c in r
    ensures TextOrder.StrictlySorted(r) && forall c :: c in r ==> c in Collect(k, result) && Clean(k, c)
    ensures visited == Size(result) ==> r == TextOrder.Sorted(Collect(k, result))
    ensures visited < Size(result) ==> visited == 1000 || |r| >= 20
    ensures BarelyFull(k, result, set c | c in r)
    ensures Size(result) <= 1000 && |Collect(k, result)| < 20 ==> visited == Size(result)
  {
    hide Collect, Size, TextOrder.Before, Clean, NamedAt, TextOrder.StrictlySorted, TextOrder.Sorted, BarelyFull;
    CollectedIsClean(k, result);
    forall c
      ensures c in Collect(k, result) <==> exists path :: NamedAt(k, result, path, c)
    {
      CollectMeans(k, result, c);
    }
    var codes: set<string>;
    codes, visited := Traverse(k, result);
    Collections.SubsetSize(codes, Collect(k, result));
    r := TextOrder.Sorted(codes);
    TextOrder.SortedIsSorted(codes);
    TextOrder.SortedLength(codes);
    assert (set c | c in r) == codes;
  }

  lemma NothingLeft(k: Classes)
    ensures CollectAll(k, []) == {} && SizeAll([]) == 0
  {
  }

  lemma OccursItself(v: Value)
    ensures Occurs(v, v)
  {
    assert ValueAt(v, []) == v;
  }

  lemma OwnCodesAre(k: Classes, v: Value)
    ensures OwnCodes(k, v) == if v.Dict? then Own(k, v.entries) else {}
  {
  }

  lemma CollectOne(k: Classes, v: Value)
    ensures CollectAll(k, [v]) == Collect(k, v) && SizeAll([v]) == Size(v)
  {
    assert [v][1..] == [];
  }

  lemma SizeIsPositive(items: seq<Value>)
    ensures items != [] ==> SizeAll(items) > 0
  {
  }
}
