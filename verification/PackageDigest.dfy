/** The digest of a role package: the files of a directory tree, in path order,
    fed to a hash as path, NUL, content, NUL. Receipts are left out of it. */
module PackageDigest {
  import opened Binary
  import Collections

  type Path = string

  /** The files of a directory, by relative POSIX path. */
  type Tree = map<Path, Bytes>

  /** The hash, the UTF-8 encoding of paths, and the order in which paths sort. */
  datatype Rules = Rules(hash: Bytes -> string, encode: Path -> Bytes, before: (Path, Path) -> bool)

  const NUL: Byte := 0
  const RECEIPT := "role-package.receipt.json"

  /** UTF-8 distinguishes texts and yields a NUL byte only for a NUL character; the
      order is strict and total. */
  ghost predicate Lawful(g: Rules) {
    && (forall p, q :: g.encode(p) == g.encode(q) ==> p == q)
    && (forall p :: '\0' !in p ==> NUL !in g.encode(p))
    && (forall p :: !g.before(p, p))
    && (forall p, q, r :: g.before(p, q) && g.before(q, r) ==> g.before(p, r))
    && (forall p, q :: p == q || g.before(p, q) || g.before(q, p))
  }

  /** The last component of the path is the receipt's name. */
  predicate IsReceipt(p: Path) {
    p == RECEIPT || (|p| > |RECEIPT| && p[|p| - |RECEIPT| - 1..] == "/" + RECEIPT)
  }

  /** Receipts are the files whose name, after the last slash, is the receipt's. */
  lemma ReceiptMeans(p: Path)
    ensures IsReceipt(p) <==> exists i :: 0 <= i <= |p| && (i == 0 || p[i - 1] == '/') && p[i..] == RECEIPT
  {
    var n := |p| - |RECEIPT|;
    if n > 0 {
      assert p[n - 1..] == [p[n - 1]] + p[n..];
      if IsReceipt(p) {
        assert p[n - 1] == ("/" + RECEIPT)[0] && p[n..] == ("/" + RECEIPT)[1..];
      }
    } else if n == 0 {
      assert p[0..] == p;
    }
  }

  /** The characters from `i` to `j` are a component of the path. */
  ghost predicate Component(p: Path, i: nat, j: nat)
    requires i <= j <= |p|
  {
    (i == 0 || p[i - 1] == '/') && (j == |p| || p[j] == '/') && '/' !in p[i..j]
  }

  /** The relative path of a file. */
  ghost predicate IsFile(p: Path) {
    && '\0' !in p
    && forall i, j {:trigger Component(p, i, j)} ::
         0 <= i <= j <= |p| && Component(p, i, j) ==> p[i..j] != "" && p[i..j] != "." && p[i..j] != ".."
  }

  /** `q` would be in the directory `p`. */
  ghost predicate Under(p: Path, q: Path) {
    |q| > |p| && q[..|p|] == p && q[|p|] == '/'
  }

  /** `listing` is the sorted list of the tree's files; no file is also a directory. */
  ghost predicate Lists(g: Rules, t: Tree, listing: seq<Path>) {
    && (forall i, j :: 0 <= i < j < |listing| ==> g.before(listing[i], listing[j]))
    && (forall p :: p in listing <==> p in t)
    && (forall p :: p in t ==> IsFile(p))
    && (forall p, q {:trigger Under(p, q)} :: p in t && q in t ==> !Under(p, q))
  }

  function Record(g: Rules, t: Tree, p: Path): Bytes
    requires p in t
  {
    g.encode(p) + [NUL] + t[p] + [NUL]
  }

  /** The bytes fed to the hash. */
  function Stream(g: Rules, t: Tree, listing: seq<Path>): Bytes
    requires forall p :: p in listing ==> p in t
  {
    if listing == [] then []
    else
      (if IsReceipt(listing[0]) then [] else Record(g, t, listing[0])) + Stream(g, t, listing[1..])
  }

  /** `_directory_digest`, over the sorted list of files it walks. */
  method DirectoryDigest(g: Rules, t: Tree, listing: seq<Path>) returns (digest: string)
    requires Lists(g, t, listing)
    ensures digest == "sha256:" + g.hash(Stream(g, t, listing))
  {
    hide Stream, IsReceipt;
    var fed: Bytes := [];
    for k := 0 to |listing|
      invariant fed + Stream(g, t, listing[k..]) == Stream(g, t, listing)
    {
      var p := listing[k];
      StreamStep(g, t, listing, k);
      if !IsReceipt(p) {
        ghost var before := fed;
        fed := fed + g.encode(p);
        fed := fed + [NUL];
        fed := fed + t[p];
        fed := fed + [NUL];
        assert fed == before + Record(g, t, p);
      }
    }
    StreamEnds(g, t);
    assert listing[|listing|..] == [] && fed + [] == fed;
    digest := "sha256:" + g.hash(fed);
  }

  lemma StreamStep(g: Rules, t: Tree, listing: seq<Path>, k: nat)
    requires k < |listing| && forall p :: p in listing ==> p in t
    ensures Stream(g, t, listing[k..])
         == (if IsReceipt(listing[k]) then [] else Record(g, t, listing[k])) + Stream(g, t, listing[k + 1..])
  {
    assert listing[k..][1..] == listing[k + 1..];
  }

  lemma StreamEnds(g: Rules, t: Tree)
    ensures Stream(g, t, []) == []
  {
  }

  // --------------------------------------------------------- unique decoding

  /** No content holds a NUL byte. */
  ghost predicate NulFree(t: Tree) {
    forall p :: p in t ==> NUL !in t[p]
  }

  /** The files that count: all but receipts. */
  function Payload(t: Tree): Tree {
    map p | p in t && !IsReceipt(p) :: t[p]
  }

  /** A field before the first NUL is determined by the whole. */
  lemma {:induction false} FieldIsDetermined(a: Bytes, x: Bytes, b: Bytes, y: Bytes)
    requires NUL !in a && NUL !in b && a + [NUL] + x == b + [NUL] + y
    ensures a == b && x == y
  {
    var s, t := a + [NUL] + x, b + [NUL] + y;
    assert s[|a|] == NUL && t[|b|] == NUL;
    assert forall i :: 0 <= i < |a| ==> s[i] == a[i];
    assert forall i :: 0 <= i < |b| ==> t[i] == b[i];
    if |a| == |b| {
      assert a == s[..|a|] && b == t[..|b|];
      assert x == s[|a| + 1..] && y == t[|b| + 1..];
    }
  }

  /** The listed paths that count. */
  function Counted(listing: seq<Path>): seq<Path> {
    if listing == [] then []
    else (if IsReceipt(listing[0]) then [] else [listing[0]]) + Counted(listing[1..])
  }

  lemma {:induction false} CountedMembers(listing: seq<Path>)
    ensures forall p :: p in Counted(listing) <==> p in listing && !IsReceipt(p)
  {
    if listing != [] {
      CountedMembers(listing[1..]);
      assert listing == [listing[0]] + listing[1..];
    }
  }

  lemma {:induction false} StreamOfCounted(g: Rules, t: Tree, listing: seq<Path>)
    requires forall p :: p in listing ==> p in t
    ensures forall p :: p in Counted(listing) ==> p in t
    ensures Stream(g, t, listing) == Stream(g, t, Counted(listing))
  {
    CountedMembers(listing);
    if listing != [] {
      StreamOfCounted(g, t, listing[1..]);
      if !IsReceipt(listing[0]) {
        assert Counted(listing)[1..] == Counted(listing[1..]);
      } else {
        assert Counted(listing) == Counted(listing[1..]);
        assert Stream(g, t, listing) == Stream(g, t, listing[1..]);
      }
    }
  }

  lemma StreamIsNotEmpty(g: Rules, t: Tree, x: seq<Path>)
    requires x != [] && forall p :: p in x ==> p in t && !IsReceipt(p)
    ensures Stream(g, t, x) != []
  {
    assert x[0] in x;
  }

  /** The streams of two NUL-free trees determine the same paths with the same
      contents, record by record. */
  lemma {:induction false} StreamDecodes(g: Rules, t: Tree, x: seq<Path>, u: Tree, y: seq<Path>)
    requires Lawful(g) && NulFree(t) && NulFree(u)
    requires forall p :: p in x ==> p in t && !IsReceipt(p) && '\0' !in p
    requires forall p :: p in y ==> p in u && !IsReceipt(p) && '\0' !in p
    requires Stream(g, t, x) == Stream(g, u, y)
    ensures x == y && forall p :: p in x ==> t[p] == u[p]
  {
    hide IsReceipt, Record, Lawful;
    if x == [] || y == [] {
      if x != [] {
        StreamIsNotEmpty(g, t, x);
      } else if y != [] {
        StreamIsNotEmpty(g, u, y);
      }
    } else {
      HeadRecord(g, t, x);
      HeadRecord(g, u, y);
      assert x[0] in x && y[0] in y;
      RecordIsDetermined(g, t, x[0], Stream(g, t, x[1..]), u, y[0], Stream(g, u, y[1..]));
      StreamDecodes(g, t, x[1..], u, y[1..]);
      assert x == [x[0]] + x[1..] && y == [y[0]] + y[1..];
    }
  }

  lemma HeadRecord(g: Rules, t: Tree, x: seq<Path>)
    requires x != [] && forall p :: p in x ==> p in t && !IsReceipt(p)
    ensures x[0] in t && Stream(g, t, x) == Record(g, t, x[0]) + Stream(g, t, x[1..])
  {
    assert x[0] in x;
  }

  lemma RecordIsDetermined(g: Rules, t: Tree, p: Path, s: Bytes, u: Tree, q: Path, r: Bytes)
    requires Lawful(g) && p in t && q in u && NUL !in t[p] && NUL !in u[q] && '\0' !in p && '\0' !in q
    requires Record(g, t, p) + s == Record(g, u, q) + r
    ensures p == q && t[p] == u[q] && s == r
  {
    assert Record(g, t, p) + s == g.encode(p) + [NUL] + (t[p] + [NUL] + s);
    assert Record(g, u, q) + r == g.encode(q) + [NUL] + (u[q] + [NUL] + r);
    FieldIsDetermined(g.encode(p), t[p] + [NUL] + s, g.encode(q), u[q] + [NUL] + r);
    FieldIsDetermined(t[p], s, u[q], r);
  }

  /** Two NUL-free trees that feed the hash the same bytes hold the same files,
      receipts apart. */
  lemma EqualStreamsEqualFiles(g: Rules, t: Tree, x: seq<Path>, u: Tree, y: seq<Path>)
    requires Lawful(g) && NulFree(t) && NulFree(u) && Lists(g, t, x) && Lists(g, u, y)
    requires Stream(g, t, x) == Stream(g, u, y)
    ensures Payload(t) == Payload(u)
  {
    hide Stream, Lawful, IsReceipt, Payload, Counted;
    StreamOfCounted(g, t, x);
    StreamOfCounted(g, u, y);
    CountedMembers(x);
    CountedMembers(y);
    assert NulFreeNames(t, x) && NulFreeNames(u, y);
    StreamDecodes(g, t, Counted(x), u, Counted(y));
    PayloadIsCounted(t, x);
    PayloadIsCounted(u, y);
  }

  predicate NulFreeNames(t: Tree, x: seq<Path>) {
    forall p :: p in x ==> p in t && '\0' !in p
  }

  lemma PayloadIsCounted(t: Tree, x: seq<Path>)
    requires forall p :: p in x <==> p in t
    ensures forall p :: p in Payload(t) <==> p in Counted(x)
    ensures forall p :: p in Payload(t) ==> Payload(t)[p] == t[p]
  {
    CountedMembers(x);
  }

  /** Equal digests identify the files, when the hash does not collide on the two
      streams. */
  lemma EqualDigestsEqualFiles(g: Rules, t: Tree, x: seq<Path>, u: Tree, y: seq<Path>)
    requires Lawful(g) && NulFree(t) && NulFree(u) && Lists(g, t, x) && Lists(g, u, y)
    requires g.hash(Stream(g, t, x)) == g.hash(Stream(g, u, y)) ==> Stream(g, t, x) == Stream(g, u, y)
    ensures "sha256:" + g.hash(Stream(g, t, x)) == "sha256:" + g.hash(Stream(g, u, y)) ==> Payload(t) == Payload(u)
  {
    var a, b := "sha256:" + g.hash(Stream(g, t, x)), "sha256:" + g.hash(Stream(g, u, y));
    if a == b {
      assert a[7..] == g.hash(Stream(g, t, x)) && b[7..] == g.hash(Stream(g, u, y));
      EqualStreamsEqualFiles(g, t, x, u, y);
    }
  }

  // ------------------------------------------------------ which trees collide

  predicate Within(t: Tree, c: seq<Path>) {
    forall p :: p in c ==> p in t
  }

  /** Another tree, with other files that count, feeds the hash the same bytes. */
  ghost predicate Collides(g: Rules, t: Tree, x: seq<Path>, u: Tree, y: seq<Path>) {
    Lists(g, t, x) && Lists(g, u, y) && Stream(g, u, y) == Stream(g, t, x) && Payload(u) != Payload(t)
  }

  /** Sorted paths of files that count, side by side in some tree. */
  ghost predicate Counting(g: Rules, c: seq<Path>) {
    && (forall p :: p in c ==> IsFile(p) && !IsReceipt(p))
    && (forall p, q {:trigger Under(p, q)} :: p in c && q in c ==> !Under(p, q))
    && (forall i, j :: 0 <= i < j < |c| ==> g.before(c[i], c[j]))
  }

  lemma CountedIsCounting(g: Rules, t: Tree, x: seq<Path>)
    requires Lists(g, t, x)
    ensures Within(t, Counted(x)) && Counting(g, Counted(x)) && Stream(g, t, x) == Stream(g, t, Counted(x))
    ensures forall p :: p in Payload(t) <==> p in Counted(x)
    ensures forall p :: p in Payload(t) ==> Payload(t)[p] == t[p]
  {
    hide IsFile, IsReceipt, Under, Stream, Counted;
    CountedMembers(x);
    CountedStaysSorted(g, x);
    StreamOfCounted(g, t, x);
    PayloadIsCounted(t, x);
  }

  /** The content of `p` spells out the record of a file `q` that can be beside `p`. */
  ghost predicate SpellsOut(g: Rules, p: Path, content: Bytes, a: Bytes, q: Path, b: Bytes) {
    && IsFile(q) && !IsReceipt(q) && g.before(p, q) && !Under(p, q) && !Under(q, p)
    && content == a + [NUL] + g.encode(q) + [NUL] + b
  }

  /** A content with NUL bytes can spell out the record of a later path: one file is
      then indistinguishable from two. */
  lemma NulContentIsAmbiguous(g: Rules, p: Path, content: Bytes, a: Bytes, q: Path, b: Bytes)
    requires Lawful(g) && IsFile(p) && !IsReceipt(p) && SpellsOut(g, p, content, a, q, b)
    ensures var one, two := map[p := content], map[p := a, q := b];
            && Lists(g, one, [p]) && Lists(g, two, [p, q])
            && Stream(g, one, [p]) == Stream(g, two, [p, q])
            && Payload(one) != Payload(two)
  {
    hide IsReceipt, IsFile, Stream, Record;
    var one, two := map[p := content], map[p := a, q := b];
    StreamOfOne(g, one, p);
    StreamOfTwo(g, two, p, q);
    assert Record(g, one, p) == Record(g, two, p) + Record(g, two, q) by {
      RecordIs(g, one, p);
      RecordIs(g, two, p);
      RecordIs(g, two, q);
    }
    assert q in Payload(two) && q !in Payload(one);
  }

  lemma StreamOfOne(g: Rules, t: Tree, p: Path)
    requires p in t && !IsReceipt(p)
    ensures Stream(g, t, [p]) == Record(g, t, p)
  {
    hide IsReceipt, Record;
    assert [p][1..] == [];
    assert Record(g, t, p) + [] == Record(g, t, p);
  }

  lemma StreamOfTwo(g: Rules, t: Tree, p: Path, q: Path)
    requires p in t && q in t && !IsReceipt(p) && !IsReceipt(q)
    ensures Stream(g, t, [p, q]) == Record(g, t, p) + Record(g, t, q)
  {
    hide IsReceipt, Record;
    assert [p, q][1..] == [q];
    StreamOfOne(g, t, q);
  }

  /** The first two files that count, merged into one. */
  function Merged(g: Rules, t: Tree, c: seq<Path>): Tree
    requires |c| >= 2 && forall p :: p in c ==> p in t
  {
    map p | p in [c[0]] + c[2..] ::
      if p == c[0] then t[c[0]] + [NUL] + g.encode(c[1]) + [NUL] + t[c[1]] else (assert p in c; t[p])
  }

  lemma MergedCollides(g: Rules, t: Tree, c: seq<Path>)
    requires Lawful(g) && |c| >= 2 && Within(t, c) && Counting(g, c)
    ensures var u, y := Merged(g, t, c), [c[0]] + c[2..];
            Lists(g, u, y) && Stream(g, u, y) == Stream(g, t, c) && Payload(u) != Payload(t)
  {
    hide IsReceipt, Stream, Lists, Lawful, Record;
    MergedLists(g, t, c);
    MergedStream(g, t, c);
    assert c[1] in c;
    assert c[1] in Payload(t) && c[1] !in Payload(Merged(g, t, c));
  }

  lemma MergedStream(g: Rules, t: Tree, c: seq<Path>)
    requires |c| >= 2 && Within(t, c) && forall p :: p in c ==> !IsReceipt(p)
    requires forall p :: p in c[2..] ==> p in Merged(g, t, c) && Merged(g, t, c)[p] == t[p]
    requires c[0] in Merged(g, t, c)
    ensures Stream(g, Merged(g, t, c), [c[0]] + c[2..]) == Stream(g, t, c)
  {
    hide IsReceipt, Record, Stream, Merged;
    var u, y := Merged(g, t, c), [c[0]] + c[2..];
    assert c[1..][1..] == c[2..] && y[1..] == c[2..] && c[1..][0] == c[1];
    assert forall p :: p in y || p in c[1..] ==> p in c;
    HeadRecord(g, t, c);
    HeadRecord(g, t, c[1..]);
    HeadRecord(g, u, y);
    MergedRecord(g, t, c);
    SameFilesSameStream(g, t, u, c[2..]);
    var first, second, rest := Record(g, t, c[0]), Record(g, t, c[1]), Stream(g, t, c[2..]);
    assert first + second + rest == first + (second + rest);
  }

  lemma MergedRecord(g: Rules, t: Tree, c: seq<Path>)
    requires |c| >= 2 && (forall p :: p in c ==> p in t) && c[0] in t && c[1] in t
    ensures c[0] in Merged(g, t, c)
    ensures Record(g, Merged(g, t, c), c[0]) == Record(g, t, c[0]) + Record(g, t, c[1])
  {
    assert ([c[0]] + c[2..])[0] == c[0];
  }

  lemma MergedLists(g: Rules, t: Tree, c: seq<Path>)
    requires Lawful(g) && |c| >= 2 && Within(t, c) && Counting(g, c)
    ensures Lists(g, Merged(g, t, c), [c[0]] + c[2..])
    ensures c[0] in Merged(g, t, c) && c[1] !in Merged(g, t, c)
    ensures forall p :: p in c[2..] ==> p in Merged(g, t, c) && Merged(g, t, c)[p] == t[p]
  {
    hide IsFile, Under, IsReceipt, Lawful;
    OrderIsAsymmetric(g);
    var y := [c[0]] + c[2..];
    assert forall i :: 0 < i < |y| ==> y[i] == c[i + 1];
    assert forall p :: p in y ==> p in c;
    assert forall i :: 0 <= i < |y| ==> y[i] != c[1];
    assert y[0] == c[0];
    assert forall p :: p in c[2..] ==> p in y && p != c[0];
  }

  lemma NoRecordsNoStream(g: Rules, u: Tree, c: seq<Path>)
    requires (forall q :: q in c ==> q in u) && Stream(g, u, c) != []
    ensures c != []
  {
  }

  lemma EncodingHasNoNul(g: Rules, p: Path)
    requires Lawful(g) && IsFile(p)
    ensures NUL !in g.encode(p) && forall q :: g.encode(p) == g.encode(q) ==> p == q
  {
  }

  lemma OneFileIsUnique(g: Rules, t: Tree, p: Path, u: Tree, c: seq<Path>)
    requires Lawful(g) && p in t && IsFile(p) && Within(u, c) && Counting(g, c)
    requires Stream(g, u, c) == Record(g, t, p)
    ensures c != [] && c[0] == p
    ensures |c| == 1 ==> u[p] == t[p]
    ensures |c| > 1 ==> exists a, b :: SpellsOut(g, p, t[p], a, c[1], b)
  {
    hide IsReceipt, IsFile, Under, Lawful, Stream, Record, Counting, SpellsOut;
    RecordIs(g, t, p);
    NoRecordsNoStream(g, u, c);
    HeadOfCounting(g, u, c);
    var q, rest := c[0], Stream(g, u, c[1..]);
    RecordIs(g, u, q);
    assert Record(g, u, q) + rest == g.encode(q) + [NUL] + (u[q] + [NUL] + rest);
    EncodingHasNoNul(g, p);
    EncodingHasNoNul(g, q);
    FieldIsDetermined(g.encode(p), t[p] + [NUL], g.encode(q), u[q] + [NUL] + rest);
    if |c| > 1 {
      SecondRecord(g, u, c, t[p]);
    } else {
      StreamEnds(g, u);
      assert t[p] == (t[p] + [NUL])[..|t[p]|] && u[p] == (u[p] + [NUL])[..|u[p]|];
    }
  }

  lemma RecordIs(g: Rules, t: Tree, p: Path)
    requires p in t
    ensures Record(g, t, p) == g.encode(p) + [NUL] + (t[p] + [NUL])
  {
  }

  lemma HeadOfCounting(g: Rules, u: Tree, c: seq<Path>)
    requires Within(u, c) && Counting(g, c) && c != []
    ensures c[0] in u && IsFile(c[0]) && Stream(g, u, c) == Record(g, u, c[0]) + Stream(g, u, c[1..])
    ensures |c| == 1 ==> c[1..] == []
  {
    hide IsReceipt, IsFile, Under, Record, Stream;
    assert c[0] in c;
    HeadRecord(g, u, c);
  }

  lemma SecondRecord(g: Rules, u: Tree, c: seq<Path>, content: Bytes)
    requires |c| > 1 && Within(u, c) && Counting(g, c) && c[0] in u
    requires content + [NUL] == u[c[0]] + [NUL] + Stream(g, u, c[1..])
    ensures exists a, b :: SpellsOut(g, c[0], content, a, c[1], b)
  {
    hide IsReceipt, IsFile, Under, Record, Stream;
    var q := c[1];
    assert c[1..][0] == q && q in c && c[0] in c;
    HeadRecord(g, u, c[1..]);
    RecordIs(g, u, q);
    var head, tail := u[c[0]] + [NUL] + g.encode(q) + [NUL], u[q] + [NUL] + Stream(g, u, c[1..][1..]);
    assert u[c[0]] + [NUL] + Stream(g, u, c[1..]) == head + tail;
    DropLast(content, head, tail);
    assert SpellsOut(g, c[0], content, u[c[0]], q, tail[..|tail| - 1]);
  }

  lemma DropLast(s: Bytes, head: Bytes, tail: Bytes)
    requires tail != [] && s + [NUL] == head + tail
    ensures s == head + tail[..|tail| - 1]
  {
    assert s == (s + [NUL])[..|s|];
    assert (head + tail)[..|s|] == head + tail[..|tail| - 1];
  }

  lemma SplitCollides(g: Rules, t: Tree, p: Path, a: Bytes, q: Path, b: Bytes)
    requires Lawful(g) && p in t && IsFile(p) && !IsReceipt(p) && SpellsOut(g, p, t[p], a, q, b)
    ensures var u := map[p := a, q := b];
            Lists(g, u, [p, q]) && Stream(g, u, [p, q]) == Stream(g, t, [p]) && Payload(u) != Payload(t)
  {
    hide IsReceipt, IsFile, Under, Stream;
    NulContentIsAmbiguous(g, p, t[p], a, q, b);
    SameFilesSameStream(g, t, map[p := t[p]], [p]);
    assert p in Payload(t) && Payload(t)[p] == t[p];
    assert p in Payload(map[p := a, q := b]) && Payload(map[p := a, q := b])[p] == a;
    assert |t[p]| > |a|;
  }

  lemma UniqueStream(g: Rules, t: Tree, c: seq<Path>, u: Tree, d: seq<Path>)
    requires Lawful(g) && Within(t, c) && Counting(g, c) && Within(u, d) && Counting(g, d)
    requires Stream(g, u, d) == Stream(g, t, c) && |c| <= 1
    requires |c| == 1 ==> forall a, q, b :: !SpellsOut(g, c[0], t[c[0]], a, q, b)
    ensures d == c && forall p :: p in c ==> u[p] == t[p]
  {
    hide IsReceipt, IsFile, Under, Lawful, Stream, Record, SpellsOut, Counting;
    if c == [] {
      StreamEnds(g, t);
      if d != [] {
        CountingIsNotEmpty(g, u, d);
      }
    } else {
      HeadOfCounting(g, t, c);
      StreamEnds(g, t);
      OneFileIsUnique(g, t, c[0], u, d);
      assert d == c;
    }
  }

  lemma CountingIsNotEmpty(g: Rules, t: Tree, c: seq<Path>)
    requires Within(t, c) && Counting(g, c) && c != []
    ensures Stream(g, t, c) != []
  {
    hide IsReceipt, IsFile, Under, Stream;
    StreamIsNotEmpty(g, t, c);
  }

  /** No other files have the stream of this tree if and only if at most one file
      counts and its content does not spell out the record of another. */
  lemma StreamIsUniqueIff(g: Rules, t: Tree, x: seq<Path>)
    requires Lawful(g) && Lists(g, t, x)
    ensures (forall u, y :: !Collides(g, t, x, u, y)) <==>
            |Counted(x)| == 0 ||
            (|Counted(x)| == 1 && Counted(x)[0] in t &&
             forall a, q, b :: !SpellsOut(g, Counted(x)[0], t[Counted(x)[0]], a, q, b))
  {
    hide IsReceipt, IsFile, Under, Lawful, Stream, Record, SpellsOut, Payload, Counting, Counted, Lists, Merged;
    var c := Counted(x);
    CountedIsCounting(g, t, x);
    if |c| >= 2 {
      MergedCollides(g, t, c);
      assert Collides(g, t, x, Merged(g, t, c), [c[0]] + c[2..]);
    } else if a, q, b :| |c| == 1 && SpellsOut(g, c[0], t[c[0]], a, q, b) {
      CountingHead(g, c);
      SplitCollides(g, t, c[0], a, q, b);
      assert c == [c[0]];
      assert Collides(g, t, x, map[c[0] := a, q := b], [c[0], q]);
    } else {
      forall u, y
        ensures !Collides(g, t, x, u, y)
      {
        if Collides(g, t, x, u, y) {
          CountedIsCounting(g, u, y);
          UniqueStream(g, t, c, u, Counted(y));
        }
      }
    }
  }

  lemma CountingHead(g: Rules, c: seq<Path>)
    requires Counting(g, c) && c != []
    ensures IsFile(c[0]) && !IsReceipt(c[0])
  {
    hide IsReceipt, IsFile, Under;
    assert c[0] in c;
  }

  // ----------------------------------------------------------------- receipts

  lemma OrderIsAsymmetric(g: Rules)
    requires Lawful(g)
    ensures Collections.Asymmetric(g.before)
  {
  }

  lemma {:induction false} CountedStaysSorted(g: Rules, x: seq<Path>)
    requires forall i, j :: 0 <= i < j < |x| ==> g.before(x[i], x[j])
    ensures forall i, j :: 0 <= i < j < |Counted(x)| ==> g.before(Counted(x)[i], Counted(x)[j])
  {
    if x != [] {
      CountedStaysSorted(g, x[1..]);
      CountedMembers(x[1..]);
      forall j | 0 <= j < |Counted(x[1..])|
        ensures g.before(x[0], Counted(x[1..])[j])
      {
        assert Counted(x[1..])[j] in x[1..];
      }
    }
  }

  lemma {:induction false} SameFilesSameStream(g: Rules, t: Tree, u: Tree, x: seq<Path>)
    requires forall p :: p in x ==> p in t && p in u && t[p] == u[p]
    ensures Stream(g, t, x) == Stream(g, u, x)
  {
    if x != [] {
      SameFilesSameStream(g, t, u, x[1..]);
      assert x[0] in x;
    }
  }

  /** The digest depends on the files that count only: trees that agree apart from
      receipts have the same digest. */
  lemma ReceiptsDoNotCount(g: Rules, t: Tree, x: seq<Path>, u: Tree, y: seq<Path>)
    requires Lawful(g) && Lists(g, t, x) && Lists(g, u, y) && Payload(t) == Payload(u)
    ensures Stream(g, t, x) == Stream(g, u, y)
  {
    hide Stream, Lawful;
    StreamOfCounted(g, t, x);
    StreamOfCounted(g, u, y);
    CountedMembers(x);
    CountedMembers(y);
    CountedStaysSorted(g, x);
    CountedStaysSorted(g, y);
    forall p
      ensures p in Counted(x) <==> p in Counted(y)
    {
      assert p in Payload(t) <==> p in Counted(x);
      assert p in Payload(u) <==> p in Counted(y);
    }
    OrderIsAsymmetric(g);
    Collections.OrderIsUnique(g.before, Counted(x), Counted(y));
    forall p | p in Counted(x)
      ensures p in t && p in u && t[p] == u[p]
    {
      assert p in Payload(t) && Payload(t)[p] == Payload(u)[p];
    }
    SameFilesSameStream(g, t, u, Counted(x));
  }

  /** The end of `materialize`: digest the tree, then write the receipt that
      records it, once more inside the package of a Python role. Digesting the
      finished tree gives the recorded digest. */
  method WriteReceipts(g: Rules, t: Tree, listing: seq<Path>, python: bool, receipt: string -> Bytes)
    returns (finished: Tree, recorded: string)
    requires Lawful(g) && Lists(g, t, listing)
    ensures recorded == "sha256:" + g.hash(Stream(g, t, listing))
    ensures finished.Keys == t.Keys + {RECEIPT} + if python then {"plastic_promise/" + RECEIPT} else {}
    ensures forall p :: p in finished ==>
              finished[p] == if p == RECEIPT || (python && p == "plastic_promise/" + RECEIPT) then receipt(recorded) else t[p]
    ensures Payload(finished) == Payload(t)
    ensures forall after :: Lists(g, finished, after) ==> recorded == "sha256:" + g.hash(Stream(g, finished, after))
  {
    hide Stream, Lawful, IsReceipt, Payload;
    recorded := DirectoryDigest(g, t, listing);
    var inner := "plastic_promise/" + RECEIPT;
    ReceiptNames(inner);
    finished := t[RECEIPT := receipt(recorded)];
    AddReceipt(t, RECEIPT, receipt(recorded));
    if python {
      AddReceipt(finished, inner, receipt(recorded));
      finished := finished[inner := receipt(recorded)];
    }
    forall after | Lists(g, finished, after)
      ensures Stream(g, finished, after) == Stream(g, t, listing)
    {
      ReceiptsDoNotCount(g, finished, after, t, listing);
    }
  }

  lemma ReceiptNames(inner: Path)
    requires inner == "plastic_promise/" + RECEIPT
    ensures IsReceipt(RECEIPT) && IsReceipt(inner) && inner != RECEIPT
  {
    assert inner[|inner| - |RECEIPT| - 1..] == "/" + RECEIPT;
  }

  lemma AddReceipt(t: Tree, p: Path, content: Bytes)
    requires IsReceipt(p)
    ensures Payload(t[p := content]) == Payload(t)
  {
  }
}
