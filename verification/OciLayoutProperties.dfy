/** What an accepted OCI layout guarantees: every descriptor is backed by its
    blob, the images found are exactly the manifests reached, and the root digest
    alone determines them. */
module OciLayoutProperties {
  import opened OciLayout
  import opened Wrappers

  // ------------------------------------------------ what a descriptor names

  /** The archive holds, under the descriptor's digest, bytes of the declared
      size and digest. */
  ghost predicate Backed(c: Codec, a: Archive, d: Fields) {
    && DigestOf(d).Ok? && SizeOf(d).Ok?
    && var name := BlobName(DigestOf(d).value);
    && name in a && a[name].regular
    && a[name].size == |a[name].content| == SizeOf(d).value
    && "sha256:" + c.hash(a[name].content) == DigestOf(d).value
  }

  /** The JSON object behind a descriptor. */
  ghost function Document(c: Codec, a: Archive, d: Fields): Option<Fields> {
    if !Backed(c, a, d) then None
    else
      match c.decode(a[BlobName(DigestOf(d).value)].content)
      case Some(Obj(doc)) => Some(doc)
      case _ => None
  }

  ghost predicate LayersBacked(c: Codec, a: Archive, layers: seq<Json>) {
    forall i :: 0 <= i < |layers| ==> layers[i].Obj? && Backed(c, a, layers[i].fields)
  }

  /** The platform and image of an image manifest whose config and layers are all
      in place, for one of the two allowed platforms. */
  ghost function ManifestEntry(c: Codec, a: Archive, n: Node): Option<(string, Image)> {
    if IsAttestation(n.d) || Document(c, a, n.d).None? then None
    else
      var doc := Document(c, a, n.d).value;
      if Get(doc, "manifests") != Null || !Get(doc, "config").Obj? || !Get(doc, "layers").Arr? then None
      else
        var config := Document(c, a, Get(doc, "config").fields);
        if config.None? || !LayersBacked(c, a, Get(doc, "layers").items) then None
        else
          var platform := ManifestPlatform(n, config.value);
          var labels := LabelsOf(config.value);
          if platform.Err? || platform.value !in PLATFORMS || labels.Err? then None
          else Some((platform.value, Image(DigestOf(n.d).value, labels.value)))
  }

  /** The descriptors listed by an image index; none for any other document. */
  ghost function Items(c: Codec, a: Archive, n: Node): seq<Json> {
    if IsAttestation(n.d) || Document(c, a, n.d).None? then []
    else
      var listed := Get(Document(c, a, n.d).value, "manifests");
      if listed.Arr? then listed.items else []
  }

  function ItemNode(item: Json, hint: Option<string>): Option<Node> {
    if !item.Obj? || PlatformOf(item.fields).Err? then None
    else Some(Node(item.fields, Or(PlatformOf(item.fields).value, hint)))
  }

  ghost predicate AllNodes(items: seq<Json>, hint: Option<string>) {
    forall i :: 0 <= i < |items| ==> ItemNode(items[i], hint).Some?
  }

  /** A backed attestation, a non-empty image index, or a complete image manifest. */
  ghost predicate Fine(c: Codec, a: Archive, n: Node) {
    && Backed(c, a, n.d)
    && (IsAttestation(n.d)
        || (Items(c, a, n) != [] && AllNodes(Items(c, a, n), n.hint))
        || ManifestEntry(c, a, n).Some?)
  }

  // -------------------------------------------------------- reaching nodes

  /** The node that the child numbers `path` lead to from a list of descriptors. */
  ghost function NodeAt(c: Codec, a: Archive, items: seq<Json>, hint: Option<string>, path: seq<nat>): Option<Node>
    decreases |path|
  {
    if path == [] || path[0] >= |items| || ItemNode(items[path[0]], hint).None? then None
    else
      var n := ItemNode(items[path[0]], hint).value;
      if |path| == 1 then Some(n) else NodeAt(c, a, Items(c, a, n), n.hint, path[1..])
  }

  ghost function EntryAt(c: Codec, a: Archive, items: seq<Json>, hint: Option<string>, path: seq<nat>):
    Option<(string, Image)>
  {
    var n := NodeAt(c, a, items, hint, path);
    if n.None? then None else ManifestEntry(c, a, n.value)
  }

  lemma NodeAtHead(c: Codec, a: Archive, items: seq<Json>, hint: Option<string>, path: seq<nat>)
    requires items != [] && path != [] && ItemNode(items[0], hint).Some?
    ensures path[0] == 0 && |path| == 1 ==> NodeAt(c, a, items, hint, path) == ItemNode(items[0], hint)
    ensures path[0] == 0 && |path| > 1 ==>
              var n := ItemNode(items[0], hint).value;
              NodeAt(c, a, items, hint, path) == NodeAt(c, a, Items(c, a, n), n.hint, path[1..])
    ensures path[0] > 0 ==>
              NodeAt(c, a, items, hint, path) == NodeAt(c, a, items[1..], hint, [path[0] - 1] + path[1..])
  {
    if path[0] > 0 {
      var q := [path[0] - 1] + path[1..];
      assert q[1..] == path[1..];
      assert path[0] < |items| ==> items[path[0]] == items[1..][q[0]];
    }
  }

  lemma NodeAtPrefixed(c: Codec, a: Archive, items: seq<Json>, hint: Option<string>, q: seq<nat>)
    requires items != [] && ItemNode(items[0], hint).Some?
    ensures var n := ItemNode(items[0], hint).value;
            q != [] ==> NodeAt(c, a, items, hint, [0] + q) == NodeAt(c, a, Items(c, a, n), n.hint, q)
    ensures q != [] ==>
            NodeAt(c, a, items, hint, [q[0] + 1] + q[1..]) == NodeAt(c, a, items[1..], hint, q)
  {
    assert ([0] + q)[1..] == q;
    NodeAtHead(c, a, items, hint, [0] + q);
    if q != [] {
      NodeAtHead(c, a, items, hint, [q[0] + 1] + q[1..]);
      assert [q[0]] + ([q[0] + 1] + q[1..])[1..] == q;
    }
  }

  // --------------------------------------------------- acceptance, declared

  /** Every position below `items` holds a fine node, at most `fuel` deep. */
  ghost predicate AllFine(c: Codec, a: Archive, items: seq<Json>, hint: Option<string>, fuel: nat) {
    && AllNodes(items, hint)
    && forall path :: NodeAt(c, a, items, hint, path).Some? ==>
         |path| <= fuel && Fine(c, a, NodeAt(c, a, items, hint, path).value)
  }

  /** No two positions hold manifests for the same platform. */
  ghost predicate OnePerPlatform(c: Codec, a: Archive, items: seq<Json>, hint: Option<string>) {
    forall p, q | EntryAt(c, a, items, hint, p).Some? && EntryAt(c, a, items, hint, q).Some? ::
      EntryAt(c, a, items, hint, p).value.0 == EntryAt(c, a, items, hint, q).value.0 ==> p == q
  }

  ghost predicate AllNew(c: Codec, a: Archive, items: seq<Json>, hint: Option<string>, images: Images) {
    forall p :: EntryAt(c, a, items, hint, p).Some? ==> EntryAt(c, a, items, hint, p).value.0 !in images
  }

  /** `m` is `images` together with every manifest entry below `items`. */
  ghost predicate Collected(c: Codec, a: Archive, items: seq<Json>, hint: Option<string>, images: Images, m: Images) {
    && (forall p :: p in images ==> p in m && m[p] == images[p])
    && (forall path :: EntryAt(c, a, items, hint, path).Some? ==>
          var e := EntryAt(c, a, items, hint, path).value;
          e.0 in m && m[e.0] == e.1)
    && (forall p :: p in m && p !in images ==>
          exists path :: EntryAt(c, a, items, hint, path) == Some((p, m[p])))
  }

  lemma BlobIffBacked(c: Codec, a: Archive, d: Fields)
    ensures Blob(c, a, d).Ok? <==> Backed(c, a, d)
    ensures BlobJson(c, a, d).Ok? <==> Document(c, a, d).Some?
    ensures BlobJson(c, a, d).Ok? ==> BlobJson(c, a, d).value == Document(c, a, d).value
  {
  }

  lemma {:induction false} LayersIffBacked(c: Codec, a: Archive, layers: seq<Json>)
    ensures VerifyLayers(c, a, layers).Ok? <==> LayersBacked(c, a, layers)
  {
    if layers != [] {
      LayersIffBacked(c, a, layers[1..]);
      assert forall i :: 0 < i < |layers| ==> layers[i] == layers[1..][i - 1];
      if layers[0].Obj? {
        BlobIffBacked(c, a, layers[0].fields);
      }
    }
  }

  /** Visiting a manifest adds exactly its entry, and fails only when it is not a
      complete manifest or its platform is taken. */
  lemma VisitManifestMeans(c: Codec, a: Archive, n: Node, images: Images)
    requires !IsAttestation(n.d) && Document(c, a, n.d).Some?
    requires Get(Document(c, a, n.d).value, "manifests") == Null
    ensures var e := ManifestEntry(c, a, n);
            var r := VisitManifest(c, a, n, Document(c, a, n.d).value, images);
            && (r.Ok? <==> e.Some? && e.value.0 !in images)
            && (r.Ok? ==> r.value == images[e.value.0 := e.value.1])
  {
    var doc := Document(c, a, n.d).value;
    if Get(doc, "config").Obj? && Get(doc, "layers").Arr? {
      BlobIffBacked(c, a, Get(doc, "config").fields);
      LayersIffBacked(c, a, Get(doc, "layers").items);
    }
  }

  // ----------------------------------------------------- the walk collects

  /** What visiting one node established: about the node and about what it lists. */
  ghost predicate Visited(c: Codec, a: Archive, n: Node, images: Images, m: Images, fuel: nat) {
    && fuel >= 1 && Fine(c, a, n)
    && match ManifestEntry(c, a, n)
       case Some(e) => e.0 !in images && m == images[e.0 := e.1]
       case None => Walked(c, a, Items(c, a, n), n.hint, images, m, fuel - 1)
  }

  ghost predicate Walked(c: Codec, a: Archive, items: seq<Json>, hint: Option<string>, images: Images, m: Images, fuel: nat) {
    && AllFine(c, a, items, hint, fuel) && OnePerPlatform(c, a, items, hint)
    && AllNew(c, a, items, hint, images) && Collected(c, a, items, hint, images, m)
  }

  /** A position below `items` lies under the first node or under the others. */
  lemma SplitPosition(c: Codec, a: Archive, items: seq<Json>, hint: Option<string>, path: seq<nat>) returns (q: seq<nat>)
    requires items != [] && ItemNode(items[0], hint).Some? && path != []
    ensures path[0] == 0 && q == [] ==> path == [0] && NodeAt(c, a, items, hint, path) == ItemNode(items[0], hint)
    ensures path[0] == 0 && q != [] ==>
              var n := ItemNode(items[0], hint).value;
              NodeAt(c, a, items, hint, path) == NodeAt(c, a, Items(c, a, n), n.hint, q) && path == [0] + q
    ensures path[0] > 0 ==> q != [] && NodeAt(c, a, items, hint, path) == NodeAt(c, a, items[1..], hint, q)
                            && path == [q[0] + 1] + q[1..]
  {
    NodeAtHead(c, a, items, hint, path);
    q := if path[0] == 0 then path[1..] else [path[0] - 1] + path[1..];
  }

  lemma ManifestListsNothing(c: Codec, a: Archive, n: Node)
    requires ManifestEntry(c, a, n).Some?
    ensures Items(c, a, n) == []
  {
  }

  lemma JoinFine(c: Codec, a: Archive, items: seq<Json>, hint: Option<string>, images: Images, m1: Images, m: Images, fuel: nat)
    requires items != [] && ItemNode(items[0], hint).Some?
    requires Visited(c, a, ItemNode(items[0], hint).value, images, m1, fuel)
    requires Walked(c, a, items[1..], hint, m1, m, fuel)
    ensures AllFine(c, a, items, hint, fuel)
  {
    var n := ItemNode(items[0], hint).value;
    assert forall i :: 0 < i < |items| ==> items[i] == items[1..][i - 1];
    forall path | NodeAt(c, a, items, hint, path).Some?
      ensures |path| <= fuel && Fine(c, a, NodeAt(c, a, items, hint, path).value)
    {
      var q := SplitPosition(c, a, items, hint, path);
      if path[0] == 0 && q != [] && ManifestEntry(c, a, n).Some? {
        ManifestListsNothing(c, a, n);
      }
    }
  }

  /** Where an entry below `items` comes from. */
  lemma SplitEntry(c: Codec, a: Archive, items: seq<Json>, hint: Option<string>, images: Images, m1: Images, m: Images,
                   fuel: nat, path: seq<nat>) returns (q: seq<nat>)
    requires items != [] && ItemNode(items[0], hint).Some?
    requires Visited(c, a, ItemNode(items[0], hint).value, images, m1, fuel)
    requires Walked(c, a, items[1..], hint, m1, m, fuel)
    requires EntryAt(c, a, items, hint, path).Some?
    ensures path != []
    ensures var e, n := EntryAt(c, a, items, hint, path).value, ItemNode(items[0], hint).value;
            if path[0] > 0 then
              q != [] && path == [q[0] + 1] + q[1..] && EntryAt(c, a, items[1..], hint, q) == Some(e) && e.0 !in m1
            else
              && path == [0] + q && e.0 !in images && e.0 in m1 && m1[e.0] == e.1
              && if q == [] then ManifestEntry(c, a, n) == Some(e)
                 else ManifestEntry(c, a, n).None? && EntryAt(c, a, Items(c, a, n), n.hint, q) == Some(e)
  {
    hide ManifestEntry, Items, Fine, ItemNode;
    q := SplitPosition(c, a, items, hint, path);
    var n := ItemNode(items[0], hint).value;
    if path[0] == 0 && q != [] {
      if ManifestEntry(c, a, n).Some? {
        ManifestListsNothing(c, a, n);
      } else {
        assert Walked(c, a, Items(c, a, n), n.hint, images, m1, fuel - 1);
        assert EntryAt(c, a, Items(c, a, n), n.hint, q) == EntryAt(c, a, items, hint, path);
      }
    }
  }

  lemma JoinUnique(c: Codec, a: Archive, items: seq<Json>, hint: Option<string>, images: Images, m1: Images, m: Images, fuel: nat)
    requires items != [] && ItemNode(items[0], hint).Some?
    requires Visited(c, a, ItemNode(items[0], hint).value, images, m1, fuel)
    requires Walked(c, a, items[1..], hint, m1, m, fuel)
    requires forall p :: p in images ==> p in m1 && m1[p] == images[p]
    ensures OnePerPlatform(c, a, items, hint) && AllNew(c, a, items, hint, images)
  {
    hide ManifestEntry, Items, Fine, ItemNode;
    forall p | EntryAt(c, a, items, hint, p).Some?
      ensures EntryAt(c, a, items, hint, p).value.0 !in images
    {
      var q := SplitEntry(c, a, items, hint, images, m1, m, fuel, p);
    }
    forall p, p' | EntryAt(c, a, items, hint, p).Some? && EntryAt(c, a, items, hint, p').Some?
      ensures EntryAt(c, a, items, hint, p).value.0 == EntryAt(c, a, items, hint, p').value.0 ==> p == p'
    {
      var q := SplitEntry(c, a, items, hint, images, m1, m, fuel, p);
      var q' := SplitEntry(c, a, items, hint, images, m1, m, fuel, p');
    }
  }

  lemma JoinCollected(c: Codec, a: Archive, items: seq<Json>, hint: Option<string>, images: Images, m1: Images, m: Images, fuel: nat)
    requires items != [] && ItemNode(items[0], hint).Some?
    requires Visited(c, a, ItemNode(items[0], hint).value, images, m1, fuel)
    requires Walked(c, a, items[1..], hint, m1, m, fuel)
    requires forall p :: p in images ==> p in m1 && m1[p] == images[p]
    ensures Collected(c, a, items, hint, images, m)
  {
    hide ManifestEntry, Items, Fine, ItemNode, AllFine, OnePerPlatform;
    forall path | EntryAt(c, a, items, hint, path).Some?
      ensures var e := EntryAt(c, a, items, hint, path).value;
              e.0 in m && m[e.0] == e.1
    {
      var q := SplitEntry(c, a, items, hint, images, m1, m, fuel, path);
    }
    forall p | p in m && p !in images
      ensures exists path :: EntryAt(c, a, items, hint, path) == Some((p, m[p]))
    {
      var path := FindEntry(c, a, items, hint, images, m1, m, fuel, p);
    }
  }

  /** A platform that the walk added has a manifest somewhere below `items`. */
  lemma FindEntry(c: Codec, a: Archive, items: seq<Json>, hint: Option<string>, images: Images, m1: Images, m: Images,
                  fuel: nat, p: string) returns (path: seq<nat>)
    requires items != [] && ItemNode(items[0], hint).Some?
    requires Visited(c, a, ItemNode(items[0], hint).value, images, m1, fuel)
    requires Walked(c, a, items[1..], hint, m1, m, fuel)
    requires p in m && p !in images
    ensures EntryAt(c, a, items, hint, path) == Some((p, m[p]))
  {
    hide ManifestEntry, Items, Fine, ItemNode, AllFine, OnePerPlatform, AllNew, Visited;
    if p in m1 {
      path := FirstTook(c, a, items, hint, images, m1, fuel, p);
    } else {
      var q :| EntryAt(c, a, items[1..], hint, q) == Some((p, m[p]));
      NodeAtPrefixed(c, a, items, hint, q);
      path := [q[0] + 1] + q[1..];
    }
  }

  /** A platform taken by the first node has a manifest at or below it. */
  lemma FirstTook(c: Codec, a: Archive, items: seq<Json>, hint: Option<string>, images: Images, m1: Images, fuel: nat, p: string)
    returns (path: seq<nat>)
    requires items != [] && ItemNode(items[0], hint).Some?
    requires Visited(c, a, ItemNode(items[0], hint).value, images, m1, fuel)
    requires p in m1
    ensures p in images || (path != [] && path[0] == 0 && EntryAt(c, a, items, hint, path) == Some((p, m1[p])))
  {
    hide ManifestEntry, Items, Fine, ItemNode, AllFine, OnePerPlatform, AllNew;
    var n := ItemNode(items[0], hint).value;
    path := [0];
    if p !in images {
      if ManifestEntry(c, a, n).Some? {
        NodeAtHead(c, a, items, hint, path);
      } else {
        var q :| EntryAt(c, a, Items(c, a, n), n.hint, q) == Some((p, m1[p]));
        NodeAtPrefixed(c, a, items, hint, q);
        path := [0] + q;
      }
    }
  }

  lemma {:induction false} VisitCollects(c: Codec, a: Archive, n: Node, images: Images, fuel: nat)
    requires Visit(c, a, n, images, fuel).Ok?
    ensures Visited(c, a, n, images, Visit(c, a, n, images, fuel).value, fuel)
    decreases fuel, 0
  {
    BlobIffBacked(c, a, n.d);
    if IsAttestation(n.d) {
      WalkCollects(c, a, [], n.hint, images, fuel - 1);
    } else {
      var listed := Get(Document(c, a, n.d).value, "manifests");
      if listed == Null {
        VisitManifestMeans(c, a, n, images);
      } else {
        WalkCollects(c, a, listed.items, n.hint, images, fuel - 1);
      }
    }
  }

  lemma EmptyWalk(c: Codec, a: Archive, hint: Option<string>, images: Images, fuel: nat)
    ensures Walked(c, a, [], hint, images, images, fuel)
  {
    hide ManifestEntry, Items, Fine, ItemNode;
  }

  lemma VisitedKeeps(c: Codec, a: Archive, n: Node, images: Images, m: Images, fuel: nat)
    requires Visited(c, a, n, images, m, fuel)
    ensures forall p :: p in images ==> p in m && m[p] == images[p]
  {
    hide ManifestEntry, Items, Fine, AllFine, OnePerPlatform, AllNew;
  }

  /** The results for the first node and for the others combine. */
  lemma JoinWalked(c: Codec, a: Archive, items: seq<Json>, hint: Option<string>, images: Images, m1: Images, m: Images, fuel: nat)
    requires items != [] && ItemNode(items[0], hint).Some?
    requires Visited(c, a, ItemNode(items[0], hint).value, images, m1, fuel)
    requires Walked(c, a, items[1..], hint, m1, m, fuel)
    ensures Walked(c, a, items, hint, images, m, fuel)
  {
    hide ManifestEntry, Items, Fine, ItemNode, AllFine, OnePerPlatform, AllNew, Collected, Visited;
    VisitedKeeps(c, a, ItemNode(items[0], hint).value, images, m1, fuel);
    JoinFine(c, a, items, hint, images, m1, m, fuel);
    JoinUnique(c, a, items, hint, images, m1, m, fuel);
    JoinCollected(c, a, items, hint, images, m1, m, fuel);
  }

  /** An accepted walk reached only fine nodes, and its map holds exactly one
      entry per image manifest reached. */
  lemma {:induction false} WalkCollects(c: Codec, a: Archive, items: seq<Json>, hint: Option<string>, images: Images, fuel: nat)
    requires VisitItems(c, a, items, hint, images, fuel).Ok?
    ensures Walked(c, a, items, hint, images, VisitItems(c, a, items, hint, images, fuel).value, fuel)
    decreases fuel, 1 + |items|
  {
    hide Walked, Visited, Visit;
    if items == [] {
      EmptyWalk(c, a, hint, images, fuel);
    } else {
      var n := ItemNode(items[0], hint).value;
      var m1 := Visit(c, a, n, images, fuel).value;
      VisitCollects(c, a, n, images, fuel);
      WalkCollects(c, a, items[1..], hint, m1, fuel);
      JoinWalked(c, a, items, hint, images, m1, VisitItems(c, a, items, hint, images, fuel).value, fuel);
    }
  }

  // ----------------------------------------------------- the walk accepts

  lemma {:induction false} VisitAccepts(c: Codec, a: Archive, n: Node, images: Images, fuel: nat)
    requires fuel >= 1 && Fine(c, a, n)
    requires ManifestEntry(c, a, n).Some? ==> ManifestEntry(c, a, n).value.0 !in images
    requires ManifestEntry(c, a, n).None? ==>
               && AllFine(c, a, Items(c, a, n), n.hint, fuel - 1)
               && OnePerPlatform(c, a, Items(c, a, n), n.hint) && AllNew(c, a, Items(c, a, n), n.hint, images)
    ensures Visit(c, a, n, images, fuel).Ok?
    decreases fuel, 0
  {
    BlobIffBacked(c, a, n.d);
    if !IsAttestation(n.d) {
      if Get(Document(c, a, n.d).value, "manifests") == Null {
        VisitManifestMeans(c, a, n, images);
      } else {
        WalkAccepts(c, a, Items(c, a, n), n.hint, images, fuel - 1);
      }
    }
  }

  lemma ListedNodes(c: Codec, a: Archive, n: Node)
    requires Fine(c, a, n)
    ensures AllNodes(Items(c, a, n), n.hint)
  {
  }

  lemma FirstNodeFine(c: Codec, a: Archive, items: seq<Json>, hint: Option<string>, fuel: nat)
    requires items != [] && AllFine(c, a, items, hint, fuel)
    ensures ItemNode(items[0], hint).Some?
    ensures var n := ItemNode(items[0], hint).value;
            fuel >= 1 && Fine(c, a, n) && AllFine(c, a, Items(c, a, n), n.hint, fuel - 1)
  {
    hide ManifestEntry, Items, ItemNode, Fine;
    var n := ItemNode(items[0], hint).value;
    NodeAtHead(c, a, items, hint, [0]);
    assert NodeAt(c, a, items, hint, [0]) == Some(n);
    ListedNodes(c, a, n);
    forall q | NodeAt(c, a, Items(c, a, n), n.hint, q).Some?
      ensures |q| <= fuel - 1 && Fine(c, a, NodeAt(c, a, Items(c, a, n), n.hint, q).value)
    {
      NodeAtPrefixed(c, a, items, hint, q);
      assert NodeAt(c, a, items, hint, [0] + q).Some?;
    }
  }

  lemma FirstNodeEntries(c: Codec, a: Archive, items: seq<Json>, hint: Option<string>, images: Images)
    requires items != [] && ItemNode(items[0], hint).Some?
    requires OnePerPlatform(c, a, items, hint) && AllNew(c, a, items, hint, images)
    ensures var n := ItemNode(items[0], hint).value;
            && (ManifestEntry(c, a, n).Some? ==> ManifestEntry(c, a, n).value.0 !in images)
            && OnePerPlatform(c, a, Items(c, a, n), n.hint) && AllNew(c, a, Items(c, a, n), n.hint, images)
  {
    hide ManifestEntry, Items, ItemNode;
    var n := ItemNode(items[0], hint).value;
    NodeAtHead(c, a, items, hint, [0]);
    assert EntryAt(c, a, items, hint, [0]) == ManifestEntry(c, a, n);
    forall q | EntryAt(c, a, Items(c, a, n), n.hint, q).Some?
      ensures EntryAt(c, a, items, hint, [0] + q) == EntryAt(c, a, Items(c, a, n), n.hint, q)
      ensures EntryAt(c, a, Items(c, a, n), n.hint, q).value.0 !in images
    {
      NodeAtPrefixed(c, a, items, hint, q);
    }
    forall p, q | EntryAt(c, a, Items(c, a, n), n.hint, p).Some? && EntryAt(c, a, Items(c, a, n), n.hint, q).Some?
      ensures EntryAt(c, a, Items(c, a, n), n.hint, p).value.0 == EntryAt(c, a, Items(c, a, n), n.hint, q).value.0 ==> p == q
    {
      assert ([0] + p)[1..] == p && ([0] + q)[1..] == q;
      assert EntryAt(c, a, items, hint, [0] + p).Some? && EntryAt(c, a, items, hint, [0] + q).Some?;
    }
  }

  lemma OtherNodesFine(c: Codec, a: Archive, items: seq<Json>, hint: Option<string>, fuel: nat)
    requires items != [] && AllFine(c, a, items, hint, fuel)
    ensures AllFine(c, a, items[1..], hint, fuel)
  {
    hide ManifestEntry, Items, ItemNode, Fine;
    assert ItemNode(items[0], hint).Some?;
    forall q | NodeAt(c, a, items[1..], hint, q).Some?
      ensures |q| <= fuel && Fine(c, a, NodeAt(c, a, items[1..], hint, q).value)
    {
      NodeAtPrefixed(c, a, items, hint, q);
      assert NodeAt(c, a, items, hint, [q[0] + 1] + q[1..]).Some?;
    }
  }

  /** Where the entry that took a platform sits below `items`. */
  lemma OtherNodesEntries(c: Codec, a: Archive, items: seq<Json>, hint: Option<string>, images: Images, m1: Images, fuel: nat)
    requires items != [] && ItemNode(items[0], hint).Some?
    requires OnePerPlatform(c, a, items, hint) && AllNew(c, a, items, hint, images)
    requires Visited(c, a, ItemNode(items[0], hint).value, images, m1, fuel)
    ensures OnePerPlatform(c, a, items[1..], hint) && AllNew(c, a, items[1..], hint, m1)
  {
    hide ManifestEntry, Items, ItemNode, Fine, AllFine, Visited;
    forall q | EntryAt(c, a, items[1..], hint, q).Some?
      ensures q != [] && EntryAt(c, a, items, hint, [q[0] + 1] + q[1..]) == EntryAt(c, a, items[1..], hint, q)
      ensures EntryAt(c, a, items[1..], hint, q).value.0 !in m1
    {
      NodeAtPrefixed(c, a, items, hint, q);
      var p := EntryAt(c, a, items[1..], hint, q).value.0;
      assert EntryAt(c, a, items, hint, [q[0] + 1] + q[1..]).value.0 == p;
      if p in m1 {
        var path := FirstTook(c, a, items, hint, images, m1, fuel, p);
      }
    }
    forall p, q | EntryAt(c, a, items[1..], hint, p).Some? && EntryAt(c, a, items[1..], hint, q).Some?
      ensures EntryAt(c, a, items[1..], hint, p).value.0 == EntryAt(c, a, items[1..], hint, q).value.0 ==> p == q
    {
      assert [p[0]] + ([p[0] + 1] + p[1..])[1..] == p && [q[0]] + ([q[0] + 1] + q[1..])[1..] == q;
      assert EntryAt(c, a, items, hint, [p[0] + 1] + p[1..]).Some? && EntryAt(c, a, items, hint, [q[0] + 1] + q[1..]).Some?;
    }
  }

  /** Conversely, a walk is accepted when every node reached is fine and at most
      `fuel` deep, and no platform occurs twice or is already taken. */
  lemma {:induction false} WalkAccepts(c: Codec, a: Archive, items: seq<Json>, hint: Option<string>, images: Images, fuel: nat)
    requires AllFine(c, a, items, hint, fuel)
    requires OnePerPlatform(c, a, items, hint) && AllNew(c, a, items, hint, images)
    ensures VisitItems(c, a, items, hint, images, fuel).Ok?
    decreases fuel, 1 + |items|
  {
    hide AllFine, OnePerPlatform, AllNew, Visited, Fine, ManifestEntry, Items, Visit;
    if items != [] {
      FirstNodeFine(c, a, items, hint, fuel);
      FirstNodeEntries(c, a, items, hint, images);
      var n := ItemNode(items[0], hint).value;
      VisitAccepts(c, a, n, images, fuel);
      VisitCollects(c, a, n, images, fuel);
      OtherNodesFine(c, a, items, hint, fuel);
      OtherNodesEntries(c, a, items, hint, images, Visit(c, a, n, images, fuel).value, fuel);
      WalkAccepts(c, a, items[1..], hint, Visit(c, a, n, images, fuel).value, fuel);
    }
  }

  // -------------------------------------------------------- main theorems

  /** A layout is accepted if and only if its index lists descriptors, everything
      reached is fine within the recursion limit, at least one image manifest is
      reached, and no two are for the same platform. */
  lemma LayoutAcceptedIff(c: Codec, a: Archive, fuel: nat)
    ensures ReadLayout(c, a, fuel).Ok? <==>
              && RootItems(c, a).Ok?
              && var items := RootItems(c, a).value.1;
              && AllFine(c, a, items, None, fuel) && OnePerPlatform(c, a, items, None)
              && exists path :: EntryAt(c, a, items, None, path).Some?
  {
    hide AllFine, OnePerPlatform, EntryAt;
    if RootItems(c, a).Ok? {
      var items := RootItems(c, a).value.1;
      if VisitItems(c, a, items, None, map[], fuel).Ok? {
        WalkCollects(c, a, items, None, map[], fuel);
        var m := VisitItems(c, a, items, None, map[], fuel).value;
        if m != map[] {
          var p :| p in m;
          assert exists path :: EntryAt(c, a, items, None, path) == Some((p, m[p]));
        }
      } else if AllFine(c, a, items, None, fuel) && OnePerPlatform(c, a, items, None) {
        assert AllNew(c, a, items, None, map[]);
        WalkAccepts(c, a, items, None, map[], fuel);
      }
    }
  }

  /** The images of an accepted layout are exactly the manifests reached, one
      position each, on allowed platforms; the root digest is that of the index. */
  lemma LayoutImages(c: Codec, a: Archive, fuel: nat)
    requires ReadLayout(c, a, fuel).Ok?
    ensures var layout, items := ReadLayout(c, a, fuel).value, RootItems(c, a).value.1;
            && layout.images != map[]
            && layout.rootDigest == "sha256:" + c.hash(a["index.json"].content)
            && OnePerPlatform(c, a, items, None)
            && (forall p :: p in layout.images ==>
                  p in PLATFORMS && exists path :: EntryAt(c, a, items, None, path) == Some((p, layout.images[p])))
            && (forall path :: EntryAt(c, a, items, None, path).Some? ==>
                  var e := EntryAt(c, a, items, None, path).value;
                  e.0 in layout.images && layout.images[e.0] == e.1)
  {
    hide AllFine, OnePerPlatform, AllNew, EntryAt, VisitItems, ReadLayout;
    LayoutIsWalked(c, a, fuel);
    CollectedFromNothing(c, a, RootItems(c, a).value.1, ReadLayout(c, a, fuel).value.images);
  }

  /** An accepted layout is a walk from the roots that starts with no images. */
  lemma LayoutIsWalked(c: Codec, a: Archive, fuel: nat)
    requires ReadLayout(c, a, fuel).Ok?
    ensures RootItems(c, a).Ok?
    ensures var layout := ReadLayout(c, a, fuel).value;
            && layout.images != map[]
            && layout.rootDigest == "sha256:" + c.hash(a["index.json"].content)
            && Walked(c, a, RootItems(c, a).value.1, None, map[], layout.images, fuel)
  {
    hide Walked, VisitItems;
    WalkCollects(c, a, RootItems(c, a).value.1, None, map[], fuel);
  }

  lemma CollectedFromNothing(c: Codec, a: Archive, items: seq<Json>, m: Images)
    requires Collected(c, a, items, None, map[], m)
    ensures forall p :: p in m ==>
              p in PLATFORMS && exists path :: EntryAt(c, a, items, None, path) == Some((p, m[p]))
  {
    hide EntryAt;
    forall p | p in m
      ensures p in PLATFORMS
    {
      var path :| EntryAt(c, a, items, None, path) == Some((p, m[p]));
      EntryIsAllowed(c, a, items, None, path);
    }
  }

  lemma EntryIsAllowed(c: Codec, a: Archive, items: seq<Json>, hint: Option<string>, path: seq<nat>)
    requires EntryAt(c, a, items, hint, path).Some?
    ensures EntryAt(c, a, items, hint, path).value.0 in PLATFORMS
  {
  }

  /** Every descriptor an accepted layout covers has its blob: nested indexes,
      manifests and attestations, and the config and layers of every manifest. */
  lemma LayoutIsBacked(c: Codec, a: Archive, fuel: nat, path: seq<nat>)
    requires ReadLayout(c, a, fuel).Ok?
    requires NodeAt(c, a, RootItems(c, a).value.1, None, path).Some?
    ensures var n := NodeAt(c, a, RootItems(c, a).value.1, None, path).value;
            && Backed(c, a, n.d)
            && (!IsAttestation(n.d) ==>
                  Document(c, a, n.d).Some? &&
                  var doc := Document(c, a, n.d).value;
                  if Get(doc, "manifests") != Null then
                    Items(c, a, n) != [] && AllNodes(Items(c, a, n), n.hint)
                  else
                    && Get(doc, "config").Obj? && Backed(c, a, Get(doc, "config").fields)
                    && Get(doc, "layers").Arr? && LayersBacked(c, a, Get(doc, "layers").items)
                    && EntryAt(c, a, RootItems(c, a).value.1, None, path).Some?)
  {
    hide Fine, ManifestEntry, Items, Backed, NodeAt, OnePerPlatform, AllNew, Collected, VisitItems;
    WalkCollects(c, a, RootItems(c, a).value.1, None, map[], fuel);
    var n := NodeAt(c, a, RootItems(c, a).value.1, None, path).value;
    assert Fine(c, a, n);
    FineMeansBacked(c, a, n);
  }

  lemma FineMeansBacked(c: Codec, a: Archive, n: Node)
    requires Fine(c, a, n)
    ensures Backed(c, a, n.d)
    ensures !IsAttestation(n.d) ==>
              Document(c, a, n.d).Some? &&
              var doc := Document(c, a, n.d).value;
              if Get(doc, "manifests") != Null then
                Items(c, a, n) != [] && AllNodes(Items(c, a, n), n.hint)
              else
                && Get(doc, "config").Obj? && Backed(c, a, Get(doc, "config").fields)
                && Get(doc, "layers").Arr? && LayersBacked(c, a, Get(doc, "layers").items)
                && ManifestEntry(c, a, n).Some?
  {
    hide Backed, LayersBacked;
  }

  // ------------------------------------------- the root digest is identity

  /** No blob of one archive collides with a different blob of the other. */
  ghost predicate CollisionFree(c: Codec, a: Archive, b: Archive) {
    forall x, y :: x in a && y in b && c.hash(a[x].content) == c.hash(b[y].content) ==> a[x].content == b[y].content
  }

  lemma SameBlob(c: Codec, a: Archive, b: Archive, d: Fields)
    requires CollisionFree(c, a, b) && Blob(c, a, d).Ok? && Blob(c, b, d).Ok?
    ensures Blob(c, a, d) == Blob(c, b, d)
  {
    var name := BlobName(DigestOf(d).value);
    var x, y := "sha256:" + c.hash(a[name].content), "sha256:" + c.hash(b[name].content);
    assert c.hash(a[name].content) == x[7..] && c.hash(b[name].content) == y[7..];
  }

  lemma SameManifest(c: Codec, a: Archive, b: Archive, n: Node, payload: Fields, images: Images)
    requires CollisionFree(c, a, b)
    requires VisitManifest(c, a, n, payload, images).Ok? && VisitManifest(c, b, n, payload, images).Ok?
    ensures VisitManifest(c, a, n, payload, images) == VisitManifest(c, b, n, payload, images)
  {
    SameBlob(c, a, b, Get(payload, "config").fields);
  }

  lemma {:induction false} SameVisit(c: Codec, a: Archive, b: Archive, n: Node, images: Images, f: nat, g: nat)
    requires CollisionFree(c, a, b) && Visit(c, a, n, images, f).Ok? && Visit(c, b, n, images, g).Ok?
    ensures Visit(c, a, n, images, f) == Visit(c, b, n, images, g)
    decreases f, 0
  {
    if !IsAttestation(n.d) {
      SameBlob(c, a, b, n.d);
      var payload := BlobJson(c, a, n.d).value;
      if Get(payload, "manifests") == Null {
        SameManifest(c, a, b, n, payload, images);
      } else {
        SameVisits(c, a, b, Get(payload, "manifests").items, n.hint, images, f - 1, g - 1);
      }
    }
  }

  lemma {:induction false} SameVisits(c: Codec, a: Archive, b: Archive, items: seq<Json>, hint: Option<string>,
                                      images: Images, f: nat, g: nat)
    requires CollisionFree(c, a, b)
    requires VisitItems(c, a, items, hint, images, f).Ok? && VisitItems(c, b, items, hint, images, g).Ok?
    ensures VisitItems(c, a, items, hint, images, f) == VisitItems(c, b, items, hint, images, g)
    decreases f, 1 + |items|
  {
    if items != [] {
      var n := ItemNode(items[0], hint).value;
      SameVisit(c, a, b, n, images, f, g);
      SameVisits(c, a, b, items[1..], hint, Visit(c, a, n, images, f).value, f, g);
    }
  }

  /** The root digest determines the platform-to-image map, whatever else two
      accepted archives contain and however deep each walk was allowed to go. */
  lemma RootDigestDeterminesLayout(c: Codec, a: Archive, b: Archive, f: nat, g: nat)
    requires CollisionFree(c, a, b)
    requires ReadLayout(c, a, f).Ok? && ReadLayout(c, b, g).Ok?
    requires ReadLayout(c, a, f).value.rootDigest == ReadLayout(c, b, g).value.rootDigest
    ensures ReadLayout(c, a, f).value.images == ReadLayout(c, b, g).value.images
  {
    var x, y := ReadLayout(c, a, f).value.rootDigest, ReadLayout(c, b, g).value.rootDigest;
    assert c.hash(a["index.json"].content) == x[7..] && c.hash(b["index.json"].content) == y[7..];
    SameVisits(c, a, b, RootItems(c, a).value.1, None, map[], f, g);
  }
}
