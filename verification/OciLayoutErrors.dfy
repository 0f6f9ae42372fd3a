/** Refused OCI layouts: each error code is reported only for a reason of its own in
    the documents of the archive. */
module OciLayoutErrors {
  import opened Binary
  import opened OciLayout
  import opened OciLayoutMeaning
  import opened OciLayoutProperties
  import opened Wrappers

  // ---------------------------------------------------------------- reasons

  ghost predicate IsFile(a: Archive, name: string) {
    name in a && a[name].regular
  }

  /** The descriptor names no blob, or one whose bytes are not what it declares. */
  ghost predicate Broken(c: Codec, a: Archive, d: Fields, e: Error) {
    || (e == LayoutInvalid && forall digest :: !HasDigest(d, digest))
    || (e == LayoutInvalid && forall n: nat :: !Field(d, "size", Int(n)))
    || (e == LayoutInvalid && exists digest :: HasDigest(d, digest) && !IsFile(a, "blobs/sha256/" + digest[7..]))
    || (e == DigestMismatch && exists digest, n: nat :: HasDigest(d, digest) && Field(d, "size", Int(n)) && Differs(c, a, digest, n))
  }

  ghost predicate Differs(c: Codec, a: Archive, digest: string, n: nat)
    requires |digest| >= 7
  {
    var name := "blobs/sha256/" + digest[7..];
    && IsFile(a, name)
    && (a[name].size != n || |a[name].content| != n || "sha256:" + c.hash(a[name].content) != digest)
  }

  /** The blob is in place but is not a JSON object. */
  ghost predicate NoObject(c: Codec, a: Archive, d: Fields) {
    exists content :: Holds(c, a, d, content) && forall doc :: c.decode(content) != Some(Obj(doc))
  }

  ghost predicate Unreadable(c: Codec, a: Archive, d: Fields, e: Error) {
    Broken(c, a, d, e) || (e == LayoutInvalid && NoObject(c, a, d))
  }

  /** Not a list, an empty one, or one with something else than well-formed descriptors. */
  ghost predicate BadList(j: Json) {
    j.Arr? ==> j.items == [] || exists i :: 0 <= i < |j.items| && !(j.items[i].Obj? && WellFormed(j.items[i].fields))
  }

  ghost predicate BadLayer(c: Codec, a: Archive, layers: seq<Json>, e: Error) {
    exists i :: 0 <= i < |layers| && if layers[i].Obj? then Broken(c, a, layers[i].fields, e) else e == LayoutInvalid
  }

  ghost predicate BadConfig(way: seq<Fields>, config: Fields, e: Error) {
    || (e == LayoutInvalid && forall text :: !HasPlatform(way, config, text))
    || (e == LayoutInvalid && forall labels :: !HasLabels(config, labels))
    || (e == PlatformInvalid && exists text :: HasPlatform(way, config, text) && text !in {"linux/amd64", "linux/arm64"})
  }

  ghost predicate ConfigOf(c: Codec, a: Archive, doc: Fields, config: Fields) {
    exists d :: Field(doc, "config", Obj(d)) && DocumentIs(c, a, d, config)
  }

  ghost predicate BadManifest(c: Codec, a: Archive, way: seq<Fields>, doc: Fields, e: Error) {
    || (e == LayoutInvalid && forall d :: !Field(doc, "config", Obj(d)))
    || (e == LayoutInvalid && forall layers :: !Field(doc, "layers", Arr(layers)))
    || (exists layers :: Field(doc, "layers", Arr(layers)) && BadLayer(c, a, layers, e))
    || (exists d :: Field(doc, "config", Obj(d)) && Unreadable(c, a, d, e))
    || (exists config :: ConfigOf(c, a, doc, config) && BadConfig(way, config, e))
  }

  /** What is wrong at the end of a chain, the platforms of other manifests apart. */
  ghost predicate Wrong(c: Codec, a: Archive, way: seq<Fields>, e: Error) {
    && way != []
    && var d := way[|way| - 1];
    || Broken(c, a, d, e)
    || (!Attested(d) && e == LayoutInvalid && NoObject(c, a, d))
    || (!Attested(d) && exists doc :: DocumentIs(c, a, d, doc) && BadDocument(c, a, way, doc, e))
  }

  ghost predicate BadDocument(c: Codec, a: Archive, way: seq<Fields>, doc: Fields, e: Error) {
    if NotGiven(doc, "manifests") then BadManifest(c, a, way, doc, e) else e == LayoutInvalid && BadList(doc["manifests"])
  }

  /** The chain ends in a manifest for this platform. */
  ghost predicate ForPlatform(c: Codec, a: Archive, way: seq<Fields>, platform: string) {
    && way != []
    && exists doc, config ::
         && DocumentIs(c, a, way[|way| - 1], doc) && NotGiven(doc, "manifests")
         && ConfigOf(c, a, doc, config) && HasPlatform(way, config, platform)
  }

  ghost predicate TakenElsewhere(c: Codec, a: Archive, roots: seq<Json>, path: seq<nat>, platform: string) {
    exists other, image :: other != path && Describes(c, a, roots, other, platform, image)
  }

  /** The chain at this position is a reason for the error. */
  ghost predicate Reason(c: Codec, a: Archive, roots: seq<Json>, fuel: nat, path: seq<nat>, way: seq<Fields>, e: Error) {
    && Leads(c, a, roots, path, way)
    && (|| Wrong(c, a, way, e)
        || (e == RecursionLimit && |path| > fuel)
        || (e == PlatformInvalid &&
              exists platform :: ForPlatform(c, a, way, platform) && TakenElsewhere(c, a, roots, path, platform)))
  }

  // ------------------------------------------------- the accessors' errors

  lemma BlobFails(c: Codec, a: Archive, d: Fields, e: Error)
    requires Blob(c, a, d) == Err(e)
    ensures Broken(c, a, d, e)
  {
    hide DigestOf, HasDigest;
    DigestOfFails(d);
    if DigestOf(d).Ok? {
      var digest := DigestOf(d).value;
      DigestMeans(d, digest);
      HasDigestIsLong(d, digest);
      var name := BlobName(digest);
      assert name == "blobs/sha256/" + digest[7..];
      if SizeOf(d).Ok? {
        var n := SizeOf(d).value;
        assert Field(d, "size", Int(n));
        assert IsFile(a, name) && e == DigestMismatch ==> Differs(c, a, digest, n);
      }
    }
  }

  lemma HasDigestIsLong(d: Fields, digest: string)
    requires HasDigest(d, digest)
    ensures |digest| == 71
  {
  }

  lemma DigestOfFails(d: Fields)
    ensures DigestOf(d).Err? ==> DigestOf(d).error == LayoutInvalid && forall digest :: !HasDigest(d, digest)
  {
    forall digest
      ensures HasDigest(d, digest) <==> DigestOf(d) == Ok(digest)
    {
      DigestMeans(d, digest);
    }
  }

  lemma BlobJsonFails(c: Codec, a: Archive, d: Fields, e: Error)
    requires BlobJson(c, a, d) == Err(e)
    ensures Unreadable(c, a, d, e)
  {
    hide Broken, Holds, Blob, Backed;
    if Blob(c, a, d).Err? {
      BlobFails(c, a, d, e);
    } else {
      BlobIffBacked(c, a, d);
      HoldsMeans(c, a, d);
      var content :| Holds(c, a, d, content);
      BlobIsContent(c, a, d);
      assert forall doc :: c.decode(content) != Some(Obj(doc));
    }
  }

  lemma BlobIsContent(c: Codec, a: Archive, d: Fields)
    requires Blob(c, a, d).Ok?
    ensures DigestOf(d).Ok? && BlobName(DigestOf(d).value) in a && Blob(c, a, d).value == a[BlobName(DigestOf(d).value)].content
  {
  }

  lemma {:induction false} LayersFail(c: Codec, a: Archive, layers: seq<Json>, e: Error)
    requires VerifyLayers(c, a, layers) == Err(e)
    ensures BadLayer(c, a, layers, e)
  {
    hide Broken, Blob;
    if layers[0].Obj? && Blob(c, a, layers[0].fields).Err? {
      BlobFails(c, a, layers[0].fields, e);
    } else if layers[0].Obj? {
      LayersFail(c, a, layers[1..], e);
      var i :| 0 <= i < |layers[1..]| &&
               if layers[1..][i].Obj? then Broken(c, a, layers[1..][i].fields, e) else e == LayoutInvalid;
      assert layers[i + 1] == layers[1..][i];
    }
  }

  lemma PlatformFails(way: seq<Fields>, n: Node, config: Fields)
    requires way != [] && way[|way| - 1] == n.d && HintIs(way, None, n.hint) && PlatformOf(n.d).Ok?
    ensures ManifestPlatform(n, config).Err? ==>
              ManifestPlatform(n, config).error == LayoutInvalid && forall text :: !HasPlatform(way, config, text)
  {
    hide HasPlatform, HintIs;
    forall text
      ensures HasPlatform(way, config, text) <==> ManifestPlatform(n, config) == Ok(text)
    {
      PlatformOfManifest(way, n, config, text);
    }
  }

  lemma LabelsFail(config: Fields)
    ensures LabelsOf(config).Err? ==>
              LabelsOf(config).error == LayoutInvalid && forall labels :: !HasLabels(config, labels)
  {
    hide HasLabels;
    forall labels
      ensures HasLabels(config, labels) <==> LabelsOf(config) == Ok(labels)
    {
      LabelsMean(config, labels);
    }
  }

  lemma ManifestFails(c: Codec, a: Archive, way: seq<Fields>, n: Node, payload: Fields, seen: Images, e: Error)
    requires way != [] && way[|way| - 1] == n.d && HintIs(way, None, n.hint) && PlatformOf(n.d).Ok?
    requires Document(c, a, n.d) == Some(payload) && VisitManifest(c, a, n, payload, seen) == Err(e)
    ensures BadManifest(c, a, way, payload, e) ||
            (e == PlatformInvalid && exists config, platform ::
               platform in seen && ConfigOf(c, a, payload, config) && HasPlatform(way, config, platform))
  {
    hide Broken, Blob, BlobJson, DigestOf, HasPlatform, HasLabels, HintIs, LabelsOf, ManifestPlatform, PlatformOf, VerifyLayers,
         Unreadable, BadLayer, Backed;
    DocumentHasDigest(c, a, n.d);
    var j, l := Get(payload, "config"), Get(payload, "layers");
    if j.Obj? && l.Arr? {
      var d := j.fields;
      assert Field(payload, "config", Obj(d)) && Field(payload, "layers", Arr(l.items));
      if VerifyLayers(c, a, l.items).Err? {
        LayersFail(c, a, l.items, e);
      } else if BlobJson(c, a, d).Err? {
        BlobJsonFails(c, a, d, e);
      } else {
        var config := BlobJson(c, a, d).value;
        BlobIffBacked(c, a, d);
        DocumentMeans(c, a, d, config);
        assert ConfigOf(c, a, payload, config);
        PlatformFails(way, n, config);
        LabelsFail(config);
        if ManifestPlatform(n, config).Ok? {
          PlatformOfManifest(way, n, config, ManifestPlatform(n, config).value);
        }
        assert BadConfig(way, config, e) || (e == PlatformInvalid && ManifestPlatform(n, config).value in seen);
      }
    }
  }

  // --------------------------------------------------------- where it failed

  /** The visit of the node itself fails, with these images taken so far. */
  ghost predicate FailsHere(c: Codec, a: Archive, n: Node, seen: Images, e: Error) {
    if IsAttestation(n.d) then Blob(c, a, n.d) == Err(e)
    else if Document(c, a, n.d).None? then BlobJson(c, a, n.d) == Err(e)
    else
      var doc := Document(c, a, n.d).value;
      if Get(doc, "manifests") == Null then VisitManifest(c, a, n, doc, seen) == Err(e)
      else e == LayoutInvalid && (Items(c, a, n) == [] || !AllNodes(Items(c, a, n), n.hint))
  }

  /** Every image taken so far was there before or belongs to another position. */
  ghost predicate SeenElsewhere(c: Codec, a: Archive, items: seq<Json>, hint: Option<string>, path: seq<nat>,
                                images: Images, seen: Images) {
    forall p :: p in seen && p !in images ==>
      exists other :: other != path && EntryAt(c, a, items, hint, other).Some? && EntryAt(c, a, items, hint, other).value.0 == p
  }

  lemma {:induction false} VisitFails(c: Codec, a: Archive, n: Node, images: Images, fuel: nat, e: Error)
    returns (path: seq<nat>, found: Node, seen: Images)
    requires Visit(c, a, n, images, fuel) == Err(e)
    ensures if path == [] then found == n && seen == images
            else NodeAt(c, a, Items(c, a, n), n.hint, path) == Some(found)
    ensures (e == RecursionLimit && |path| == fuel) || FailsHere(c, a, found, seen, e)
    ensures SeenElsewhere(c, a, Items(c, a, n), n.hint, path, images, seen)
    decreases fuel, 0
  {
    hide EntryAt, NodeAt, DigestOf, Blob, Backed, ItemNode, VisitManifest, IsAttestation, AllNodes;
    BlobIffBacked(c, a, n.d);
    path, found, seen := [], n, images;
    if fuel > 0 && !IsAttestation(n.d) && Document(c, a, n.d).Some? && Get(Document(c, a, n.d).value, "manifests") != Null {
      var items := Items(c, a, n);
      if items != [] {
        var q, found', seen' := WalkFails(c, a, items, n.hint, images, fuel - 1, e);
        if q != [] {
          path, found, seen := q, found', seen';
        }
      }
    }
  }

  lemma {:induction false} WalkFails(c: Codec, a: Archive, items: seq<Json>, hint: Option<string>, images: Images, fuel: nat, e: Error)
    returns (path: seq<nat>, found: Node, seen: Images)
    requires VisitItems(c, a, items, hint, images, fuel) == Err(e)
    ensures path == [] ==> e == LayoutInvalid && !AllNodes(items, hint)
    ensures path != [] ==>
              && NodeAt(c, a, items, hint, path) == Some(found)
              && ((e == RecursionLimit && |path| == fuel + 1) || FailsHere(c, a, found, seen, e))
              && SeenElsewhere(c, a, items, hint, path, images, seen)
    decreases fuel, 1 + |items|
  {
    path, found, seen := [], Node(map[], None), images;
    if ItemNode(items[0], hint).Some? {
      hide FailsHere, Visit, EntryAt, Items;
      var n := ItemNode(items[0], hint).value;
      if Visit(c, a, n, images, fuel).Err? {
        var q, found', seen' := VisitFails(c, a, n, images, fuel, e);
        found, seen, path := found', seen', [0] + q;
        FirstPositions(c, a, items, hint, q, images, seen);
      } else {
        var m1 := Visit(c, a, n, images, fuel).value;
        var q, found', seen' := WalkFails(c, a, items[1..], hint, m1, fuel, e);
        if q != [] {
          found, seen, path := found', seen', [q[0] + 1] + q[1..];
          NodeAtPrefixed(c, a, items, hint, q);
          VisitCollects(c, a, n, images, fuel);
          LaterPositions(c, a, items, hint, q, images, m1, seen, fuel);
        }
      }
    }
  }

  lemma FirstPositions(c: Codec, a: Archive, items: seq<Json>, hint: Option<string>, q: seq<nat>, images: Images, seen: Images)
    requires items != [] && ItemNode(items[0], hint).Some?
    requires var n := ItemNode(items[0], hint).value;
             SeenElsewhere(c, a, Items(c, a, n), n.hint, q, images, seen)
    ensures var n := ItemNode(items[0], hint).value;
            && SeenElsewhere(c, a, items, hint, [0] + q, images, seen)
            && NodeAt(c, a, items, hint, [0] + q) == if q == [] then Some(n) else NodeAt(c, a, Items(c, a, n), n.hint, q)
  {
    hide ManifestEntry, Items, ItemNode;
    var n := ItemNode(items[0], hint).value;
    NodeAtHead(c, a, items, hint, [0] + q);
    assert ([0] + q)[1..] == q;
    forall p | p in seen && p !in images
      ensures exists other :: other != [0] + q && EntryAt(c, a, items, hint, other).Some? && EntryAt(c, a, items, hint, other).value.0 == p
    {
      var r :| r != q && EntryAt(c, a, Items(c, a, n), n.hint, r).Some? && EntryAt(c, a, Items(c, a, n), n.hint, r).value.0 == p;
      NodeAtPrefixed(c, a, items, hint, r);
      assert ([0] + r)[1..] == r;
      assert EntryAt(c, a, items, hint, [0] + r) == EntryAt(c, a, Items(c, a, n), n.hint, r);
    }
  }

  lemma LaterPositions(c: Codec, a: Archive, items: seq<Json>, hint: Option<string>, q: seq<nat>, images: Images, m1: Images,
                       seen: Images, fuel: nat)
    requires items != [] && ItemNode(items[0], hint).Some? && q != []
    requires Visited(c, a, ItemNode(items[0], hint).value, images, m1, fuel)
    requires SeenElsewhere(c, a, items[1..], hint, q, m1, seen)
    ensures SeenElsewhere(c, a, items, hint, [q[0] + 1] + q[1..], images, seen)
  {
    hide ManifestEntry, Items, ItemNode, Visited;
    var path := [q[0] + 1] + q[1..];
    forall p | p in seen && p !in images
      ensures exists other :: other != path && EntryAt(c, a, items, hint, other).Some? && EntryAt(c, a, items, hint, other).value.0 == p
    {
      if p in m1 {
        var other := FirstTook(c, a, items, hint, images, m1, fuel, p);
        assert other[0] == 0;
      } else {
        var r :| r != q && EntryAt(c, a, items[1..], hint, r).Some? && EntryAt(c, a, items[1..], hint, r).value.0 == p;
        NodeAtPrefixed(c, a, items, hint, r);
        assert [r[0]] + ([r[0] + 1] + r[1..])[1..] == r && [q[0]] + path[1..] == q;
        assert EntryAt(c, a, items, hint, [r[0] + 1] + r[1..]) == EntryAt(c, a, items[1..], hint, r);
      }
    }
  }

  // ------------------------------------------------------------ main theorem

  lemma HereMeans(c: Codec, a: Archive, way: seq<Fields>, n: Node, seen: Images, e: Error)
    requires way != [] && way[|way| - 1] == n.d && HintIs(way, None, n.hint) && PlatformOf(n.d).Ok?
    requires FailsHere(c, a, n, seen, e)
    ensures Wrong(c, a, way, e) ||
            (e == PlatformInvalid && exists platform :: platform in seen && ForPlatform(c, a, way, platform))
  {
    hide Broken, Blob, BlobJson, Attested, IsAttestation, NoObject, HintIs, PlatformOf, DocumentIs, Document, BadManifest,
         VisitManifest, HasPlatform, ConfigOf, AllNodes, BadList;
    AttestedMeans(n.d);
    if IsAttestation(n.d) {
      BlobFails(c, a, n.d, e);
    } else if Document(c, a, n.d).None? {
      BlobJsonFails(c, a, n.d, e);
    } else {
      var doc := Document(c, a, n.d).value;
      DocumentMeans(c, a, n.d, doc);
      if Get(doc, "manifests") == Null {
        ManifestFails(c, a, way, n, doc, seen, e);
      } else {
        ListFails(c, a, n, doc);
        assert BadDocument(c, a, way, doc, e);
      }
    }
  }

  lemma ListFails(c: Codec, a: Archive, n: Node, doc: Fields)
    requires !IsAttestation(n.d) && Document(c, a, n.d) == Some(doc) && Get(doc, "manifests") != Null
    requires Items(c, a, n) == [] || !AllNodes(Items(c, a, n), n.hint)
    ensures "manifests" in doc && BadList(doc["manifests"])
  {
    hide Document, IsAttestation, WellFormed, PlatformOf;
    var items := Items(c, a, n);
    if i :| 0 <= i < |items| && ItemNode(items[i], n.hint).None? {
      if items[i].Obj? {
        WellFormedMeans(items[i].fields);
      }
    }
  }

  /** The archive is refused although its index lists descriptors. */
  ghost predicate Refused(c: Codec, a: Archive, roots: seq<Json>, fuel: nat, e: Error) {
    || (e == LayoutInvalid && BadList(Arr(roots)))
    || (e == LayoutInvalid && forall path, platform, image :: !Describes(c, a, roots, path, platform, image))
    || (exists path, way :: Reason(c, a, roots, fuel, path, way, e))
  }

  /** Why a layout is refused, by error code: `RootInvalid` only for an empty list of
      descriptors; the other codes only for a missing or malformed index, or for what
      is at the end of some chain of descriptors. */
  lemma ErrorsMean(c: Codec, a: Archive, fuel: nat, e: Error)
    requires ReadLayout(c, a, fuel) == Err(e)
    ensures || (e == LayoutInvalid && forall payload, roots :: !RootsAre(c, a, payload, roots))
            || (e == RootInvalid && exists payload :: RootsAre(c, a, payload, []))
            || (exists payload, roots :: RootsAre(c, a, payload, roots) && roots != [] && Refused(c, a, roots, fuel, e))
  {
    hide Refused, VisitItems, RootsAre;
    RootsFail(c, a);
    if RootItems(c, a).Ok? {
      var payload, roots := RootItems(c, a).value.0, RootItems(c, a).value.1;
      RootsMean(c, a, payload, roots);
      if VisitItems(c, a, roots, None, map[], fuel).Err? {
        WalkIsRefused(c, a, roots, fuel, e);
      } else {
        NothingFound(c, a, roots, fuel);
      }
    }
  }

  lemma RootsFail(c: Codec, a: Archive)
    ensures RootItems(c, a).Err? ==>
              || (RootItems(c, a).error == LayoutInvalid && forall payload, roots :: !RootsAre(c, a, payload, roots))
              || (RootItems(c, a).error == RootInvalid && exists payload :: RootsAre(c, a, payload, []))
  {
    if RootItems(c, a) == Err(RootInvalid) {
      assert RootsAre(c, a, a["index.json"].content, []);
    }
  }

  lemma NothingFound(c: Codec, a: Archive, roots: seq<Json>, fuel: nat)
    requires VisitItems(c, a, roots, None, map[], fuel) == Ok(map[])
    ensures Refused(c, a, roots, fuel, LayoutInvalid)
  {
    hide AllFine, OnePerPlatform, AllNew, EntryAt, Describes, VisitItems, BadList, Reason;
    WalkCollects(c, a, roots, None, map[], fuel);
    forall path, platform, image
      ensures !Describes(c, a, roots, path, platform, image)
    {
      DescribedIsEntry(c, a, roots, fuel, path, platform, image);
    }
  }

  lemma WalkIsRefused(c: Codec, a: Archive, roots: seq<Json>, fuel: nat, e: Error)
    requires VisitItems(c, a, roots, None, map[], fuel) == Err(e)
    ensures Refused(c, a, roots, fuel, e)
  {
    hide FailsHere, NodeAt, EntryAt, VisitItems, BadList, Wrong, HintIs, Leads, ForPlatform, TakenElsewhere, PlatformOf;
    var path, n, seen := WalkFails(c, a, roots, None, map[], fuel, e);
    if path == [] {
      RootListFails(roots);
    } else {
      var way := PositionIsChain(c, a, roots, None, path);
      ChainIsNotEmpty(c, a, roots, path, way);
      PositionIsFormed(c, a, roots, None, path);
      if FailsHere(c, a, n, seen, e) {
        HereMeans(c, a, way, n, seen, e);
        if !Wrong(c, a, way, e) {
          var platform :| platform in seen && ForPlatform(c, a, way, platform);
          var other :| other != path && EntryAt(c, a, roots, None, other).Some? && EntryAt(c, a, roots, None, other).value.0 == platform;
          IsTaken(c, a, roots, path, platform, other);
        }
      }
      assert Reason(c, a, roots, fuel, path, way, e);
    }
  }

  lemma IsTaken(c: Codec, a: Archive, roots: seq<Json>, path: seq<nat>, platform: string, other: seq<nat>)
    requires other != path && EntryAt(c, a, roots, None, other).Some? && EntryAt(c, a, roots, None, other).value.0 == platform
    ensures TakenElsewhere(c, a, roots, path, platform)
  {
    hide EntryAt, Describes;
    EntryIsDescribed(c, a, roots, other);
  }

  lemma RootListFails(roots: seq<Json>)
    requires !AllNodes(roots, None)
    ensures BadList(Arr(roots))
  {
    hide WellFormed, PlatformOf;
    var i :| 0 <= i < |roots| && ItemNode(roots[i], None).None?;
    if roots[i].Obj? {
      WellFormedMeans(roots[i].fields);
    }
    assert Arr(roots).items[i] == roots[i];
  }

  lemma EntryIsDescribed(c: Codec, a: Archive, roots: seq<Json>, path: seq<nat>)
    requires EntryAt(c, a, roots, None, path).Some?
    ensures var entry := EntryAt(c, a, roots, None, path).value;
            Describes(c, a, roots, path, entry.0, entry.1)
  {
    hide NodeAt, ManifestEntry, ImageAt, HintIs, Leads, PlatformOf;
    var n, entry := NodeAt(c, a, roots, None, path).value, EntryAt(c, a, roots, None, path).value;
    var way := PositionIsChain(c, a, roots, None, path);
    ChainIsNotEmpty(c, a, roots, path, way);
    PositionIsFormed(c, a, roots, None, path);
    EntryIsImage(c, a, way, n, entry.0, entry.1);
  }
}
