/** Accepted OCI layouts in terms of their documents alone: which chains of
    descriptors count, which image each one yields, and when a layout is accepted. */
module OciLayoutMeaning {
  import opened Binary
  import opened OciLayout
  import opened OciLayoutProperties
  import opened Wrappers

  // ------------------------------------------------------------- documents

  ghost predicate Field(d: Fields, key: string, j: Json) {
    key in d && d[key] == j
  }

  /** The field is not there, or null. */
  ghost predicate NotGiven(d: Fields, key: string) {
    key in d ==> d[key] == Null
  }

  predicate InHex(ch: char) {
    ch in "0123456789abcdef"
  }

  ghost predicate HasDigest(d: Fields, digest: string) {
    && Field(d, "digest", Str(digest))
    && |digest| == 71 && digest[..7] == "sha256:"
    && forall i :: 7 <= i < 71 ==> InHex(digest[i])
  }

  /** `content` is the blob of the descriptor: stored under its digest, with the size
      and the digest that it declares. */
  ghost predicate Holds(c: Codec, a: Archive, d: Fields, content: Bytes) {
    exists digest ::
      && HasDigest(d, digest) && Field(d, "size", Int(|content|))
      && "blobs/sha256/" + digest[7..] in a
      && a["blobs/sha256/" + digest[7..]] == Member(true, |content|, content)
      && "sha256:" + c.hash(content) == digest
  }

  ghost predicate Stored(c: Codec, a: Archive, d: Fields) {
    exists content :: Holds(c, a, d, content)
  }

  ghost predicate DocumentIs(c: Codec, a: Archive, d: Fields, doc: Fields) {
    exists content :: Holds(c, a, d, content) && c.decode(content) == Some(Obj(doc))
  }

  ghost predicate Attested(d: Fields) {
    exists f ::
      && Field(d, "annotations", Obj(f))
      && Field(f, "vnd.docker.reference.type", Str("attestation-manifest"))
  }

  /** The text "os/architecture" of an object that names both. */
  ghost predicate NamesPlatform(f: Fields, text: string) {
    exists os, arch :: Field(f, "os", Str(os)) && Field(f, "architecture", Str(arch)) && text == os + "/" + arch
  }

  ghost predicate Declares(d: Fields, text: string) {
    exists f :: Field(d, "platform", Obj(f)) && NamesPlatform(f, text)
  }

  ghost predicate WellFormed(d: Fields) {
    NotGiven(d, "platform") || exists text :: Declares(d, text)
  }

  /** The labels of an image configuration: the texts of its label object, or none. */
  ghost predicate HasLabels(config: Fields, labels: map<string, string>) {
    exists section ::
      && Field(config, "config", Obj(section))
      && if "Labels" !in section then labels == map[] else LabelTexts(section["Labels"], labels)
  }

  ghost predicate LabelTexts(j: Json, labels: map<string, string>) {
    j.Obj? && labels.Keys == j.fields.Keys && forall k :: k in labels ==> j.fields[k] == Str(labels[k])
  }

  // ---------------------------------------------------------------- chains

  /** The descriptors that an image index lists. */
  ghost predicate Indexes(c: Codec, a: Archive, d: Fields, items: seq<Json>) {
    !Attested(d) && exists doc :: DocumentIs(c, a, d, doc) && Field(doc, "manifests", Arr(items))
  }

  ghost predicate Links(c: Codec, a: Archive, d: Fields, k: nat, e: Fields) {
    exists items :: Indexes(c, a, d, items) && k < |items| && items[k] == Obj(e)
  }

  /** `way` is the chain of descriptors found at the positions `path`, each listed by
      the one before it. */
  ghost predicate Leads(c: Codec, a: Archive, roots: seq<Json>, path: seq<nat>, way: seq<Fields>) {
    && |path| == |way| > 0 && path[0] < |roots| && roots[path[0]] == Obj(way[0])
    && forall i :: 0 <= i < |way| - 1 ==> Links(c, a, way[i], path[i + 1], way[i + 1])
  }

  /** Number `j` is the last of the chain that declares a platform. */
  ghost predicate Nearest(way: seq<Fields>, j: nat, text: string) {
    j < |way| && Declares(way[j], text) && forall i :: j < i < |way| ==> NotGiven(way[i], "platform")
  }

  ghost predicate NoneDeclares(way: seq<Fields>) {
    forall i :: 0 <= i < |way| ==> NotGiven(way[i], "platform")
  }

  /** The platform of a manifest: its own, else that of the nearest index above it that
      declares one, else the one its configuration names. */
  ghost predicate HasPlatform(way: seq<Fields>, config: Fields, platform: string) {
    || (exists j :: Nearest(way, j, platform))
    || (NoneDeclares(way) && NamesPlatform(config, platform))
  }

  ghost predicate LayersHeld(c: Codec, a: Archive, layers: seq<Json>) {
    forall i :: 0 <= i < |layers| ==> layers[i].Obj? && Stored(c, a, layers[i].fields)
  }

  /** The chain ends in a manifest with all its blobs, for `platform`, that describes
      `image`. */
  ghost predicate ImageAt(c: Codec, a: Archive, way: seq<Fields>, platform: string, image: Image) {
    && way != [] && platform in {"linux/amd64", "linux/arm64"}
    && var d := way[|way| - 1];
    && !Attested(d) && HasDigest(d, image.digest)
    && exists doc, configDescriptor, config, layers ::
         && DocumentIs(c, a, d, doc) && NotGiven(doc, "manifests")
         && Field(doc, "config", Obj(configDescriptor)) && DocumentIs(c, a, configDescriptor, config)
         && Field(doc, "layers", Arr(layers)) && LayersHeld(c, a, layers)
         && HasPlatform(way, config, platform) && HasLabels(config, image.labels)
  }

  /** The chain ends in a backed attestation, a non-empty index of objects, or a
      complete manifest, and declares its platform, if any, in the right form. */
  ghost predicate SoundAt(c: Codec, a: Archive, way: seq<Fields>) {
    && way != []
    && var d := way[|way| - 1];
    && WellFormed(d)
    && ((Attested(d) && Stored(c, a, d))
        || (exists items: seq<Json> :: items != [] && Indexes(c, a, d, items) && forall i :: 0 <= i < |items| ==> items[i].Obj?)
        || exists platform, image :: ImageAt(c, a, way, platform, image))
  }

  /** The documents describe `image` for `platform` at this position. */
  ghost predicate Describes(c: Codec, a: Archive, roots: seq<Json>, path: seq<nat>, platform: string, image: Image) {
    exists way :: Leads(c, a, roots, path, way) && ImageAt(c, a, way, platform, image)
  }

  /** The index document and the descriptors that it lists. */
  ghost predicate RootsAre(c: Codec, a: Archive, payload: Bytes, roots: seq<Json>) {
    && "index.json" in a && a["index.json"] == Member(true, |payload|, payload)
    && exists index :: c.decode(payload) == Some(Obj(index)) && Field(index, "manifests", Arr(roots))
  }

  // --------------------------------------------- the accessors mean the same

  lemma HexMeans(ch: char)
    ensures IsHex(ch) <==> ch in "0123456789abcdef"
  {
    var hex := "0123456789abcdef";
    if '0' <= ch <= '9' {
      assert hex[ch as int - '0' as int] == ch;
    } else if 'a' <= ch <= 'f' {
      assert hex[ch as int - 'a' as int + 10] == ch;
    }
  }

  lemma DigestMeans(d: Fields, digest: string)
    ensures HasDigest(d, digest) <==> DigestOf(d) == Ok(digest)
  {
    forall ch: char
      ensures IsHex(ch) <==> InHex(ch)
    {
      HexMeans(ch);
    }
    hide IsHex, InHex;
  }

  lemma HoldsMeans(c: Codec, a: Archive, d: Fields)
    ensures Stored(c, a, d) <==> Backed(c, a, d)
    ensures forall content :: Holds(c, a, d, content) ==> content == a[BlobName(DigestOf(d).value)].content
  {
    hide HasDigest, DigestOf;
    forall digest
      ensures HasDigest(d, digest) <==> DigestOf(d) == Ok(digest)
    {
      DigestMeans(d, digest);
    }
    if Backed(c, a, d) {
      var digest := DigestOf(d).value;
      assert BlobName(digest) == "blobs/sha256/" + digest[7..];
      assert Holds(c, a, d, a[BlobName(digest)].content);
    }
  }

  lemma DocumentMeans(c: Codec, a: Archive, d: Fields, doc: Fields)
    ensures DocumentIs(c, a, d, doc) <==> Document(c, a, d) == Some(doc)
  {
    hide Holds, Backed, DigestOf;
    HoldsMeans(c, a, d);
  }

  lemma AttestedMeans(d: Fields)
    ensures Attested(d) <==> IsAttestation(d)
  {
  }

  lemma NamesPlatformMeans(f: Fields, text: string)
    ensures NamesPlatform(f, text) <==> OsArch(f) == Ok(text)
  {
  }

  lemma PlatformMeans(d: Fields, text: string)
    ensures NotGiven(d, "platform") <==> PlatformOf(d) == Ok(None)
    ensures Declares(d, text) <==> PlatformOf(d) == Ok(Some(text))
  {
    hide NamesPlatform, OsArch;
    var p := Get(d, "platform");
    if p.Obj? {
      NamesPlatformMeans(p.fields, text);
    }
  }

  lemma WellFormedMeans(d: Fields)
    ensures WellFormed(d) <==> PlatformOf(d).Ok?
  {
    hide Declares, NotGiven, PlatformOf;
    PlatformMeans(d, "");
    forall text
      ensures Declares(d, text) <==> PlatformOf(d) == Ok(Some(text))
    {
      PlatformMeans(d, text);
    }
    if PlatformOf(d).Ok? && PlatformOf(d).value.Some? {
      assert Declares(d, PlatformOf(d).value.value);
    }
  }

  lemma LabelsMean(config: Fields, labels: map<string, string>)
    ensures HasLabels(config, labels) <==> LabelsOf(config) == Ok(labels)
  {
    if Get(config, "config").Obj? {
      var section := config["config"].fields;
      assert Field(config, "config", Obj(section));
      if LabelsOf(config).Ok? && "Labels" in section {
        assert LabelTexts(section["Labels"], LabelsOf(config).value);
      }
      if HasLabels(config, labels) {
        if "Labels" in section {
          assert LabelTexts(section["Labels"], labels);
        }
        assert labels == LabelsOf(config).value;
      }
    }
  }

  lemma LayersMean(c: Codec, a: Archive, layers: seq<Json>)
    ensures LayersHeld(c, a, layers) <==> LayersBacked(c, a, layers)
  {
    hide Stored, Backed;
    forall i | 0 <= i < |layers| && layers[i].Obj?
      ensures Stored(c, a, layers[i].fields) <==> Backed(c, a, layers[i].fields)
    {
      HoldsMeans(c, a, layers[i].fields);
    }
  }

  lemma IndexesMeans(c: Codec, a: Archive, n: Node, items: seq<Json>)
    ensures Indexes(c, a, n.d, items) ==> Items(c, a, n) == items
    ensures Items(c, a, n) != [] ==> Indexes(c, a, n.d, Items(c, a, n))
  {
    hide DocumentIs, Document, Attested, IsAttestation;
    AttestedMeans(n.d);
    forall doc
      ensures DocumentIs(c, a, n.d, doc) <==> Document(c, a, n.d) == Some(doc)
    {
      DocumentMeans(c, a, n.d, doc);
    }
    if Items(c, a, n) != [] {
      var doc := Document(c, a, n.d).value;
      assert DocumentIs(c, a, n.d, doc) && Field(doc, "manifests", Arr(Items(c, a, n)));
    }
  }

  // --------------------------------------------------- chains are positions

  /** `hint` is what the chain declares, or `base` if it declares nothing. */
  ghost predicate HintIs(way: seq<Fields>, base: Option<string>, hint: Option<string>) {
    || (NoneDeclares(way) && hint == base)
    || (hint.Some? && exists j :: Nearest(way, j, hint.value))
  }

  lemma HintOfOne(d: Fields, base: Option<string>)
    requires PlatformOf(d).Ok?
    ensures HintIs([d], base, Or(PlatformOf(d).value, base))
  {
    hide NotGiven, Declares, PlatformOf;
    PlatformMeans(d, if PlatformOf(d).value.Some? then PlatformOf(d).value.value else "");
    if PlatformOf(d).value.Some? {
      assert Nearest([d], 0, PlatformOf(d).value.value);
    }
  }

  /** What the rest of a chain declares counts before what its head declares. */
  lemma HintOfMore(d: Fields, rest: seq<Fields>, base: Option<string>, hint: Option<string>)
    requires PlatformOf(d).Ok? && HintIs(rest, Or(PlatformOf(d).value, base), hint)
    ensures HintIs([d] + rest, base, hint)
  {
    hide NotGiven, Declares, PlatformOf;
    var way := [d] + rest;
    PlatformMeans(d, if PlatformOf(d).value.Some? then PlatformOf(d).value.value else "");
    assert forall i :: 0 < i < |way| ==> way[i] == rest[i - 1];
    if NoneDeclares(rest) && hint == Or(PlatformOf(d).value, base) {
      if PlatformOf(d).value.Some? {
        assert Nearest(way, 0, hint.value);
      }
    } else {
      var j: nat :| Nearest(rest, j, hint.value);
      assert Nearest(way, j + 1, hint.value);
    }
  }

  /** A chain declares one platform at most. */
  lemma HintIsUnique(way: seq<Fields>, base: Option<string>, h: Option<string>, h': Option<string>)
    requires HintIs(way, base, h) && HintIs(way, base, h')
    ensures h == h'
  {
    hide NotGiven, Declares;
    forall i, text | 0 <= i < |way| && Declares(way[i], text)
      ensures !NotGiven(way[i], "platform") && PlatformOf(way[i]) == Ok(Some(text))
    {
      PlatformMeans(way[i], text);
    }
  }

  /** The walk's positions are chains. */
  lemma {:induction false} PositionIsChain(c: Codec, a: Archive, items: seq<Json>, base: Option<string>, path: seq<nat>)
    returns (way: seq<Fields>)
    requires NodeAt(c, a, items, base, path).Some?
    ensures Leads(c, a, items, path, way)
    ensures var n := NodeAt(c, a, items, base, path).value;
            way[|way| - 1] == n.d && HintIs(way, base, n.hint)
    decreases |path|
  {
    hide HintIs, Or, PlatformOf, Indexes, Items;
    var d := items[path[0]].fields;
    var first := Node(d, Or(PlatformOf(d).value, base));
    if |path| == 1 {
      way := [d];
      HintOfOne(d, base);
    } else {
      var rest := PositionIsChain(c, a, Items(c, a, first), first.hint, path[1..]);
      way := [d] + rest;
      HintOfMore(d, rest, base, NodeAt(c, a, items, base, path).value.hint);
      IndexesMeans(c, a, first, Items(c, a, first));
      forall i | 0 <= i < |way| - 1
        ensures Links(c, a, way[i], path[i + 1], way[i + 1])
      {
        if i == 0 {
          assert Items(c, a, first)[path[1]] == Obj(rest[0]);
        } else {
          assert Links(c, a, rest[i - 1], path[1..][i], rest[i]);
        }
      }
    }
  }

  /** In a fine layout every chain is a position of the walk. */
  lemma {:induction false} ChainIsPosition(c: Codec, a: Archive, items: seq<Json>, base: Option<string>, fuel: nat,
                                           path: seq<nat>, way: seq<Fields>)
    requires AllFine(c, a, items, base, fuel) && Leads(c, a, items, path, way)
    ensures NodeAt(c, a, items, base, path).Some?
    ensures var n := NodeAt(c, a, items, base, path).value;
            way[|way| - 1] == n.d && HintIs(way, base, n.hint)
    decreases |path|
  {
    hide HintIs, Or, PlatformOf, Indexes, Items, Fine;
    var d := way[0];
    assert ItemNode(items[path[0]], base).Some?;
    var first := Node(d, Or(PlatformOf(d).value, base));
    if |path| == 1 {
      assert way == [d];
      HintOfOne(d, base);
    } else {
      var rest, listed := way[1..], Items(c, a, first);
      FineBelow(c, a, items, base, fuel, path[0]);
      assert Links(c, a, way[0], path[1], way[1]);
      var items' :| Indexes(c, a, d, items') && path[1] < |items'| && items'[path[1]] == Obj(way[1]);
      IndexesMeans(c, a, first, items');
      forall i | 0 <= i < |rest| - 1
        ensures Links(c, a, rest[i], path[1..][i + 1], rest[i + 1])
      {
        assert Links(c, a, way[i + 1], path[i + 2], way[i + 2]);
      }
      ChainIsPosition(c, a, listed, first.hint, fuel - 1, path[1..], rest);
      assert way == [d] + rest;
      HintOfMore(d, rest, base, NodeAt(c, a, items, base, path).value.hint);
    }
  }

  lemma FineBelow(c: Codec, a: Archive, items: seq<Json>, base: Option<string>, fuel: nat, k: nat)
    requires AllFine(c, a, items, base, fuel) && k < |items|
    ensures fuel >= 1 && ItemNode(items[k], base).Some?
    ensures var n := ItemNode(items[k], base).value;
            AllFine(c, a, Items(c, a, n), n.hint, fuel - 1)
  {
    hide Items, ItemNode, Fine;
    var n := ItemNode(items[k], base).value;
    assert NodeAt(c, a, items, base, [k]) == Some(n);
    ListedNodes(c, a, n);
    forall q | NodeAt(c, a, Items(c, a, n), n.hint, q).Some?
      ensures |q| <= fuel - 1 && Fine(c, a, NodeAt(c, a, Items(c, a, n), n.hint, q).value)
    {
      assert ([k] + q)[1..] == q;
      assert NodeAt(c, a, items, base, [k] + q) == NodeAt(c, a, Items(c, a, n), n.hint, q);
    }
  }

  // ------------------------------------------------------- images are entries

  lemma PlatformOfManifest(way: seq<Fields>, n: Node, config: Fields, platform: string)
    requires way != [] && way[|way| - 1] == n.d && HintIs(way, None, n.hint) && PlatformOf(n.d).Ok?
    ensures HasPlatform(way, config, platform) <==> ManifestPlatform(n, config) == Ok(platform)
  {
    hide NotGiven, Declares, PlatformOf, NamesPlatform, OsArch;
    NamesPlatformMeans(config, platform);
    if PlatformOf(n.d).value.Some? {
      PlatformMeans(n.d, PlatformOf(n.d).value.value);
      assert Nearest(way, |way| - 1, PlatformOf(n.d).value.value);
      assert HintIs(way, None, PlatformOf(n.d).value);
      HintIsUnique(way, None, n.hint, PlatformOf(n.d).value);
    }
    if exists j :: Nearest(way, j, platform) {
      HintIsUnique(way, None, n.hint, Some(platform));
    }
    if NoneDeclares(way) {
      HintIsUnique(way, None, n.hint, None);
    }
    assert Or(PlatformOf(n.d).value, n.hint) == n.hint;
  }

  lemma EntryIsImage(c: Codec, a: Archive, way: seq<Fields>, n: Node, platform: string, image: Image)
    requires way != [] && way[|way| - 1] == n.d && HintIs(way, None, n.hint) && PlatformOf(n.d).Ok?
    ensures ImageAt(c, a, way, platform, image) <==> ManifestEntry(c, a, n) == Some((platform, image))
  {
    hide DocumentIs, Document, Attested, IsAttestation, LayersHeld, LayersBacked, HasLabels, LabelsOf, HasPlatform,
         ManifestPlatform, HasDigest, DigestOf, PlatformOf, HintIs, Leads;
    AttestedMeans(n.d);
    DigestMeans(n.d, image.digest);
    forall d, doc
      ensures DocumentIs(c, a, d, doc) <==> Document(c, a, d) == Some(doc)
    {
      DocumentMeans(c, a, d, doc);
    }
    forall layers
      ensures LayersHeld(c, a, layers) <==> LayersBacked(c, a, layers)
    {
      LayersMean(c, a, layers);
    }
    forall config
      ensures HasLabels(config, image.labels) <==> LabelsOf(config) == Ok(image.labels)
      ensures HasPlatform(way, config, platform) <==> ManifestPlatform(n, config) == Ok(platform)
    {
      LabelsMean(config, image.labels);
      PlatformOfManifest(way, n, config, platform);
    }
    DocumentHasDigest(c, a, n.d);
    if ImageAt(c, a, way, platform, image) {
      var doc, configDescriptor, config, layers :|
        && DocumentIs(c, a, n.d, doc) && NotGiven(doc, "manifests")
        && Field(doc, "config", Obj(configDescriptor)) && DocumentIs(c, a, configDescriptor, config)
        && Field(doc, "layers", Arr(layers)) && LayersHeld(c, a, layers)
        && HasPlatform(way, config, platform) && HasLabels(config, image.labels);
      assert Document(c, a, n.d) == Some(doc) && Document(c, a, configDescriptor) == Some(config);
    }
    if ManifestEntry(c, a, n) == Some((platform, image)) {
      var doc := Document(c, a, n.d).value;
      var configDescriptor := Get(doc, "config").fields;
      var config := Document(c, a, configDescriptor).value;
      assert DocumentIs(c, a, n.d, doc) && DocumentIs(c, a, configDescriptor, config);
      assert Field(doc, "config", Obj(configDescriptor)) && Field(doc, "layers", Arr(Get(doc, "layers").items));
      assert HasPlatform(way, config, platform) && HasLabels(config, image.labels);
    }
  }

  lemma DocumentHasDigest(c: Codec, a: Archive, d: Fields)
    ensures Document(c, a, d).Some? ==> DigestOf(d).Ok?
  {
  }

  // ------------------------------------------------------------ main theorems

  lemma RootsMean(c: Codec, a: Archive, payload: Bytes, roots: seq<Json>)
    ensures RootItems(c, a) == Ok((payload, roots)) <==> RootsAre(c, a, payload, roots) && roots != []
  {
  }

  /** In an accepted layout a chain is a position of the walk, and conversely. */
  lemma AcceptedChain(c: Codec, a: Archive, roots: seq<Json>, fuel: nat, path: seq<nat>, way: seq<Fields>)
    returns (n: Node)
    requires AllFine(c, a, roots, None, fuel) && Leads(c, a, roots, path, way)
    ensures NodeAt(c, a, roots, None, path) == Some(n) && Fine(c, a, n) && |path| <= fuel
    ensures PlatformOf(n.d).Ok? && way[|way| - 1] == n.d && HintIs(way, None, n.hint)
    ensures forall platform, image :: ImageAt(c, a, way, platform, image) <==> ManifestEntry(c, a, n) == Some((platform, image))
  {
    hide HintIs, Fine, ImageAt, ManifestEntry, Leads;
    ChainIsPosition(c, a, roots, None, fuel, path, way);
    n := NodeAt(c, a, roots, None, path).value;
    PositionIsFormed(c, a, roots, None, path);
    forall platform, image
      ensures ImageAt(c, a, way, platform, image) <==> ManifestEntry(c, a, n) == Some((platform, image))
    {
      ChainIsNotEmpty(c, a, roots, path, way);
      EntryIsImage(c, a, way, n, platform, image);
    }
  }

  lemma ChainIsNotEmpty(c: Codec, a: Archive, roots: seq<Json>, path: seq<nat>, way: seq<Fields>)
    requires Leads(c, a, roots, path, way)
    ensures way != []
  {
  }

  lemma {:induction false} PositionIsFormed(c: Codec, a: Archive, items: seq<Json>, base: Option<string>, path: seq<nat>)
    requires NodeAt(c, a, items, base, path).Some?
    ensures PlatformOf(NodeAt(c, a, items, base, path).value.d).Ok?
    decreases |path|
  {
    hide Items, PlatformOf;
    if |path| > 1 {
      var n := ItemNode(items[path[0]], base).value;
      PositionIsFormed(c, a, Items(c, a, n), n.hint, path[1..]);
    }
  }

  /** The images of an accepted layout are those that its documents describe: for each
      platform the image, with its labels, at the end of a chain of descriptors. */
  lemma ImagesMean(c: Codec, a: Archive, fuel: nat) returns (payload: Bytes, roots: seq<Json>)
    requires ReadLayout(c, a, fuel).Ok?
    ensures RootsAre(c, a, payload, roots) && ReadLayout(c, a, fuel).value.rootDigest == "sha256:" + c.hash(payload)
    ensures var images := ReadLayout(c, a, fuel).value.images;
            && (forall platform :: platform in images ==>
                  exists path :: Describes(c, a, roots, path, platform, images[platform]))
            && (forall path, platform, image :: Describes(c, a, roots, path, platform, image) ==>
                  platform in images && images[platform] == image)
  {
    hide AllFine, OnePerPlatform, AllNew, Describes, EntryAt, ReadLayout, RootsAre, Collected;
    LayoutIsWalked(c, a, fuel);
    LayoutImages(c, a, fuel);
    payload, roots := RootItems(c, a).value.0, RootItems(c, a).value.1;
    RootsMean(c, a, payload, roots);
    RootPayload(c, a);
    var images := ReadLayout(c, a, fuel).value.images;
    forall platform | platform in images
      ensures exists path :: Describes(c, a, roots, path, platform, images[platform])
    {
      var path :| EntryAt(c, a, roots, None, path) == Some((platform, images[platform]));
      DescribedIsEntry(c, a, roots, fuel, path, platform, images[platform]);
    }
    forall path, platform, image | Describes(c, a, roots, path, platform, image)
      ensures platform in images && images[platform] == image
    {
      DescribedIsEntry(c, a, roots, fuel, path, platform, image);
    }
  }

  lemma DescribedIsEntry(c: Codec, a: Archive, roots: seq<Json>, fuel: nat, path: seq<nat>, platform: string, image: Image)
    requires AllFine(c, a, roots, None, fuel)
    ensures EntryAt(c, a, roots, None, path) == Some((platform, image)) <==> Describes(c, a, roots, path, platform, image)
  {
    hide AllFine, Leads, ImageAt, ManifestEntry, NodeAt, HintIs, Fine;
    if EntryAt(c, a, roots, None, path) == Some((platform, image)) {
      var way := PositionIsChain(c, a, roots, None, path);
      var n := AcceptedChain(c, a, roots, fuel, path, way);
      assert ImageAt(c, a, way, platform, image);
    }
    if way :| Leads(c, a, roots, path, way) && ImageAt(c, a, way, platform, image) {
      var n := AcceptedChain(c, a, roots, fuel, path, way);
    }
  }

  lemma RootPayload(c: Codec, a: Archive)
    requires RootItems(c, a).Ok?
    ensures "index.json" in a && RootItems(c, a).value.0 == a["index.json"].content
  {
  }

  /** Every chain is at most `fuel` long and ends in something sound. */
  ghost predicate AllSound(c: Codec, a: Archive, roots: seq<Json>, fuel: nat) {
    && (forall i :: 0 <= i < |roots| ==> roots[i].Obj?)
    && forall path, way :: Leads(c, a, roots, path, way) ==> |path| <= fuel && SoundAt(c, a, way)
  }

  /** No platform is described at two positions. */
  ghost predicate NoPlatformTwice(c: Codec, a: Archive, roots: seq<Json>) {
    forall p, q, platform, x, y ::
      Describes(c, a, roots, p, platform, x) && Describes(c, a, roots, q, platform, y) ==> p == q
  }

  lemma FineIsSound(c: Codec, a: Archive, way: seq<Fields>, n: Node)
    requires way != [] && way[|way| - 1] == n.d && PlatformOf(n.d).Ok?
    requires forall platform, image :: ImageAt(c, a, way, platform, image) <==> ManifestEntry(c, a, n) == Some((platform, image))
    requires Fine(c, a, n)
    ensures SoundAt(c, a, way)
  {
    hide ImageAt, ManifestEntry, Items, Stored, Backed, WellFormed, PlatformOf, Attested, IsAttestation, Indexes;
    WellFormedMeans(n.d);
    HoldsMeans(c, a, n.d);
    AttestedMeans(n.d);
    var items := Items(c, a, n);
    if IsAttestation(n.d) {
    } else if items != [] && AllNodes(items, n.hint) {
      IndexesMeans(c, a, n, items);
      assert forall i :: 0 <= i < |items| ==> ItemNode(items[i], n.hint).Some?;
    } else {
      var e := ManifestEntry(c, a, n).value;
      assert ImageAt(c, a, way, e.0, e.1);
    }
  }

  /** A chain can be extended by whatever its last index lists. */
  lemma ExtendChain(c: Codec, a: Archive, roots: seq<Json>, path: seq<nat>, way: seq<Fields>, items: seq<Json>, k: nat)
    requires Leads(c, a, roots, path, way) && Indexes(c, a, way[|way| - 1], items) && k < |items| && items[k].Obj?
    ensures Leads(c, a, roots, path + [k], way + [items[k].fields])
  {
    hide Indexes;
    var longer := way + [items[k].fields];
    forall i | 0 <= i < |longer| - 1
      ensures Links(c, a, longer[i], (path + [k])[i + 1], longer[i + 1])
    {
      if i < |way| - 1 {
        assert Links(c, a, way[i], path[i + 1], way[i + 1]);
      } else {
        assert Links(c, a, way[i], k, items[k].fields);
      }
    }
  }

  lemma SoundNode(c: Codec, a: Archive, roots: seq<Json>, fuel: nat, path: seq<nat>, way: seq<Fields>, n: Node)
    requires AllSound(c, a, roots, fuel) && Leads(c, a, roots, path, way)
    requires way[|way| - 1] == n.d && HintIs(way, None, n.hint)
    ensures |path| <= fuel && Fine(c, a, n)
  {
    hide ImageAt, ManifestEntry, Items, Stored, Backed, WellFormed, PlatformOf, Attested, IsAttestation, Indexes, HintIs;
    assert SoundAt(c, a, way);
    WellFormedMeans(n.d);
    HoldsMeans(c, a, n.d);
    AttestedMeans(n.d);
    if Attested(n.d) && Stored(c, a, n.d) {
    } else if items: seq<Json> :| items != [] && Indexes(c, a, n.d, items) && forall i :: 0 <= i < |items| ==> items[i].Obj? {
      IndexesMeans(c, a, n, items);
      IndexIsBacked(c, a, n, items);
      forall i | 0 <= i < |items|
        ensures ItemNode(items[i], n.hint).Some?
      {
        ExtendChain(c, a, roots, path, way, items, i);
        var longer := way + [items[i].fields];
        assert SoundAt(c, a, longer);
        WellFormedMeans(items[i].fields);
      }
    } else {
      var platform, image :| ImageAt(c, a, way, platform, image);
      EntryIsImage(c, a, way, n, platform, image);
      EntryIsBacked(c, a, n);
    }
  }

  lemma IndexIsBacked(c: Codec, a: Archive, n: Node, items: seq<Json>)
    requires Items(c, a, n) == items != []
    ensures Backed(c, a, n.d)
  {
  }

  lemma EntryIsBacked(c: Codec, a: Archive, n: Node)
    requires ManifestEntry(c, a, n).Some?
    ensures Backed(c, a, n.d)
  {
  }

  lemma SoundIsFine(c: Codec, a: Archive, roots: seq<Json>, fuel: nat)
    ensures AllSound(c, a, roots, fuel) <==> AllFine(c, a, roots, None, fuel)
  {
    hide Fine, SoundAt, ImageAt, ManifestEntry, HintIs, Links, PlatformOf, WellFormed;
    if AllFine(c, a, roots, None, fuel) {
      assert forall i :: 0 <= i < |roots| ==> ItemNode(roots[i], None).Some?;
      forall path, way | Leads(c, a, roots, path, way)
        ensures |path| <= fuel && SoundAt(c, a, way)
      {
        var n := AcceptedChain(c, a, roots, fuel, path, way);
        FineIsSound(c, a, way, n);
      }
    }
    if AllSound(c, a, roots, fuel) {
      forall i | 0 <= i < |roots|
        ensures ItemNode(roots[i], None).Some?
      {
        var d := roots[i].fields;
        assert Leads(c, a, roots, [i], [d]);
        SoundIsFormed(c, a, [d]);
        WellFormedMeans(d);
      }
      forall path | NodeAt(c, a, roots, None, path).Some?
        ensures |path| <= fuel && Fine(c, a, NodeAt(c, a, roots, None, path).value)
      {
        var way := PositionIsChain(c, a, roots, None, path);
        SoundNode(c, a, roots, fuel, path, way, NodeAt(c, a, roots, None, path).value);
      }
    }
  }

  lemma SoundIsFormed(c: Codec, a: Archive, way: seq<Fields>)
    requires SoundAt(c, a, way)
    ensures WellFormed(way[|way| - 1])
  {
  }

  lemma EntriesAreImages(c: Codec, a: Archive, roots: seq<Json>, fuel: nat)
    requires AllFine(c, a, roots, None, fuel)
    ensures NoPlatformTwice(c, a, roots) <==> OnePerPlatform(c, a, roots, None)
    ensures (exists path :: EntryAt(c, a, roots, None, path).Some?) <==>
            exists path, platform, image :: Describes(c, a, roots, path, platform, image)
  {
    hide AllFine, Describes, EntryAt;
    forall path, platform, image
      ensures EntryAt(c, a, roots, None, path) == Some((platform, image)) <==> Describes(c, a, roots, path, platform, image)
    {
      DescribedIsEntry(c, a, roots, fuel, path, platform, image);
    }
    forall path | EntryAt(c, a, roots, None, path).Some?
      ensures var e := EntryAt(c, a, roots, None, path).value;
              Describes(c, a, roots, path, e.0, e.1)
    {
      var e := EntryAt(c, a, roots, None, path).value;
      assert EntryAt(c, a, roots, None, path) == Some((e.0, e.1));
    }
  }

  /** A layout is accepted if and only if its index document lists descriptors, every
      chain of them is within the recursion limit and ends in something sound, some
      chain yields an image, and no platform occurs at two positions. */
  lemma AcceptedMeans(c: Codec, a: Archive, fuel: nat)
    ensures ReadLayout(c, a, fuel).Ok? <==>
            exists payload, roots ::
              && RootsAre(c, a, payload, roots) && roots != []
              && AllSound(c, a, roots, fuel) && NoPlatformTwice(c, a, roots)
              && exists path, platform, image :: Describes(c, a, roots, path, platform, image)
  {
    hide AllFine, AllSound, OnePerPlatform, NoPlatformTwice, EntryAt, Describes, RootsAre, ReadLayout, RootItems;
    LayoutAcceptedIff(c, a, fuel);
    forall payload, roots
      ensures RootItems(c, a) == Ok((payload, roots)) <==> RootsAre(c, a, payload, roots) && roots != []
      ensures AllSound(c, a, roots, fuel) <==> AllFine(c, a, roots, None, fuel)
    {
      RootsMean(c, a, payload, roots);
      SoundIsFine(c, a, roots, fuel);
    }
    forall roots | AllFine(c, a, roots, None, fuel)
      ensures NoPlatformTwice(c, a, roots) <==> OnePerPlatform(c, a, roots, None)
      ensures (exists path :: EntryAt(c, a, roots, None, path).Some?) <==>
              exists path, platform, image :: Describes(c, a, roots, path, platform, image)
    {
      EntriesAreImages(c, a, roots, fuel);
    }
    if RootItems(c, a).Ok? {
      var payload, roots := RootItems(c, a).value.0, RootItems(c, a).value.1;
      assert RootItems(c, a) == Ok((payload, roots));
    }
  }
}
