/** Reading an OCI image layout: a recursive walk over content-addressed blobs
    (OCI Image Format Specification, "OCI Content Descriptors", "OCI Image Index
    Specification" and "OCI Image Layout Specification").

    SHA-256 and JSON decoding are the parameters `hash` and `decode`; nothing is
    assumed of them unless a lemma says so. */
module OciLayout {
  import opened Binary
  import opened Wrappers

  datatype Error =
    | LayoutInvalid | RootInvalid | DigestMismatch | PlatformInvalid | RecursionLimit

  datatype Json =
    | Null
    | Bool(bool)
    | Int(int)
    | Float(real)
    | Str(text: string)
    | Arr(items: seq<Json>)
    | Obj(fields: Fields)

  type Fields = map<string, Json>

  datatype Codec = Codec(hash: Bytes -> string, decode: Bytes -> Option<Json>)

  /** A tar member: its type, the size in its header, and the bytes it yields. */
  datatype Member = Member(regular: bool, size: nat, content: Bytes)

  type Archive = map<string, Member>

  datatype Image = Image(digest: string, labels: map<string, string>)
  type Images = map<string, Image>
  datatype Layout = Layout(rootDigest: string, images: Images)

  const PLATFORMS: seq<string> := ["linux/amd64", "linux/arm64"]

  // ------------------------------------------------------- field accessors

  function Get(d: Fields, key: string): Json {
    if key in d then d[key] else Null
  }

  function RequireMapping(j: Json): Result<Fields, Error> {
    if j.Obj? then Ok(j.fields) else Err(LayoutInvalid)
  }

  function RequireSequence(j: Json): Result<seq<Json>, Error> {
    if j.Arr? then Ok(j.items) else Err(LayoutInvalid)
  }

  predicate IsHex(ch: char) {
    '0' <= ch <= '9' || 'a' <= ch <= 'f'
  }

  predicate IsDigest(s: string) {
    |s| == 71 && s[..7] == "sha256:" && forall i :: 7 <= i < 71 ==> IsHex(s[i])
  }

  function DigestOf(d: Fields): Result<string, Error> {
    match Get(d, "digest")
    case Str(s) => if IsDigest(s) then Ok(s) else Err(LayoutInvalid)
    case _ => Err(LayoutInvalid)
  }

  function SizeOf(d: Fields): Result<nat, Error> {
    match Get(d, "size")
    case Int(n) => if n < 0 then Err(LayoutInvalid) else Ok(n)
    case _ => Err(LayoutInvalid)
  }

  function OsArch(d: Fields): Result<string, Error> {
    match (Get(d, "os"), Get(d, "architecture"))
    case (Str(os), Str(arch)) => Ok(os + "/" + arch)
    case _ => Err(LayoutInvalid)
  }

  function PlatformOf(d: Fields): Result<Option<string>, Error> {
    if Get(d, "platform") == Null then Ok(None)
    else
      var p :- RequireMapping(Get(d, "platform"));
      var s :- OsArch(p);
      Ok(Some(s))
  }

  function Or(p: Option<string>, q: Option<string>): Option<string> {
    if p.Some? then p else q
  }

  function LabelsOf(config: Fields): Result<map<string, string>, Error> {
    var section :- RequireMapping(Get(config, "config"));
    var labels :- RequireMapping(if "Labels" in section then section["Labels"] else Obj(map[]));
    if forall k :: k in labels ==> labels[k].Str? then
      Ok(map k | k in labels :: labels[k].text)
    else
      Err(LayoutInvalid)
  }

  predicate IsAttestation(d: Fields) {
    var annotations := Get(d, "annotations");
    annotations.Obj? &&
    Get(annotations.fields, "vnd.docker.reference.type") == Str("attestation-manifest")
  }

  // ------------------------------------------------------------------ blobs

  function BlobName(digest: string): string
    requires |digest| >= 7
  {
    "blobs/sha256/" + digest[7..]
  }

  /** The bytes behind a descriptor, once its digest, size and member are checked. */
  function Blob(c: Codec, a: Archive, d: Fields): Result<Bytes, Error> {
    var digest :- DigestOf(d);
    var size :- SizeOf(d);
    var name := BlobName(digest);
    if name !in a || !a[name].regular then Err(LayoutInvalid)
    else if a[name].size != size then Err(DigestMismatch)
    else if |a[name].content| != size || "sha256:" + c.hash(a[name].content) != digest then Err(DigestMismatch)
    else Ok(a[name].content)
  }

  const CHUNK: nat := 1024 * 1024

  /** Hash a blob chunk by chunk, keeping the chunks only when asked to. */
  method VerifyDescriptorBlob(c: Codec, a: Archive, d: Fields, collect: bool) returns (r: Result<Option<Bytes>, Error>)
    ensures r == match Blob(c, a, d)
                 case Ok(content) => Ok(if collect then Some(content) else None)
                 case Err(e) => Err(e)
  {
    var digest :- DigestOf(d);
    var size :- SizeOf(d);
    var name := BlobName(digest);
    if name !in a || !a[name].regular {
      return Err(LayoutInvalid);
    }
    var member := a[name];
    if member.size != size {
      return Err(DigestMismatch);
    }
    var hashed: Bytes := [];
    var byteCount := 0;
    var chunks: seq<Bytes> := [];
    var position := 0;
    while position < |member.content|
      invariant 0 <= position <= |member.content|
      invariant hashed == member.content[..position] && byteCount == position
      invariant collect ==> Joined(chunks) == hashed
    {
      var end := if |member.content| - position < CHUNK then |member.content| else position + CHUNK;
      var chunk := member.content[position..end];
      hashed := hashed + chunk;
      byteCount := byteCount + |chunk|;
      if collect {
        JoinedAppend(chunks, chunk);
        chunks := chunks + [chunk];
      }
      position := end;
    }
    assert hashed == member.content;
    if byteCount != size || "sha256:" + c.hash(hashed) != digest {
      return Err(DigestMismatch);
    }
    return Ok(if collect then Some(Joined(chunks)) else None);
  }

  function Joined(chunks: seq<Bytes>): Bytes {
    if chunks == [] then [] else chunks[0] + Joined(chunks[1..])
  }

  lemma {:induction false} JoinedAppend(chunks: seq<Bytes>, last: Bytes)
    ensures Joined(chunks + [last]) == Joined(chunks) + last
  {
    if chunks != [] {
      assert (chunks + [last])[1..] == chunks[1..] + [last];
      JoinedAppend(chunks[1..], last);
    }
  }

  function BlobJson(c: Codec, a: Archive, d: Fields): Result<Fields, Error> {
    var payload :- Blob(c, a, d);
    match c.decode(payload)
    case Some(j) => RequireMapping(j)
    case None => Err(LayoutInvalid)
  }

  method ReadBlobJson(c: Codec, a: Archive, d: Fields) returns (r: Result<Fields, Error>)
    ensures r == BlobJson(c, a, d)
  {
    var payload :- VerifyDescriptorBlob(c, a, d, true);
    match c.decode(payload.value)
    case Some(j) => return RequireMapping(j);
    case None => return Err(LayoutInvalid);
  }

  // --------------------------------------------------------------- the walk

  /** A descriptor to visit and the platform its ancestors declared. */
  datatype Node = Node(d: Fields, hint: Option<string>)

  function VerifyLayers(c: Codec, a: Archive, layers: seq<Json>): Result<(), Error> {
    if layers == [] then Ok(())
    else
      var d :- RequireMapping(layers[0]);
      var _ :- Blob(c, a, d);
      VerifyLayers(c, a, layers[1..])
  }

  function ManifestPlatform(n: Node, config: Fields): Result<string, Error> {
    var own :- PlatformOf(n.d);
    match Or(own, n.hint)
    case Some(p) => Ok(p)
    case None => OsArch(config)
  }

  function VisitManifest(c: Codec, a: Archive, n: Node, payload: Fields, images: Images): Result<Images, Error> {
    var digest :- DigestOf(n.d);
    var configDescriptor :- RequireMapping(Get(payload, "config"));
    var layers :- RequireSequence(Get(payload, "layers"));
    var _ :- VerifyLayers(c, a, layers);
    var config :- BlobJson(c, a, configDescriptor);
    var platform :- ManifestPlatform(n, config);
    if platform !in PLATFORMS || platform in images then Err(PlatformInvalid)
    else
      var labels :- LabelsOf(config);
      Ok(images[platform := Image(digest, labels)])
  }

  /** `visit`, with the interpreter's recursion limit as `fuel`: only the hash
      keeps the blob graph from being cyclic. */
  function Visit(c: Codec, a: Archive, n: Node, images: Images, fuel: nat): Result<Images, Error>
    decreases fuel, 0
  {
    if fuel == 0 then Err(RecursionLimit)
    else if IsAttestation(n.d) then
      var _ :- Blob(c, a, n.d);
      Ok(images)
    else
      var payload :- BlobJson(c, a, n.d);
      if Get(payload, "manifests") == Null then VisitManifest(c, a, n, payload, images)
      else
        var items :- RequireSequence(Get(payload, "manifests"));
        if items == [] then Err(LayoutInvalid) else VisitItems(c, a, items, n.hint, images, fuel - 1)
  }

  function VisitItems(c: Codec, a: Archive, items: seq<Json>, hint: Option<string>, images: Images, fuel: nat):
    Result<Images, Error>
    decreases fuel, |items|
  {
    if items == [] then Ok(images)
    else
      var d :- RequireMapping(items[0]);
      var p :- PlatformOf(d);
      var images' :- Visit(c, a, Node(d, Or(p, hint)), images, fuel);
      VisitItems(c, a, items[1..], hint, images', fuel)
  }

  /** The raw index document and its list of root descriptors. */
  function RootItems(c: Codec, a: Archive): Result<(Bytes, seq<Json>), Error> {
    if "index.json" !in a || !a["index.json"].regular then Err(LayoutInvalid)
    else
      var payload := a["index.json"].content;
      if |payload| != a["index.json"].size then Err(LayoutInvalid)
      else
        match c.decode(payload)
        case None => Err(LayoutInvalid)
        case Some(j) =>
          var index :- RequireMapping(j);
          var items :- RequireSequence(Get(index, "manifests"));
          if items == [] then Err(RootInvalid) else Ok((payload, items))
  }

  function ReadLayout(c: Codec, a: Archive, fuel: nat): Result<Layout, Error> {
    var root :- RootItems(c, a);
    var images :- VisitItems(c, a, root.1, None, map[], fuel);
    if images == map[] then Err(LayoutInvalid) else Ok(Layout("sha256:" + c.hash(root.0), images))
  }

  // -------------------------------------------------------- the walk in place

  /** `_read_oci_layout` with its nested `visit`, which fills `images` as it goes. */
  class LayoutReader {
    const c: Codec
    const a: Archive
    var images: Images

    constructor (c: Codec, a: Archive)
      ensures this.c == c && this.a == a && images == map[]
    {
      this.c, this.a, images := c, a, map[];
    }

    method VisitNode(n: Node, fuel: nat) returns (r: Result<(), Error>)
      modifies this
      ensures match Visit(c, a, n, old(images), fuel)
              case Ok(m) => r == Ok(()) && images == m
              case Err(e) => r == Err(e)
      decreases fuel, 0
    {
      if fuel == 0 {
        return Err(RecursionLimit);
      }
      if IsAttestation(n.d) {
        var _ :- VerifyDescriptorBlob(c, a, n.d, false);
        return Ok(());
      }
      var digest :- DigestOf(n.d);
      var payload :- ReadBlobJson(c, a, n.d);
      var nested := Get(payload, "manifests");
      if nested != Null {
        var items :- RequireSequence(nested);
        if items == [] {
          return Err(LayoutInvalid);
        }
        r := VisitEach(items, n.hint, fuel - 1);
        return;
      }
      var configDescriptor :- RequireMapping(Get(payload, "config"));
      var layers :- RequireSequence(Get(payload, "layers"));
      for k := 0 to |layers|
        invariant images == old(images)
        invariant VerifyLayers(c, a, layers) == VerifyLayers(c, a, layers[k..])
      {
        assert layers[k..][1..] == layers[k + 1..];
        var layer :- RequireMapping(layers[k]);
        var _ :- VerifyDescriptorBlob(c, a, layer, false);
      }
      var config :- ReadBlobJson(c, a, configDescriptor);
      var platform :- ManifestPlatform(n, config);
      if platform !in PLATFORMS || platform in images {
        return Err(PlatformInvalid);
      }
      var labels :- LabelsOf(config);
      images := images[platform := Image(digest, labels)];
      return Ok(());
    }

    method VisitEach(items: seq<Json>, hint: Option<string>, fuel: nat) returns (r: Result<(), Error>)
      modifies this
      ensures match VisitItems(c, a, items, hint, old(images), fuel)
              case Ok(m) => r == Ok(()) && images == m
              case Err(e) => r == Err(e)
      decreases fuel, 1
    {
      for k := 0 to |items|
        invariant VisitItems(c, a, items, hint, old(images), fuel)
               == VisitItems(c, a, items[k..], hint, images, fuel)
      {
        assert items[k..][1..] == items[k + 1..];
        var child :- RequireMapping(items[k]);
        var platform :- PlatformOf(child);
        var _ :- VisitNode(Node(child, Or(platform, hint)), fuel);
      }
      return Ok(());
    }
  }

  method ReadOciLayout(c: Codec, a: Archive, fuel: nat) returns (r: Result<Layout, Error>)
    ensures r == ReadLayout(c, a, fuel)
  {
    var root :- RootItems(c, a);
    var rootDigest := "sha256:" + c.hash(root.0);
    var reader := new LayoutReader(c, a);
    var _ :- reader.VisitEach(root.1, None, fuel);
    if reader.images == map[] {
      return Err(LayoutInvalid);
    }
    return Ok(Layout(rootDigest, reader.images));
  }
}
