/** Which repository files go into a role package: a growing set over overlapping
    source roots, filtered by the role's contract. */
module RoleSelection {
  import TextOrder
  import opened Wrappers

  type Path = string

  datatype Kind = File | Directory | Symlink | Special

  /** A repository: every entry with its kind. */
  type Repository = map<Path, Kind>

  datatype PackageKind = Static | Python

  datatype Contract = Contract(sourcePaths: seq<Path>, exclusions: seq<Path>, packageKind: PackageKind)

  datatype Error = PathUnsafe | PathMissing | PathInvalid | FoundationMissing | AllowlistEmpty

  const INIT := "plastic_promise/__init__.py"
  const TYPED := "plastic_promise/py.typed"

  predicate HasPrefix(p: string, prefix: string) {
    |prefix| <= |p| && p[..|prefix|] == prefix
  }

  /** `p` is `root` or lies below it. */
  predicate Under(root: Path, p: Path) {
    p == root || HasPrefix(p, root + "/")
  }

  predicate UnderAny(roots: seq<Path>, p: Path) {
    exists i :: 0 <= i < |roots| && Under(roots[i], p)
  }

  predicate IncludesSourcePath(c: Contract, p: Path) {
    p != "" && UnderAny(c.sourcePaths, p) && !UnderAny(c.exclusions, p)
  }

  predicate Contains(p: string, part: string) {
    HasPrefix(p, part) || (p != "" && Contains(p[1..], part))
  }

  predicate Bytecode(p: Path) {
    (|p| >= 4 && p[|p| - 4..] == ".pyc") || Contains("/" + p + "/", "/__pycache__/")
  }

  /** Absolute, or with a parent component. Roots are otherwise in normal form. */
  predicate Unsafe(root: Path) {
    HasPrefix(root, "/") || Contains("/" + root + "/", "/../")
  }

  /** Whatever has an entry below it is a directory. */
  ghost predicate WellFormed(repo: Repository) {
    forall p, q :: p in repo && q in repo && p != q && Under(p, q) ==> repo[p] == Directory
  }

  /** The files of the repository that belong to a package. */
  function Chosen(repo: Repository, c: Contract): set<Path> {
    set p | p in repo && repo[p] == File && !Bytecode(p) && IncludesSourcePath(c, p)
  }

  /** The files that one source root contributes before filtering. */
  function Candidates(repo: Repository, root: Path): set<Path>
    requires root in repo
  {
    if repo[root] == File then {root} else set p | p in repo && p != root && Under(root, p) && repo[p] == File
  }

  /** Why a source root is refused, if it is. */
  function RootError(repo: Repository, root: Path): (e: seq<Error>)
    ensures |e| <= 1
    ensures e == [] <==> !Unsafe(root) && root in repo && (repo[root] == File || repo[root] == Directory)
  {
    if Unsafe(root) then [PathUnsafe]
    else if root !in repo then [PathMissing]
    else
      match repo[root]
      case Symlink => [PathMissing]
      case Special => [PathInvalid]
      case _ => []
  }

  // ---------------------------------------------------------- the reference

  /** `p` is `root` or lies below it. */
  ghost predicate AtOrBelow(root: Path, p: Path) {
    p == root || exists rest :: p == root + "/" + rest
  }

  /** One of the names between the slashes of `p`. */
  ghost predicate HasComponent(p: Path, name: string) {
    exists i :: ComponentAt(p, name, i)
  }

  ghost predicate ComponentAt(p: Path, name: string, i: nat) {
    && i + |name| <= |p| && p[i..i + |name|] == name
    && (i == 0 || p[i - 1] == '/') && (i + |name| == |p| || p[i + |name|] == '/')
  }

  ghost predicate Compiled(p: Path) {
    (exists stem :: p == stem + ".pyc") || HasComponent(p, "__pycache__")
  }

  /** A file that belongs to the package: source code at or below a source root of the
      contract, and not at or below an exclusion. */
  ghost predicate Wanted(repo: Repository, c: Contract, p: Path) {
    && p in repo && repo[p] == File && p != "" && !Compiled(p)
    && (exists i :: 0 <= i < |c.sourcePaths| && AtOrBelow(c.sourcePaths[i], p))
    && forall i :: 0 <= i < |c.exclusions| ==> !AtOrBelow(c.exclusions[i], p)
  }

  ghost predicate UnsafeRoot(root: Path) {
    (root != "" && root[0] == '/') || HasComponent(root, "..")
  }

  ghost predicate Usable(repo: Repository, root: Path) {
    !UnsafeRoot(root) && root in repo && (repo[root] == File || repo[root] == Directory)
  }

  ghost predicate AllUsable(repo: Repository, c: Contract) {
    forall i :: 0 <= i < |c.sourcePaths| ==> Usable(repo, c.sourcePaths[i])
  }

  ghost predicate FirstUnusable(repo: Repository, c: Contract, root: Path) {
    exists i ::
      && 0 <= i < |c.sourcePaths| && c.sourcePaths[i] == root && !Usable(repo, root)
      && forall j :: 0 <= j < i ==> Usable(repo, c.sourcePaths[j])
  }

  lemma PrefixMeans(p: string, prefix: string)
    ensures HasPrefix(p, prefix) <==> exists rest :: p == prefix + rest
  {
    if HasPrefix(p, prefix) {
      assert p == prefix + p[|prefix|..];
    }
  }

  lemma UnderMeans(root: Path, p: Path)
    ensures Under(root, p) <==> AtOrBelow(root, p)
  {
    hide HasPrefix;
    PrefixMeans(p, root + "/");
  }

  ghost predicate OccursAt(p: string, part: string, k: nat) {
    k + |part| <= |p| && forall i :: 0 <= i < |part| ==> p[k + i] == part[i]
  }

  lemma {:induction false} ContainsMeans(p: string, part: string)
    requires part != ""
    ensures Contains(p, part) <==> exists k :: OccursAt(p, part, k)
    decreases |p|
  {
    assert |part| <= |p| && OccursAt(p, part, 0) ==> p[..|part|] == part;
    if HasPrefix(p, part) {
      assert forall i :: 0 <= i < |part| ==> p[i] == p[..|part|][i];
      assert OccursAt(p, part, 0);
    } else if p != "" {
      ContainsMeans(p[1..], part);
      if k: nat :| OccursAt(p[1..], part, k) {
        forall i | 0 <= i < |part|
          ensures p[k + 1 + i] == part[i]
        {
          assert p[1..][k + i] == part[i];
        }
        assert OccursAt(p, part, k + 1);
      }
      if k: nat :| OccursAt(p, part, k) {
        if k > 0 {
          forall i | 0 <= i < |part|
            ensures p[1..][k - 1 + i] == part[i]
          {
            assert p[k + i] == part[i];
          }
          assert OccursAt(p[1..], part, k - 1);
        }
      }
    }
  }

  lemma Padded(s: string)
    ensures var t := "/" + s + "/";
            |t| == |s| + 2 && t[0] == '/' && t[|s| + 1] == '/' && forall i :: 0 <= i < |s| ==> t[i + 1] == s[i]
  {
  }

  /** Between slashes on both sides of the text, a name occurs where it is a component. */
  lemma PaddedOccurrence(p: Path, name: string, k: nat)
    ensures OccursAt("/" + p + "/", "/" + name + "/", k) <==> ComponentAt(p, name, k)
  {
    var padded, part := "/" + p + "/", "/" + name + "/";
    Padded(p);
    Padded(name);
    if OccursAt(padded, part, k) {
      OccurrenceIsComponent(p, padded, name, part, k);
    }
    if ComponentAt(p, name, k) {
      ComponentOccurs(p, padded, name, part, k);
    }
  }

  lemma OccurrenceIsComponent(p: Path, padded: string, name: string, part: string, k: nat)
    requires |padded| == |p| + 2 && forall i :: 0 <= i < |p| ==> padded[i + 1] == p[i]
    requires |part| == |name| + 2 && part[0] == '/' && part[|name| + 1] == '/'
    requires forall i :: 0 <= i < |name| ==> part[i + 1] == name[i]
    requires OccursAt(padded, part, k)
    ensures ComponentAt(p, name, k)
  {
    assert padded[k + 0] == part[0] && padded[k + (|name| + 1)] == part[|name| + 1];
    forall i | 0 <= i < |name|
      ensures p[k + i] == name[i]
    {
      assert padded[k + (i + 1)] == part[i + 1];
    }
    assert p[k..k + |name|] == name;
  }

  lemma ComponentOccurs(p: Path, padded: string, name: string, part: string, k: nat)
    requires |padded| == |p| + 2 && padded[0] == '/' && padded[|p| + 1] == '/'
    requires forall i :: 0 <= i < |p| ==> padded[i + 1] == p[i]
    requires |part| == |name| + 2 && part[0] == '/' && part[|name| + 1] == '/'
    requires forall i :: 0 <= i < |name| ==> part[i + 1] == name[i]
    requires ComponentAt(p, name, k)
    ensures OccursAt(padded, part, k)
  {
    forall i | 0 <= i < |part|
      ensures padded[k + i] == part[i]
    {
      if 0 < i <= |name| {
        assert p[k..k + |name|][i - 1] == p[k + i - 1];
        assert padded[(k + i - 1) + 1] == p[k + i - 1] && part[(i - 1) + 1] == name[i - 1];
      } else if i == 0 && k > 0 {
        assert padded[(k - 1) + 1] == p[k - 1];
      } else if i > 0 && k + |name| < |p| {
        assert padded[(k + |name|) + 1] == p[k + |name|];
      }
    }
  }

  lemma ComponentMeans(p: Path, name: string)
    ensures Contains("/" + p + "/", "/" + name + "/") <==> HasComponent(p, name)
  {
    hide OccursAt, ComponentAt, Contains;
    ContainsMeans("/" + p + "/", "/" + name + "/");
    forall k: nat
      ensures OccursAt("/" + p + "/", "/" + name + "/", k) <==> ComponentAt(p, name, k)
    {
      PaddedOccurrence(p, name, k);
    }
  }

  lemma BytecodeMeans(p: Path)
    ensures Bytecode(p) <==> Compiled(p)
  {
    hide Contains, HasComponent;
    ComponentMeans(p, "__pycache__");
    assert "/" + "__pycache__" + "/" == "/__pycache__/";
    if |p| >= 4 && p[|p| - 4..] == ".pyc" {
      assert p == p[..|p| - 4] + ".pyc";
    }
  }

  lemma UnsafeMeans(root: Path)
    ensures Unsafe(root) <==> UnsafeRoot(root)
  {
    hide Contains, HasComponent;
    ComponentMeans(root, "..");
    assert "/" + ".." + "/" == "/../";
  }

  lemma UnderAnyMeans(roots: seq<Path>, p: Path)
    ensures UnderAny(roots, p) <==> exists i :: 0 <= i < |roots| && AtOrBelow(roots[i], p)
  {
    hide Under, AtOrBelow;
    forall i | 0 <= i < |roots|
      ensures Under(roots[i], p) <==> AtOrBelow(roots[i], p)
    {
      UnderMeans(roots[i], p);
    }
  }

  lemma ChosenMeans(repo: Repository, c: Contract, p: Path)
    ensures p in Chosen(repo, c) <==> Wanted(repo, c, p)
  {
    hide Bytecode, Compiled, UnderAny, AtOrBelow;
    BytecodeMeans(p);
    UnderAnyMeans(c.sourcePaths, p);
    UnderAnyMeans(c.exclusions, p);
  }

  lemma RootErrorMeans(repo: Repository, root: Path)
    ensures RootError(repo, root) == [] <==> Usable(repo, root)
    ensures RootError(repo, root) == [PathUnsafe] <==> UnsafeRoot(root)
    ensures RootError(repo, root) == [PathMissing] <==> !UnsafeRoot(root) && (root !in repo || repo[root] == Symlink)
    ensures RootError(repo, root) == [PathInvalid] <==> !UnsafeRoot(root) && root in repo && repo[root] == Special
  {
    hide Unsafe, UnsafeRoot;
    UnsafeMeans(root);
  }

  /** `_select_paths`: fails on the first unusable root, or when the foundation or
      everything is missing; otherwise returns the sorted wanted files. */
  method SelectPaths(repo: Repository, c: Contract) returns (r: Result<seq<Path>, Error>)
    requires WellFormed(repo)
    ensures r.Ok? <==>
              AllUsable(repo, c) && (exists p :: Wanted(repo, c, p)) && (c.packageKind == Python ==> Wanted(repo, c, INIT))
    ensures r.Ok? ==> TextOrder.StrictlySorted(r.value) && forall p :: p in r.value <==> Wanted(repo, c, p)
    ensures r == Err(PathUnsafe) <==> exists root :: FirstUnusable(repo, c, root) && UnsafeRoot(root)
    ensures r == Err(PathInvalid) <==>
              exists root :: FirstUnusable(repo, c, root) && !UnsafeRoot(root) && root in repo && repo[root] == Special
    ensures r == Err(PathMissing) <==>
              exists root :: FirstUnusable(repo, c, root) && !UnsafeRoot(root) && (root !in repo || repo[root] == Symlink)
    ensures r == Err(FoundationMissing) <==> AllUsable(repo, c) && c.packageKind == Python && !Wanted(repo, c, INIT)
    ensures r == Err(AllowlistEmpty) <==>
              AllUsable(repo, c) && c.packageKind == Static && forall p :: !Wanted(repo, c, p)
  {
    hide Bytecode, Contains, Unsafe, HasPrefix, Chosen, RootError, UnsafeRoot, Wanted, Candidates, Filter, UnderAny;
    forall p
      ensures p in Chosen(repo, c) <==> Wanted(repo, c, p)
    {
      ChosenMeans(repo, c, p);
    }
    ChosenIsUnder(repo, c);
    var selected: set<Path> := {};
    for k := 0 to |c.sourcePaths|
      invariant forall i :: 0 <= i < k ==> Usable(repo, c.sourcePaths[i])
      invariant selected == set p | p in Chosen(repo, c) && UnderAny(c.sourcePaths[..k], p)
    {
      var root := c.sourcePaths[k];
      var refused := RootError(repo, root);
      RootErrorMeans(repo, root);
      if refused != [] {
        FirstIsUnique(repo, c, k);
        return Err(refused[0]);
      }
      var kept := Filter(c, Candidates(repo, root));
      RootContributes(repo, c, k);
      selected := selected + kept;
    }
    assert c.sourcePaths[..|c.sourcePaths|] == c.sourcePaths;
    assert selected == Chosen(repo, c);
    if c.packageKind == Python && INIT !in selected {
      return Err(FoundationMissing);
    }
    if selected == {} {
      return Err(AllowlistEmpty);
    }
    TextOrder.SortedIsSorted(selected);
    return Ok(TextOrder.Sorted(selected));
  }

  lemma ChosenIsUnder(repo: Repository, c: Contract)
    ensures Chosen(repo, c) == set p | p in Chosen(repo, c) && UnderAny(c.sourcePaths, p)
    ensures {} == set p | p in Chosen(repo, c) && UnderAny(c.sourcePaths[..0], p)
  {
    hide Bytecode, Under;
  }

  lemma FirstIsUnique(repo: Repository, c: Contract, k: nat)
    requires k < |c.sourcePaths| && !Usable(repo, c.sourcePaths[k])
    requires forall i :: 0 <= i < k ==> Usable(repo, c.sourcePaths[i])
    ensures !AllUsable(repo, c) && forall root :: FirstUnusable(repo, c, root) <==> root == c.sourcePaths[k]
  {
    hide Usable;
    forall root | FirstUnusable(repo, c, root)
      ensures root == c.sourcePaths[k]
    {
      var i :| && 0 <= i < |c.sourcePaths| && c.sourcePaths[i] == root && !Usable(repo, root)
               && forall j :: 0 <= j < i ==> Usable(repo, c.sourcePaths[j]);
      assert i == k;
    }
  }

  /** The candidates that pass the bytecode filter and the contract. */
  function Filter(c: Contract, candidates: set<Path>): set<Path> {
    set p | p in candidates && !Bytecode(p) && IncludesSourcePath(c, p)
  }

  lemma RootContributes(repo: Repository, c: Contract, k: nat)
    requires WellFormed(repo) && k < |c.sourcePaths| && RootError(repo, c.sourcePaths[k]) == []
    ensures (set p | p in Chosen(repo, c) && UnderAny(c.sourcePaths[..k], p)) + Filter(c, Candidates(repo, c.sourcePaths[k]))
         == set p | p in Chosen(repo, c) && UnderAny(c.sourcePaths[..k + 1], p)
  {
    hide Bytecode, Contains, Unsafe, HasPrefix;
    var root := c.sourcePaths[k];
    forall p
      ensures UnderAny(c.sourcePaths[..k + 1], p) <==> UnderAny(c.sourcePaths[..k], p) || Under(root, p)
    {
      if Under(root, p) {
        assert c.sourcePaths[..k + 1][k] == root;
      }
      if UnderAny(c.sourcePaths[..k], p) {
        var i :| 0 <= i < k && Under(c.sourcePaths[..k][i], p);
        assert c.sourcePaths[..k + 1][i] == c.sourcePaths[..k][i];
      }
      if UnderAny(c.sourcePaths[..k + 1], p) && !Under(root, p) {
        var i :| 0 <= i < k + 1 && Under(c.sourcePaths[..k + 1][i], p);
        assert c.sourcePaths[..k][i] == c.sourcePaths[..k + 1][i];
      }
    }
    forall p | p in Chosen(repo, c) && Under(root, p)
      ensures p in Filter(c, Candidates(repo, root))
    {
    }
  }

  // ------------------------------------------------------ shipped contracts

  /** Each name under the given directory. */
  function In(directory: string, names: seq<string>): (r: seq<Path>)
    ensures |r| == |names| && forall i :: 0 <= i < |r| ==> r[i] == directory + names[i]
  {
    seq(|names|, i requires 0 <= i < |names| => directory + names[i])
  }

  const ROOT := "plastic_promise/"

  const ROOT_FILES := In(ROOT, [
    "__init__.py", "__main__.py", "adaptive_retrieval.py", "behavior.py", "endpoint_roles.py", "issue.py", "pack.py",
    "py.typed", "release_package_naming.py", "release_manifest.py", "release_readiness.py", "smart_extractor.py"])

  const SERVER_PACKAGES := In(ROOT, [
    "cli", "client", "control_plane", "core", "cron", "defense", "deployment", "extensions", "growth", "knowledge",
    "launcher", "loop", "mcp", "memory", "passive_memory", "principles", "reflection", "skills"])

  const COLLABORATION := In(ROOT, [
    "collaboration/__init__.py", "collaboration/acceptance_receipt.py", "collaboration/activity_update.py",
    "collaboration/awareness.py", "collaboration/canonical_time.py", "collaboration/context_projection.py",
    "collaboration/context_supply_runtime.py", "collaboration/contracts.py", "collaboration/coordination_plan.py",
    "collaboration/coordinator_supervisor.py", "collaboration/durable_acceptance_store.py",
    "collaboration/durable_activity_store.py", "collaboration/durable_coordination_plan_store.py",
    "collaboration/durable_coordinator_store.py", "collaboration/durable_role_store.py",
    "collaboration/durable_runtime.py", "collaboration/event_log.py", "collaboration/lease_contract.py",
    "collaboration/lease_adapters.py", "collaboration/passive_bridge.py",
    "collaboration/passive_runtime_adapter.py", "collaboration/policy_binding.py",
    "collaboration/role_assignment.py", "collaboration/runtime_binding.py"])

  const NODE := "plastic_promise/local_inference_node"

  const SERVER_EXCLUSIONS: seq<Path> := [
    "plastic_promise/core/backend_inference.py", "plastic_promise/core/embedder.py",
    "plastic_promise/core/inference_provider.py", "plastic_promise/core/inference_jobs.py",
    "plastic_promise/core/provider_http.py", "plastic_promise/core/reranker.py",
    "plastic_promise/client/local_rerank_executor.py", NODE,
    "plastic_promise/mcp/inference_gateway.py", "plastic_promise/mcp/inference_gateway_server.py"]

  const EDGE := "deploy/local-edge/"

  const LOCAL_EDGE := Contract(
    In(EDGE, ["nginx.conf", "entrypoint.sh", "static/index.html", "static/app.css", "static/app.js"]), [], Static)
  const SERVER_BACKEND := Contract(ROOT_FILES + SERVER_PACKAGES + COLLABORATION, SERVER_EXCLUSIONS, Python)
  const COMPUTE_NODE := Contract([INIT, TYPED, NODE], [], Python)

  lemma UnderStartsAlike(root: Path, p: Path)
    requires root != "" && Under(root, p)
    ensures p != "" && p[0] == root[0]
  {
    if p != root {
      assert p[0] == (root + "/")[0];
    }
  }

  lemma UnderAgrees(root: Path, p: Path, k: nat)
    requires Under(root, p) && k < |root|
    ensures k < |p| && p[k] == root[k]
  {
    if p != root {
      assert p[k] == (root + "/")[k];
    }
  }

  /** Whatever a server and a compute package have in common is the package
      foundation, the type marker, or something below the type marker. */
  lemma SharedSources(repo: Repository, p: Path)
    requires WellFormed(repo) && INIT in Chosen(repo, COMPUTE_NODE)
    requires p in Chosen(repo, SERVER_BACKEND) && p in Chosen(repo, COMPUTE_NODE)
    ensures p == INIT || Under(TYPED, p)
  {
    hide Bytecode, HasPrefix;
    assert SERVER_EXCLUSIONS[7] == NODE;
    var i :| 0 <= i < 3 && Under([INIT, TYPED, NODE][i], p);
  }

  /** What lies below the type marker is in both contracts. */
  lemma BelowMarker(repo: Repository, p: Path)
    requires p in repo && repo[p] == File && !Bytecode(p) && Under(TYPED, p)
    ensures p in Chosen(repo, SERVER_BACKEND) && p in Chosen(repo, COMPUTE_NODE) && p != INIT
  {
    hide Bytecode, HasPrefix;
    assert SERVER_BACKEND.sourcePaths[7] == TYPED && COMPUTE_NODE.sourcePaths[1] == TYPED;
    UnderAgrees(TYPED, p, 16);
    NotExcluded(p);
  }

  lemma NotExcluded(p: Path)
    requires Under(TYPED, p)
    ensures !UnderAny(SERVER_EXCLUSIONS, p) && p != INIT
  {
    hide HasPrefix, Under;
    UnderAgrees(TYPED, p, 16);
    forall i | 0 <= i < |SERVER_EXCLUSIONS|
      ensures !Under(SERVER_EXCLUSIONS[i], p)
    {
      if Under(SERVER_EXCLUSIONS[i], p) {
        UnderAgrees(SERVER_EXCLUSIONS[i], p, 16);
      }
    }
  }

  /** Successful server and compute selections share at most the two files if and
      only if the type marker has no source file below it, as it has not while it
      is a plain file. */
  lemma SharedOnlyTheTwoFilesIff(repo: Repository)
    requires WellFormed(repo) && INIT in Chosen(repo, COMPUTE_NODE)
    ensures Chosen(repo, SERVER_BACKEND) * Chosen(repo, COMPUTE_NODE) <= {INIT, TYPED} <==>
            forall p :: p in repo && repo[p] == File && p != TYPED && Under(TYPED, p) ==> Bytecode(p)
    ensures TYPED in repo && repo[TYPED] == File ==>
              Chosen(repo, SERVER_BACKEND) * Chosen(repo, COMPUTE_NODE) <= {INIT, TYPED}
  {
    hide Bytecode, HasPrefix, Chosen;
    var shared := Chosen(repo, SERVER_BACKEND) * Chosen(repo, COMPUTE_NODE);
    forall p | p in shared
      ensures p == INIT || Under(TYPED, p)
      ensures p in repo && repo[p] == File && !Bytecode(p)
    {
      SharedSources(repo, p);
      ChosenExists(repo, COMPUTE_NODE, p);
    }
    forall p | p in repo && repo[p] == File && !Bytecode(p) && Under(TYPED, p)
      ensures p in shared && p != INIT
    {
      BelowMarker(repo, p);
    }
  }

  lemma ChosenExists(repo: Repository, c: Contract, p: Path)
    requires p in Chosen(repo, c)
    ensures p in repo && repo[p] == File && !Bytecode(p)
  {
  }

  lemma EdgeStartsWithD(p: Path)
    requires UnderAny(LOCAL_EDGE.sourcePaths, p)
    ensures p != "" && p[0] == 'd'
  {
    var i :| 0 <= i < |LOCAL_EDGE.sourcePaths| && Under(LOCAL_EDGE.sourcePaths[i], p);
    UnderStartsAlike(LOCAL_EDGE.sourcePaths[i], p);
  }

  lemma PackagesStartWithP(p: Path)
    ensures UnderAny(SERVER_BACKEND.sourcePaths, p) || UnderAny(COMPUTE_NODE.sourcePaths, p) ==> p != "" && p[0] == 'p'
  {
    if UnderAny(SERVER_BACKEND.sourcePaths, p) {
      var roots := SERVER_BACKEND.sourcePaths;
      var i :| 0 <= i < |roots| && Under(roots[i], p);
      assert roots[i] in ROOT_FILES || roots[i] in SERVER_PACKAGES || roots[i] in COLLABORATION;
      assert roots[i][0] == ROOT[0];
      UnderStartsAlike(roots[i], p);
    }
    if UnderAny(COMPUTE_NODE.sourcePaths, p) {
      var i :| 0 <= i < 3 && Under(COMPUTE_NODE.sourcePaths[i], p);
      UnderStartsAlike(COMPUTE_NODE.sourcePaths[i], p);
    }
  }

  /** The local edge shares no file with either package. */
  lemma LocalEdgeSharesNothing(repo: Repository)
    ensures Chosen(repo, LOCAL_EDGE) !! Chosen(repo, SERVER_BACKEND)
    ensures Chosen(repo, LOCAL_EDGE) !! Chosen(repo, COMPUTE_NODE)
  {
    forall p | p in Chosen(repo, LOCAL_EDGE)
      ensures p !in Chosen(repo, SERVER_BACKEND) && p !in Chosen(repo, COMPUTE_NODE)
    {
      EdgeStartsWithD(p);
      PackagesStartWithP(p);
    }
  }
}
