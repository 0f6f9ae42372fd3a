/** The remote cutover script: back up, switch revision and unit files, wait for
    health, and roll back when any command fails. Any commands may fail, and a
    failing command may leave its own target in any state. */
module ServerCutover {
  import opened Wrappers

  type Revision = string
  type Path = string
  type Unit = string

  /** What can be found at a path. `Directory` is also a link to one, and `Other`
      anything else, such as a dangling link. */
  datatype Entry = Absent | Regular(content: string) | Directory(mode: string) | Other(what: string)

  /** A line of the unit manifest. */
  datatype Saved = Present(path: Path, content: string) | Missing(path: Path)

  datatype Health = Health(status: string, revision: Revision)

  datatype Outcome = Refused | RolledBack(clean: bool) | Deployed

  const MANAGED: seq<Path> := [
    "/etc/systemd/system/plastic-promise-control-plane.service",
    "/etc/systemd/system/plastic-promise-inference-gateway.service",
    "/etc/systemd/system/plastic-promise-knowledge-ingest.service",
    "/etc/systemd/system/plastic-promise-maintenance.service",
    "/etc/systemd/system/plastic-promise-mcp.service.d/10-managed-env.conf"]

  /** The directory that the script makes for the last of them. */
  const DROP_IN: Path := "/etc/systemd/system/plastic-promise-mcp.service.d"

  const DROP_IN_MODE: string := "0755"

  const MCP: Unit := "plastic-promise-mcp.service"

  const UNITS: seq<Unit> := [
    "plastic-promise-control-plane.service", "plastic-promise-inference-gateway.service", MCP,
    "plastic-promise-knowledge-ingest.service", "plastic-promise-maintenance.service"]

  /** What the script runs. The last four are run by the trap. */
  datatype Command =
    | CheckRoot | CheckClean | VerifyBundle | Fetch | BackUp | SaveUnit(path: Path)
    | CheckoutTarget | Install(path: Path) | MakeDropIn | Reload | Restart(unit: Unit) | CheckUtc(unit: Unit)
    | CheckoutPrevious | PutBack(path: Path) | ReloadAgain | RestartAgain(unit: Unit)

  /** What the polls find: the active units, and the answer of the health endpoint. */
  datatype World = World(active: nat -> set<Unit>, health: nat -> Option<Health>)

  function FirstInstalls(): (cs: seq<Command>)
    ensures |cs| == 4
  {
    seq(4, i requires 0 <= i < 4 => Install(MANAGED[i]))
  }

  function Installs(): seq<Command> {
    FirstInstalls() + [MakeDropIn, Install(MANAGED[4])]
  }

  function PutBacks(): (cs: seq<Command>)
    ensures |cs| == |MANAGED|
  {
    seq(|MANAGED|, i requires 0 <= i < |MANAGED| => PutBack(MANAGED[i]))
  }

  function Restarts(units: seq<Unit>): (cs: seq<Command>)
    ensures |cs| == |units|
  {
    seq(|units|, i requires 0 <= i < |units| => Restart(units[i]))
  }

  function RestartsAgain(units: seq<Unit>): (cs: seq<Command>)
    ensures |cs| == |units|
  {
    seq(|units|, i requires 0 <= i < |units| => RestartAgain(units[i]))
  }

  /** The cutover, up to the polls. */
  function Forward(units: seq<Unit>): seq<Command> {
    [CheckoutTarget] + Installs() + ([Reload] + Restarts(units))
  }

  /** The trap. */
  function Back(units: seq<Unit>): seq<Command> {
    [CheckoutPrevious] + PutBacks() + ([ReloadAgain] + RestartsAgain(units))
  }

  ghost predicate NoneFails(cs: seq<Command>, fails: Command -> bool) {
    forall i :: 0 <= i < |cs| ==> !fails(cs[i])
  }

  /** The commands that run when the first failure ends the sequence. */
  ghost function UpToFailure(cs: seq<Command>, fails: Command -> bool): seq<Command> {
    if cs == [] || fails(cs[0]) then cs[..if cs == [] then 0 else 1] else [cs[0]] + UpToFailure(cs[1..], fails)
  }

  lemma {:induction false} FailsAt(cs: seq<Command>, fails: Command -> bool, k: nat)
    requires k <= |cs| && forall i :: 0 <= i < k ==> !fails(cs[i])
    ensures k == |cs| ==> UpToFailure(cs, fails) == cs
    ensures k < |cs| && fails(cs[k]) ==> UpToFailure(cs, fails) == cs[..k + 1]
  {
    if cs != [] && k > 0 {
      FailsAt(cs[1..], fails, k - 1);
      assert cs == [cs[0]] + cs[1..];
      if k < |cs| {
        assert cs[..k + 1] == [cs[0]] + cs[1..][..k];
      }
    }
  }

  lemma NoneAppend(x: seq<Command>, y: seq<Command>, fails: Command -> bool)
    ensures NoneFails(x + y, fails) <==> NoneFails(x, fails) && NoneFails(y, fails)
  {
    if NoneFails(x + y, fails) {
      assert forall i :: 0 <= i < |x| ==> x[i] == (x + y)[i];
      assert forall i :: 0 <= i < |y| ==> y[i] == (x + y)[|x| + i];
    }
  }

  lemma {:induction false} UpToAppend(x: seq<Command>, y: seq<Command>, fails: Command -> bool)
    ensures NoneFails(x + y, fails) <==> NoneFails(x, fails) && NoneFails(y, fails)
    ensures UpToFailure(x + y, fails) == if NoneFails(x, fails) then x + UpToFailure(y, fails) else UpToFailure(x, fails)
  {
    NoneAppend(x, y, fails);
    if x == [] {
      assert x + y == y;
    } else {
      assert (x + y)[1..] == x[1..] + y;
      assert x == [x[0]] + x[1..];
      NoneAppend([x[0]], x[1..], fails);
      hide NoneFails;
      UpToAppend(x[1..], y, fails);
      OneFails(x[0], fails);
      if !fails(x[0]) {
        assert x + UpToFailure(y, fails) == [x[0]] + (x[1..] + UpToFailure(y, fails));
      }
    }
  }

  lemma OneFails(c: Command, fails: Command -> bool)
    ensures NoneFails([c], fails) <==> !fails(c)
    ensures UpToFailure([c], fails) == [c]
  {
    assert [c][0] == c && [c][1..] == [];
  }

  lemma FirstFailure(cs: seq<Command>, k: nat, fails: Command -> bool)
    requires k < |cs| && NoneFails(cs[..k], fails)
    ensures fails(cs[k]) ==> UpToFailure(cs, fails) == cs[..k + 1] && !NoneFails(cs, fails)
  {
    assert forall i :: 0 <= i < k ==> cs[i] == cs[..k][i];
    FailsAt(cs, fails, k);
  }

  lemma NoFailure(cs: seq<Command>, fails: Command -> bool)
    requires NoneFails(cs, fails)
    ensures UpToFailure(cs, fails) == cs
  {
    FailsAt(cs, fails, |cs|);
  }

  lemma FirstCommand(cs: seq<Command>, fails: Command -> bool)
    requires cs != []
    ensures cs[..1] == [cs[0]] && NoneFails(cs[..0], fails) && (NoneFails(cs[..1], fails) <==> !fails(cs[0]))
  {
    OneFails(cs[0], fails);
    assert cs[..1] == [cs[0]];
  }

  lemma NoneMore(cs: seq<Command>, k: nat, fails: Command -> bool)
    requires k < |cs|
    ensures NoneFails(cs[..k + 1], fails) <==> NoneFails(cs[..k], fails) && !fails(cs[k])
    ensures cs[..k + 1] == cs[..k] + [cs[k]]
  {
    NoneAppend(cs[..k], [cs[k]], fails);
    OneFails(cs[k], fails);
    assert cs[..k + 1] == cs[..k] + [cs[k]];
  }

  function Find(files: map<Path, Entry>, p: Path): Entry {
    if p in files then files[p] else Absent
  }

  /** What a manifest line restores. */
  function Restored(s: Saved): Entry {
    match s
    case Present(_, content) => Regular(content)
    case Missing(_) => Absent
  }

  /** `test -f` takes everything but files for nothing. */
  function Line(files: map<Path, Entry>, p: Path): Saved {
    var entry := Find(files, p);
    if entry.Regular? then Present(p, entry.content) else Missing(p)
  }

  function Manifest(files: map<Path, Entry>): (manifest: seq<Saved>)
    ensures |manifest| == |MANAGED|
  {
    seq(|MANAGED|, i requires 0 <= i < |MANAGED| => Line(files, MANAGED[i]))
  }

  /** What installing a file leaves at its path. */
  function Installed(there: Entry, content: string): Entry {
    if there.Directory? then there else Regular(content)
  }

  function Restore(files: map<Path, Entry>, manifest: seq<Saved>): map<Path, Entry> {
    if manifest == [] then files
    else
      var last := manifest[|manifest| - 1];
      Restore(files, manifest[..|manifest| - 1])[last.path := Restored(last)]
  }

  ghost predicate Same(a: map<Path, Entry>, b: map<Path, Entry>) {
    forall p :: Find(a, p) == Find(b, p)
  }

  /** Each managed path holds a file or nothing. */
  predicate Ordinary(files: map<Path, Entry>) {
    forall i :: 0 <= i < |MANAGED| ==> Find(files, MANAGED[i]).Regular? || Find(files, MANAGED[i]).Absent?
  }

  predicate Below(dir: Path, p: Path) {
    |p| > |dir| && p[..|dir|] == dir && p[|dir|] == '/'
  }

  /** Two characters after the common prefix tell the managed paths apart. */
  lemma Marks()
    ensures forall i :: 0 <= i < |MANAGED| ==> |MANAGED[i]| > |DROP_IN| > 37
    ensures MANAGED[0][36] == 'c' && MANAGED[1][36] == 'i' && MANAGED[2][36] == 'k'
    ensures MANAGED[3][36] == 'm' && MANAGED[3][37] == 'a'
    ensures MANAGED[4][36] == 'm' && MANAGED[4][37] == 'c'
    ensures DROP_IN[36] == 'm' && DROP_IN[37] == 'c'
  {
  }

  lemma BelowKeepsMarks(m: Path, p: Path)
    requires |m| > 37 && Below(m, p)
    ensures p[36] == m[36] && p[37] == m[37] && |p| > |m|
  {
    assert p[..|m|][36] == p[36] && p[..|m|][37] == p[37];
  }

  lemma ManagedPaths()
    ensures forall i, j :: 0 <= i < j < |MANAGED| ==> MANAGED[i] != MANAGED[j]
    ensures DROP_IN !in MANAGED
    ensures forall m, p :: m in MANAGED && (p in MANAGED || p == DROP_IN) ==> !Below(m, p)
  {
    hide Below;
    Marks();
    forall m, p | m in MANAGED && (p in MANAGED || p == DROP_IN)
      ensures !Below(m, p)
    {
      if Below(m, p) {
        BelowKeepsMarks(m, p);
      }
    }
  }

  /** One command at `p` changes `p` alone, unless it works inside a directory
      that it finds there. None of them makes a directory. */
  ghost predicate ChangedAt(p: Path, was: map<Path, Entry>, now: map<Path, Entry>) {
    && (forall q :: q != p && !(Find(was, p).Directory? && Below(p, q)) ==> Find(now, q) == Find(was, q))
    && (Find(now, p).Directory? ==> Find(now, p) == Find(was, p))
  }

  /** What the script can have changed: managed paths, what is below a managed path
      that is a directory, and, once it is `prepared`, the drop-in directory. */
  ghost predicate Touched(was: map<Path, Entry>, now: map<Path, Entry>, prepared: bool) {
    && (forall q :: q !in MANAGED && q != DROP_IN && Find(now, q) != Find(was, q) ==>
          exists m :: m in MANAGED && Find(was, m).Directory? && Below(m, q))
    && (forall m :: m in MANAGED && Find(now, m).Directory? ==> Find(now, m) == Find(was, m))
    && (if prepared
        then (Find(was, DROP_IN).Absent? || Find(was, DROP_IN).Directory?) && Find(now, DROP_IN) == Directory(DROP_IN_MODE)
        else Find(now, DROP_IN) == Find(was, DROP_IN))
  }

  lemma TouchedMore(was: map<Path, Entry>, mid: map<Path, Entry>, now: map<Path, Entry>, prepared: bool, p: Path)
    requires Touched(was, mid, prepared) && p in MANAGED && ChangedAt(p, mid, now)
    ensures Touched(was, now, prepared)
    ensures forall m :: m in MANAGED && m != p ==> Find(now, m) == Find(mid, m)
  {
    ManagedPaths();
  }

  lemma TouchedPrepared(was: map<Path, Entry>, mid: map<Path, Entry>, now: map<Path, Entry>, prepared: bool)
    requires Touched(was, mid, false) && now == if prepared then mid[DROP_IN := Directory(DROP_IN_MODE)] else mid
    requires prepared ==> Find(mid, DROP_IN).Absent? || Find(mid, DROP_IN).Directory?
    ensures Touched(was, now, prepared)
    ensures forall m :: m in MANAGED ==> Find(now, m) == Find(mid, m)
  {
    hide Below;
    ManagedPaths();
  }

  lemma TouchedAgain(was: map<Path, Entry>, mid: map<Path, Entry>, now: map<Path, Entry>, prepared: bool)
    requires Touched(was, mid, prepared) && Touched(mid, now, false)
    ensures Touched(was, now, prepared)
  {
    ManagedPaths();
    forall q | q !in MANAGED && q != DROP_IN && Find(now, q) != Find(was, q)
      ensures exists m :: m in MANAGED && Find(was, m).Directory? && Below(m, q)
    {
      if Find(now, q) != Find(mid, q) {
        var m :| m in MANAGED && Find(mid, m).Directory? && Below(m, q);
        assert Find(was, m).Directory?;
      }
    }
  }

  lemma {:induction false} RestoreAt(files: map<Path, Entry>, manifest: seq<Saved>, p: Path)
    requires forall i, j :: 0 <= i < j < |manifest| ==> manifest[i].path != manifest[j].path
    ensures (forall i :: 0 <= i < |manifest| ==> manifest[i].path != p) ==>
              Find(Restore(files, manifest), p) == Find(files, p)
    ensures forall i :: 0 <= i < |manifest| && manifest[i].path == p ==>
              Find(Restore(files, manifest), p) == Restored(manifest[i])
  {
    if manifest != [] {
      var n := |manifest| - 1;
      var rest := manifest[..n];
      assert forall i :: 0 <= i < n ==> rest[i] == manifest[i];
      RestoreAt(files, rest, p);
      forall i | 0 <= i < |manifest| && manifest[i].path == p
        ensures Find(Restore(files, manifest), p) == Restored(manifest[i])
      {
        if i < n {
          assert rest[i].path == p && manifest[n].path != p;
        }
      }
    }
  }

  lemma RestoreManaged(files: map<Path, Entry>, was: map<Path, Entry>, p: Path)
    ensures Find(Restore(files, Manifest(was)), p) == if p in MANAGED then Restored(Line(was, p)) else Find(files, p)
  {
    hide Restore, Below;
    ManagedPaths();
    RestoreAt(files, Manifest(was), p);
    if p in MANAGED {
      var i :| 0 <= i < |MANAGED| && MANAGED[i] == p;
      assert Manifest(was)[i].path == p;
    }
  }

  /** Wherever the script fails, restoring its manifest brings everything back if and
      only if each managed path was a file or absent, and the drop-in directory had
      not been prepared yet or was there with the same mode. */
  lemma RestoreIsExactIff(was: map<Path, Entry>, now: map<Path, Entry>, prepared: bool)
    requires Touched(was, now, prepared)
    ensures Same(Restore(now, Manifest(was)), was) <==>
            Ordinary(was) && (prepared ==> Find(was, DROP_IN) == Directory(DROP_IN_MODE))
  {
    ManagedPaths();
    var back := Restore(now, Manifest(was));
    forall p
      ensures Find(back, p) == if p in MANAGED then Restored(Line(was, p)) else Find(now, p)
    {
      RestoreManaged(now, was, p);
    }
    assert forall p :: p in MANAGED ==> (Restored(Line(was, p)) == Find(was, p) <==> Find(was, p).Regular? || Find(was, p).Absent?);
    if Ordinary(was) {
      assert forall m :: m in MANAGED ==> Find(was, m).Regular? || Find(was, m).Absent?;
    }
  }

  /** `install -d` cannot make the directory where something else is. */
  function Stops(fails: Command -> bool, files: map<Path, Entry>): Command -> bool {
    c => fails(c) || (c == MakeDropIn && !Find(files, DROP_IN).Absent? && !Find(files, DROP_IN).Directory?)
  }

  /** Everything that must hold before the cutover starts. */
  ghost predicate Ready(fails: Command -> bool, head: Revision, expected: Revision, fetched: Revision, target: Revision,
                        files: map<Path, Entry>, active: set<Unit>) {
    && !fails(CheckRoot) && !fails(CheckClean) && !fails(VerifyBundle) && !fails(Fetch) && !fails(BackUp)
    && head == expected && fetched == target && MCP in active
    && forall m :: m in MANAGED && Find(files, m).Regular? ==> !fails(SaveUnit(m))
  }

  /** Poll `k` finds every unit active and gets an answer. */
  predicate Answers(world: World, units: seq<Unit>, k: nat) {
    (forall i :: 0 <= i < |units| ==> units[i] in world.active(k)) && world.health(k).Some?
  }

  ghost predicate FirstAnswer(world: World, units: seq<Unit>, k: nat) {
    Answers(world, units, k) && forall j: nat :: j < k ==> !Answers(world, units, j)
  }

  /** The first answer comes in time and is the right one. */
  ghost predicate Healthy(world: World, units: seq<Unit>, retries: nat, target: Revision) {
    exists k: nat :: k <= retries && FirstAnswer(world, units, k) && world.health(k) == Some(Health("ok", target))
  }

  /** Nothing stops the cutover, health is right in time, and units run in UTC. */
  ghost predicate Passes(units: seq<Unit>, stops: Command -> bool, world: World, retries: nat, target: Revision) {
    && NoneFails(Forward(units), stops) && Healthy(world, units, retries, target)
    && forall u :: u in units ==> !stops(CheckUtc(u))
  }

  class Server {
    var head: Revision
    var detached: bool
    var files: map<Path, Entry>
    var active: set<Unit>
    /** The commands run so far that change the server. */
    ghost var log: seq<Command>

    constructor (head: Revision, files: map<Path, Entry>, active: set<Unit>)
      ensures this.head == head && !detached && this.files == files && this.active == active && log == []
    {
      this.head, detached, this.files, this.active, log := head, false, files, active, [];
    }

    // --------------------------------------------------- before the cutover

    /** Copy the managed unit files aside; nothing is changed. */
    method SaveUnits(fails: Command -> bool) returns (ok: bool, manifest: seq<Saved>)
      ensures ok <==> forall m :: m in MANAGED && Find(files, m).Regular? ==> !fails(SaveUnit(m))
      ensures ok ==> manifest == Manifest(files)
    {
      manifest := [];
      for k := 0 to |MANAGED|
        invariant manifest == Manifest(files)[..k]
        invariant forall i :: 0 <= i < k && Find(files, MANAGED[i]).Regular? ==> !fails(SaveUnit(MANAGED[i]))
      {
        var p := MANAGED[k];
        var entry := Find(files, p);
        if entry.Regular? {
          if fails(SaveUnit(p)) {
            return false, manifest;
          }
          manifest := manifest + [Present(p, entry.content)];
        } else {
          manifest := manifest + [Missing(p)];
        }
      }
      return true, manifest;
    }

    /** The units of the fixed list that are active now, each once. */
    method ActiveUnits() returns (units: seq<Unit>)
      ensures forall u :: u in units <==> u in UNITS && u in active
    {
      units := [];
      for k := 0 to |UNITS|
        invariant forall u :: u in units <==> u in UNITS[..k] && u in active
      {
        assert UNITS[..k + 1] == UNITS[..k] + [UNITS[k]];
        if UNITS[k] in active {
          units := units + [UNITS[k]];
        }
      }
      assert UNITS[..|UNITS|] == UNITS;
    }

    // --------------------------------------------------------- the commands

    method Checkout(c: Command, revision: Revision, fails: Command -> bool) returns (ok: bool)
      modifies `head, `detached, `log
      ensures log == old(log) + [c] && ok == !fails(c)
      ensures ok ==> head == revision && detached
    {
      log := log + [c];
      ok := !fails(c);
      if ok {
        head, detached := revision, true;
      } else {
        head, detached := *, *;
      }
    }

    /** Put a file at a path or nothing (`install`, `cp -a`, `rm -f`). A file for a
        directory goes inside it. A failure leaves anything but a new directory. */
    method Put(c: Command, p: Path, entry: Entry, fails: Command -> bool) returns (ok: bool)
      requires entry.Regular? || entry.Absent?
      modifies `files, `log
      ensures log == old(log) + [c] && ok == !fails(c)
      ensures ChangedAt(p, old(files), files)
      ensures ok ==> Find(files, p) == if entry.Regular? && Find(old(files), p).Directory? then Find(old(files), p) else entry
    {
      log := log + [c];
      ok := !fails(c);
      var left: Entry, inside: map<Path, Entry> := *, *;
      var there := Find(files, p);
      if there.Directory? {
        files := files + map q | q in inside && Below(p, q) :: inside[q];
      }
      files := files[p := if ok && !(entry.Regular? && there.Directory?) then entry
                          else if ok || left.Directory? then there else left];
    }

    /** `install -d`: make the drop-in directory or set its mode; a failure may come
        before that or after. */
    method PrepareDropIn(fails: Command -> bool) returns (ok: bool, ghost prepared: bool)
      modifies `files, `log
      ensures log == old(log) + [MakeDropIn] && ok == !Stops(fails, old(files))(MakeDropIn)
      ensures ok ==> prepared
      ensures prepared ==> Find(old(files), DROP_IN).Absent? || Find(old(files), DROP_IN).Directory?
      ensures files == if prepared then old(files)[DROP_IN := Directory(DROP_IN_MODE)] else old(files)
    {
      log := log + [MakeDropIn];
      ok, prepared := false, false;
      var there := Find(files, DROP_IN);
      if there.Absent? || there.Directory? {
        ok := !fails(MakeDropIn);
        var changes: bool := *;
        if ok || changes {
          files := files[DROP_IN := Directory(DROP_IN_MODE)];
          prepared := true;
        }
      }
    }

    method InstallUnits(tree: (Revision, Path) -> string, fails: Command -> bool) returns (ok: bool, ghost prepared: bool)
      modifies `files, `log
      ensures Touched(old(files), files, prepared)
      ensures log == old(log) + UpToFailure(Installs(), Stops(fails, old(files)))
      ensures ok <==> NoneFails(Installs(), Stops(fails, old(files)))
      ensures ok ==> prepared
      ensures ok ==> forall i :: 0 <= i < |MANAGED| ==>
                Find(files, MANAGED[i]) == Installed(Find(old(files), MANAGED[i]), tree(head, MANAGED[i]))
    {
      hide Touched, Below, UpToFailure, NoneFails, Stops, FirstInstalls, Installed;
      prepared := false;
      ghost var stops := Stops(fails, files);
      InstallsParts(fails, files);
      ok := InstallFirst(tree, fails);
      if ok {
        ghost var mid := files;
        DropInKept(old(files), files, fails);
        ok, prepared := PrepareDropIn(fails);
        TouchedPrepared(old(files), mid, files, prepared);
        if ok {
          ok := InstallUnit(4, tree, fails, old(files), prepared);
        }
      }
    }

    /** The unit files before the drop-in directory. */
    method InstallFirst(tree: (Revision, Path) -> string, fails: Command -> bool) returns (ok: bool)
      modifies `files, `log
      ensures Touched(old(files), files, false)
      ensures log == old(log) + UpToFailure(FirstInstalls(), fails) && (ok <==> NoneFails(FirstInstalls(), fails))
      ensures ok ==> forall i :: 0 <= i < 4 ==>
                Find(files, MANAGED[i]) == Installed(Find(old(files), MANAGED[i]), tree(head, MANAGED[i]))
      ensures ok ==> Find(files, MANAGED[4]) == Find(old(files), MANAGED[4])
    {
      hide Touched, Below, UpToFailure, NoneFails, Installed;
      TouchedNothing(files);
      ghost var all := FirstInstalls();
      FirstCommand(all, fails);
      ok := true;
      for k := 0 to 4
        invariant Touched(old(files), files, false)
        invariant log == old(log) + all[..k] && NoneFails(all[..k], fails) && ok
        invariant forall i :: 0 <= i < k ==> Find(files, MANAGED[i]) == Installed(Find(old(files), MANAGED[i]), tree(head, MANAGED[i]))
        invariant forall i :: k <= i < |MANAGED| ==> Find(files, MANAGED[i]) == Find(old(files), MANAGED[i])
      {
        NoneMore(all, k, fails);
        FirstFailure(all, k, fails);
        ok := InstallUnit(k, tree, fails, old(files), false);
        if !ok {
          return;
        }
      }
      assert all[..4] == all;
      NoFailure(all, fails);
    }

    method InstallUnit(k: nat, tree: (Revision, Path) -> string, fails: Command -> bool,
                       ghost was: map<Path, Entry>, ghost prepared: bool) returns (ok: bool)
      requires k < |MANAGED| && Touched(was, files, prepared)
      modifies `files, `log
      ensures log == old(log) + [Install(MANAGED[k])] && ok == !fails(Install(MANAGED[k]))
      ensures Touched(was, files, prepared)
      ensures ok ==> Find(files, MANAGED[k]) == Installed(Find(old(files), MANAGED[k]), tree(head, MANAGED[k]))
      ensures forall i :: 0 <= i < |MANAGED| && i != k ==> Find(files, MANAGED[i]) == Find(old(files), MANAGED[i])
    {
      hide Touched, Below;
      ManagedPaths();
      ok := Put(Install(MANAGED[k]), MANAGED[k], Regular(tree(head, MANAGED[k])), fails);
      TouchedMore(was, old(files), files, prepared, MANAGED[k]);
    }

    /** Run a command of the service manager; units may start and stop meanwhile. */
    method Systemctl(c: Command, fails: Command -> bool) returns (ok: bool)
      modifies `active, `log
      ensures log == old(log) + [c] && ok == !fails(c)
    {
      log := log + [c];
      active := *;
      ok := !fails(c);
    }

    /** Reload the service manager and restart units, stopping at a failure. */
    method RestartUnits(units: seq<Unit>, fails: Command -> bool) returns (ok: bool)
      modifies `active, `log
      ensures log == old(log) + UpToFailure([Reload] + Restarts(units), fails)
      ensures ok <==> NoneFails([Reload] + Restarts(units), fails)
    {
      hide UpToFailure, NoneFails;
      ghost var all := [Reload] + Restarts(units);
      ok := Systemctl(Reload, fails);
      FirstCommand(all, fails);
      for k := 0 to |units|
        invariant log == old(log) + all[..k + 1] && ok == !fails(all[k]) && NoneFails(all[..k], fails)
      {
        NoneMore(all, k, fails);
        FirstFailure(all, k, fails);
        if !ok {
          return;
        }
        NoneMore(all, k + 1, fails);
        ok := Systemctl(Restart(units[k]), fails);
      }
      NoneMore(all, |units|, fails);
      FirstFailure(all, |units|, fails);
      assert all[..|units| + 1] == all;
      if ok {
        NoFailure(all, fails);
      }
    }

    /** Poll until every unit is active and health answers, `retries` times more than
        once. Units may start and stop at any time. */
    method AwaitHealth(units: seq<Unit>, world: World, retries: nat) returns (ok: bool, health: Health)
      modifies `active
      ensures ok ==> exists k: nat :: k <= retries && FirstAnswer(world, units, k) &&
                       world.health(k) == Some(health) && active == world.active(k)
      ensures ok ==> forall u :: u in units ==> u in active
      ensures !ok ==> forall k: nat :: k <= retries ==> !Answers(world, units, k)
    {
      ok, health := false, Health("", "");
      for k := 0 to retries + 1
        invariant forall j: nat :: j < k ==> !Answers(world, units, j)
      {
        active := world.active(k);
        var allActive := forall u | u in units :: u in active;
        if allActive && world.health(k).Some? {
          health := world.health(k).value;
          assert FirstAnswer(world, units, k);
          return true, health;
        }
        assert !Answers(world, units, k);
      }
    }

    // -------------------------------------------------------------- cutover

    /** The stretch guarded by the trap, up to its first failure. */
    method Cutover(target: Revision, units: seq<Unit>, tree: (Revision, Path) -> string, fails: Command -> bool,
                   world: World, retries: nat)
      returns (ok: bool, health: Health, ghost prepared: bool)
      modifies this
      ensures log == old(log) + UpToFailure(Forward(units), Stops(fails, old(files)))
      ensures ok <==> Passes(units, Stops(fails, old(files)), world, retries, target)
      ensures Touched(old(files), files, prepared)
      ensures ok ==> log == old(log) + Forward(units)
      ensures ok ==> head == target && health == Health("ok", target) && prepared
      ensures ok ==> forall i :: 0 <= i < |MANAGED| ==>
                Find(files, MANAGED[i]) == Installed(Find(old(files), MANAGED[i]), tree(target, MANAGED[i]))
      ensures ok ==> forall u :: u in units ==> u in active
    {
      hide Below, Touched, UpToFailure, NoneFails, Forward, Installs, Restarts, Installed, Stops, FirstAnswer, Answers;
      TouchedNothing(files);
      health, prepared := Health("", ""), false;
      ForwardParts(units, fails, files);
      StopsOnlyThere(fails, files);
      ok := Checkout(CheckoutTarget, target, fails);
      if ok {
        ok, prepared := InstallUnits(tree, fails);
      }
      if ok {
        ok := RestartUnits(units, fails);
      }
      assert ok <==> NoneFails(Forward(units), Stops(fails, old(files)));
      if ok {
        ok, health := AwaitHealth(units, world, retries);
        HealthyIff(units, world, retries, target, ok, health);
        ok := ok && health == Health("ok", target);
      }
      if ok {
        // Each unit has a main process running in UTC.
        ok := forall u | u in units :: !fails(CheckUtc(u));
      }
    }

    // ------------------------------------------------------------- rollback

    /** Put back every managed path, whatever fails. */
    method PutBackAll(manifest: seq<Saved>, fails: Command -> bool, ghost was: map<Path, Entry>) returns (ok: bool)
      requires manifest == Manifest(was)
      modifies `files, `log
      ensures log == old(log) + PutBacks() && (ok <==> NoneFails(PutBacks(), fails))
      ensures Touched(old(files), files, false)
      ensures PutBackFrom(was, old(files), files, |MANAGED|, fails)
      ensures ok && (forall m :: m in MANAGED ==> !Find(old(files), m).Directory?) ==>
                Same(files, Restore(old(files), manifest))
    {
      hide Touched, Below, Same, Restore, PutBackFrom, NoneFails, ChangedAt;
      TouchedNothing(files);
      PutBackNothing(was, files, fails);
      FirstCommand(PutBacks(), fails);
      ok := true;
      for k := 0 to |manifest|
        invariant log == old(log) + PutBacks()[..k] && (ok <==> NoneFails(PutBacks()[..k], fails))
        invariant Touched(old(files), files, false) && PutBackFrom(was, old(files), files, k, fails)
        invariant ok && (forall m :: m in MANAGED ==> !Find(old(files), m).Directory?) ==>
                    Same(files, Restore(old(files), manifest[..k]))
      {
        ghost var mid := files;
        var done := Put(PutBack(manifest[k].path), manifest[k].path, Restored(manifest[k]), fails);
        TouchedMore(old(files), mid, files, false, MANAGED[k]);
        PutBackOneMore(was, old(files), mid, files, k, fails);
        if ok && done && (forall m :: m in MANAGED ==> !Find(old(files), m).Directory?) {
          NoNewDirectory(old(files), mid, MANAGED[k]);
          RestoreStep(old(files), mid, files, manifest, k);
        }
        ok := ok && done;
        NoneMore(PutBacks(), k, fails);
      }
      assert manifest[..|manifest|] == manifest && PutBacks()[..|manifest|] == PutBacks();
    }

    /** Restart the units that were active before, whatever fails. */
    method RestartAll(units: seq<Unit>, fails: Command -> bool) returns (ok: bool)
      modifies `active, `log
      ensures log == old(log) + ([ReloadAgain] + RestartsAgain(units))
      ensures ok <==> NoneFails([ReloadAgain] + RestartsAgain(units), fails)
    {
      hide NoneFails;
      ghost var all := [ReloadAgain] + RestartsAgain(units);
      ok := Systemctl(ReloadAgain, fails);
      FirstCommand(all, fails);
      for k := 0 to |units|
        invariant log == old(log) + all[..k + 1] && (ok <==> NoneFails(all[..k + 1], fails))
      {
        NoneMore(all, k + 1, fails);
        var restarted := Systemctl(RestartAgain(units[k]), fails);
        ok := ok && restarted;
      }
      assert all[..|units| + 1] == all;
    }

    /** The trap: every command is tried, whatever the others did; `clean` says that
        all of them succeeded. */
    method Rollback(previous: Revision, manifest: seq<Saved>, units: seq<Unit>, fails: Command -> bool,
                    ghost was: map<Path, Entry>)
      returns (clean: bool)
      requires manifest == Manifest(was)
      modifies this
      ensures log == old(log) + Back(units)
      ensures clean <==> NoneFails(Back(units), fails)
      ensures !fails(CheckoutPrevious) ==> head == previous && detached
      ensures Touched(old(files), files, false)
      ensures PutBackFrom(was, old(files), files, |MANAGED|, fails)
      ensures clean && (forall m :: m in MANAGED ==> !Find(old(files), m).Directory?) ==>
                Same(files, Restore(old(files), manifest))
    {
      hide Touched, Below, Same, Restore, PutBackFrom, NoneFails, PutBacks, RestartsAgain;
      var back := Checkout(CheckoutPrevious, previous, fails);
      var kept := PutBackAll(manifest, fails, was);
      var restarted := RestartAll(units, fails);
      clean := back && kept && restarted;
      NoneAppend([CheckoutPrevious] + PutBacks(), [ReloadAgain] + RestartsAgain(units), fails);
      NoneAppend([CheckoutPrevious], PutBacks(), fails);
      OneFails(CheckoutPrevious, fails);
    }

    // ------------------------------------------------------------ the script

    /** The whole script. `expected` and `fetched` are the revisions it was told to
        find running and found in the bundle. */
    method Deploy(target: Revision, expected: Revision, fetched: Revision, tree: (Revision, Path) -> string,
                  fails: Command -> bool, world: World, retries: nat)
      returns (outcome: Outcome, health: Health, units: seq<Unit>, ghost prepared: bool)
      modifies this
      // Which way it ends, and what it ran.
      ensures outcome.Refused? <==> !Ready(fails, old(head), expected, fetched, target, old(files), old(active))
      ensures !outcome.Refused? ==> forall u :: u in units <==> u in UNITS && u in old(active)
      ensures outcome.Deployed? <==> !outcome.Refused? && Passes(units, Stops(fails, old(files)), world, retries, target)
      ensures outcome.RolledBack? ==> (outcome.clean <==> NoneFails(Back(units), fails))
      ensures outcome.Refused? ==> unchanged(this)
      ensures outcome.Deployed? ==> log == old(log) + Forward(units)
      ensures outcome.RolledBack? ==> log == old(log) + UpToFailure(Forward(units), Stops(fails, old(files))) + Back(units)
      ensures Touched(old(files), files, prepared)
      // A rollback undoes what it can, command by command, and everything under the exact condition.
      ensures outcome.RolledBack? && !fails(CheckoutPrevious) ==> head == old(head) && detached
      ensures outcome.RolledBack? ==>
                forall m :: m in MANAGED && !fails(PutBack(m)) ==>
                  Find(files, m) == if Find(old(files), m).Regular? then Find(old(files), m) else Absent
      ensures outcome == RolledBack(true) ==>
                (Same(files, old(files)) <==>
                 Ordinary(old(files)) && (prepared ==> Find(old(files), DROP_IN) == Directory(DROP_IN_MODE)))
      // Success means the target revision everywhere, unless a directory was in the way.
      ensures outcome.Deployed? ==> head == target && health == Health("ok", target) && prepared
      ensures outcome.Deployed? ==>
                forall m :: m in MANAGED ==> Find(files, m) == Installed(Find(old(files), m), tree(target, m))
      ensures outcome.Deployed? ==> forall u :: u in units ==> u in active
    {
      hide Below, Touched, Ordinary, Same, Restore, Manifest, UpToFailure, NoneFails, PutBackFrom, Forward, Back, Passes, Stops;
      TouchedNothing(files);
      health, units, prepared := Health("", ""), [], false;
      if fails(CheckRoot) || fails(CheckClean) || head != expected || fails(VerifyBundle) || fails(Fetch) ||
         fetched != target || fails(BackUp) {
        return Refused, health, units, prepared;
      }
      var previous := head;
      var saved, manifest := SaveUnits(fails);
      if !saved {
        return Refused, health, units, prepared;
      }
      units := ActiveUnits();
      if MCP !in units {
        return Refused, health, units, prepared;
      }

      var ok: bool;
      ok, health, prepared := Cutover(target, units, tree, fails, world, retries);
      if !ok {
        ghost var mid := files;
        var restored := Rollback(previous, manifest, units, fails, old(files));
        RolledBackIff(old(files), mid, files, prepared, restored, fails, units);
        return RolledBack(restored), health, units, prepared;
      }
      return Deployed, health, units, prepared;
    }
  }

  /** There is one first answer at most. */
  lemma HealthyIff(units: seq<Unit>, world: World, retries: nat, target: Revision, ok: bool, health: Health)
    requires ok ==> exists k: nat :: k <= retries && FirstAnswer(world, units, k) && world.health(k) == Some(health)
    requires !ok ==> forall k: nat :: k <= retries ==> !Answers(world, units, k)
    ensures Healthy(world, units, retries, target) <==> ok && health == Health("ok", target)
  {
    hide Answers;
    if ok {
      var k: nat :| k <= retries && FirstAnswer(world, units, k) && world.health(k) == Some(health);
      forall l: nat | FirstAnswer(world, units, l)
        ensures l == k
      {
      }
    }
  }

  /** The three stretches of the cutover, the first two of which may stop it. */
  lemma ForwardParts(units: seq<Unit>, fails: Command -> bool, files: map<Path, Entry>)
    ensures var stops, last := Stops(fails, files), [Reload] + Restarts(units);
            NoneFails(Forward(units), stops) <==>
              !fails(CheckoutTarget) && NoneFails(Installs(), stops) && NoneFails(last, fails)
    ensures var stops, last := Stops(fails, files), [Reload] + Restarts(units);
            UpToFailure(Forward(units), stops) ==
              if fails(CheckoutTarget) then [CheckoutTarget]
              else if !NoneFails(Installs(), stops) then [CheckoutTarget] + UpToFailure(Installs(), stops)
              else [CheckoutTarget] + Installs() + UpToFailure(last, fails)
    ensures var stops := Stops(fails, files);
            && (NoneFails(Forward(units), stops) ==> UpToFailure(Forward(units), stops) == Forward(units))
            && (NoneFails(Installs(), stops) ==> UpToFailure(Installs(), stops) == Installs())
  {
    hide UpToFailure, NoneFails, Stops, Installs, Restarts;
    var stops, last := Stops(fails, files), [Reload] + Restarts(units);
    UpToAppend([CheckoutTarget] + Installs(), last, stops);
    UpToAppend([CheckoutTarget], Installs(), stops);
    OneFails(CheckoutTarget, stops);
    StopsOnlyThere(fails, files);
    LastIsNotMakeDropIn(units);
    SameFailures(last, fails, stops);
    if NoneFails(Installs(), stops) {
      NoFailure(Installs(), stops);
    }
    if NoneFails(Forward(units), stops) {
      NoFailure(Forward(units), stops);
    }
  }

  lemma LastIsNotMakeDropIn(units: seq<Unit>)
    ensures forall i :: 0 <= i < |[Reload] + Restarts(units)| ==> ([Reload] + Restarts(units))[i] != MakeDropIn
  {
  }

  lemma InstallsParts(fails: Command -> bool, files: map<Path, Entry>)
    ensures var stops, first := Stops(fails, files), FirstInstalls();
            NoneFails(Installs(), stops) <==>
              NoneFails(first, fails) && !stops(MakeDropIn) && !fails(Install(MANAGED[4]))
    ensures var stops, first := Stops(fails, files), FirstInstalls();
            UpToFailure(Installs(), stops) ==
              if !NoneFails(first, fails) then UpToFailure(first, fails)
              else if stops(MakeDropIn) then first + [MakeDropIn]
              else first + [MakeDropIn] + [Install(MANAGED[4])]
    ensures NoneFails(FirstInstalls(), fails) ==> UpToFailure(FirstInstalls(), fails) == FirstInstalls()
  {
    hide UpToFailure, NoneFails, Stops;
    var stops, first, last := Stops(fails, files), FirstInstalls(), [MakeDropIn, Install(MANAGED[4])];
    UpToAppend(first, last, stops);
    UpToAppend([MakeDropIn], [Install(MANAGED[4])], stops);
    assert last == [MakeDropIn] + [Install(MANAGED[4])];
    OneFails(MakeDropIn, stops);
    OneFails(Install(MANAGED[4]), stops);
    StopsOnlyThere(fails, files);
    SameFailures(first, fails, stops);
    if NoneFails(first, fails) {
      NoFailure(first, fails);
    }
  }

  lemma StopsOnlyThere(fails: Command -> bool, files: map<Path, Entry>)
    ensures forall c :: c != MakeDropIn ==> Stops(fails, files)(c) == fails(c)
  {
  }

  lemma {:induction false} SameFailures(cs: seq<Command>, fails: Command -> bool, stops: Command -> bool)
    requires forall i :: 0 <= i < |cs| ==> fails(cs[i]) == stops(cs[i])
    ensures NoneFails(cs, fails) == NoneFails(cs, stops) && UpToFailure(cs, fails) == UpToFailure(cs, stops)
  {
    if cs != [] {
      SameFailures(cs[1..], fails, stops);
    }
  }

  lemma DropInKept(was: map<Path, Entry>, now: map<Path, Entry>, fails: Command -> bool)
    requires Touched(was, now, false)
    ensures Stops(fails, was)(MakeDropIn) == Stops(fails, now)(MakeDropIn)
    ensures forall m :: !Stops(fails, was)(Install(m)) == !fails(Install(m))
  {
  }

  /** The first `k` managed paths are as they were saved, except where putting them
      back failed or a directory is in the way; the others are as found. */
  ghost predicate PutBackFrom(was: map<Path, Entry>, from: map<Path, Entry>, now: map<Path, Entry>, k: nat,
                              fails: Command -> bool)
    requires k <= |MANAGED|
  {
    && (forall i ::
          0 <= i < k && !fails(PutBack(MANAGED[i])) && !(Find(was, MANAGED[i]).Regular? && Find(from, MANAGED[i]).Directory?) ==>
            Find(now, MANAGED[i]) == if Find(was, MANAGED[i]).Regular? then Find(was, MANAGED[i]) else Absent)
    && forall i :: k <= i < |MANAGED| ==> Find(now, MANAGED[i]) == Find(from, MANAGED[i])
  }

  lemma PutBackNothing(was: map<Path, Entry>, from: map<Path, Entry>, fails: Command -> bool)
    ensures PutBackFrom(was, from, from, 0, fails)
  {
  }

  lemma PutBackOneMore(was: map<Path, Entry>, from: map<Path, Entry>, mid: map<Path, Entry>, now: map<Path, Entry>,
                       k: nat, fails: Command -> bool)
    requires k < |MANAGED| && PutBackFrom(was, from, mid, k, fails) && ChangedAt(MANAGED[k], mid, now)
    requires !fails(PutBack(MANAGED[k])) ==>
               Find(now, MANAGED[k]) ==
                 if Find(was, MANAGED[k]).Regular? && Find(mid, MANAGED[k]).Directory? then Find(mid, MANAGED[k])
                 else Restored(Line(was, MANAGED[k]))
    ensures PutBackFrom(was, from, now, k + 1, fails)
  {
    hide Below;
    ManagedPaths();
    ChangedOneManaged(MANAGED[k], mid, now);
    assert forall i :: 0 <= i < |MANAGED| && i != k ==> Find(now, MANAGED[i]) == Find(mid, MANAGED[i]);
  }

  lemma NoNewDirectory(from: map<Path, Entry>, mid: map<Path, Entry>, m: Path)
    requires Touched(from, mid, false) && m in MANAGED && !Find(from, m).Directory?
    ensures !Find(mid, m).Directory?
  {
  }

  lemma ChangedOneManaged(m: Path, mid: map<Path, Entry>, now: map<Path, Entry>)
    requires m in MANAGED && ChangedAt(m, mid, now)
    ensures forall q :: q in MANAGED && q != m ==> Find(now, q) == Find(mid, q)
  {
    hide Below;
    ManagedPaths();
  }

  lemma RestoreStep(from: map<Path, Entry>, mid: map<Path, Entry>, now: map<Path, Entry>, manifest: seq<Saved>, k: nat)
    requires k < |manifest| && ChangedAt(manifest[k].path, mid, now) && !Find(mid, manifest[k].path).Directory?
    requires Find(now, manifest[k].path) == Restored(manifest[k]) && Same(mid, Restore(from, manifest[..k]))
    ensures Same(now, Restore(from, manifest[..k + 1]))
  {
    assert manifest[..k + 1][..k] == manifest[..k];
  }

  lemma TouchedNothing(files: map<Path, Entry>)
    ensures Touched(files, files, false) && Same(files, Restore(files, []))
  {
  }

  /** What `Rollback` promises, joined to where the script had got to. */
  lemma RolledBackIff(was: map<Path, Entry>, mid: map<Path, Entry>, now: map<Path, Entry>, prepared: bool, clean: bool,
                      fails: Command -> bool, units: seq<Unit>)
    requires Touched(was, mid, prepared) && Touched(mid, now, false) && PutBackFrom(was, mid, now, |MANAGED|, fails)
    requires clean && (forall m :: m in MANAGED ==> !Find(mid, m).Directory?) ==> Same(now, Restore(mid, Manifest(was)))
    requires clean ==> NoneFails(Back(units), fails)
    ensures Touched(was, now, prepared)
    ensures forall m :: m in MANAGED && !fails(PutBack(m)) ==>
              Find(now, m) == if Find(was, m).Regular? then Find(was, m) else Absent
    ensures clean ==> (Same(now, was) <==>
                       Ordinary(was) && (prepared ==> Find(was, DROP_IN) == Directory(DROP_IN_MODE)))
  {
    hide Below, Restore, Manifest, Back;
    TouchedAgain(was, mid, now, prepared);
    assert forall m :: m in MANAGED && Find(mid, m).Directory? ==> Find(was, m).Directory?;
    if clean {
      BackPutsBack(units, fails);
      if m :| m in MANAGED && Find(mid, m).Directory? {
        assert Find(now, m).Absent? && Find(was, m).Directory?;
      } else {
        RestoreIsExactIff(was, mid, prepared);
      }
    }
  }

  lemma BackPutsBack(units: seq<Unit>, fails: Command -> bool)
    requires NoneFails(Back(units), fails)
    ensures forall m :: m in MANAGED ==> !fails(PutBack(m))
  {
    forall i | 0 <= i < |MANAGED|
      ensures !fails(PutBack(MANAGED[i]))
    {
      assert Back(units)[i + 1] == PutBack(MANAGED[i]);
    }
  }
}
