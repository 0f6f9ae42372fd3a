/** Publishing a release manifest once: any number of writers, interleaved in any
    way, each of which may fail or crash at any step. */
module ManifestPublication {
  import opened Binary

  type Writer = nat

  /** The published path, and the temporary file that `mkstemp` gave a writer. */
  datatype Name = Target | Temp(w: Writer)

  /** A file's storage: one that existed before, or the one a writer created. */
  datatype Inode = Prior | Of(w: Writer)

  /** Names refer to storage; a hard link makes two names refer to the same. */
  datatype Files = Files(names: map<Name, Inode>, data: map<Inode, Bytes>)

  datatype Outcome = Returned | Invalid | OutputExists | WriteFailed

  datatype Pc =
    | Begin
    | Checked                // the target did not exist
    | Writing(done: nat)     // the temporary file holds a prefix
    | Synced                 // all bytes written, flushed and synced
    | Linked | Refused       // after `os.link`, before the temporary name is removed
    | CleaningUp             // handling an `OSError`
    | Finished(outcome: Outcome)
    | Crashed

  datatype State = State(files: Files, pcs: map<Writer, Pc>)

  /** `write_release_manifest` publishes with `os.link`; `write_server_deployment_receipt`
      with `os.replace`. */
  datatype Method = HardLink | Replace

  /** What each writer would write, whether its payload is valid, and the method. */
  datatype Plan = Plan(bytes: Writer -> Bytes, valid: Writer -> bool, publish: Method)

  /** A step goes well (writing up to `upTo` bytes), fails, or is a crash. */
  datatype Action = Go(upTo: nat) | Fail | Crash

  datatype Move = Move(w: Writer, action: Action)

  function PcOf(s: State, w: Writer): Pc {
    if w in s.pcs then s.pcs[w] else Begin
  }

  function At(s: State, w: Writer, pc: Pc): State {
    s.(pcs := s.pcs[w := pc])
  }

  function Without(f: Files, n: Name): Files {
    f.(names := f.names - {n})
  }

  // ------------------------------------------------------------- one writer

  function BeginStep(p: Plan, s: State, w: Writer): State {
    if !p.valid(w) then At(s, w, Finished(Invalid))
    else if Target in s.files.names then At(s, w, Finished(OutputExists))
    else At(s, w, Checked)
  }

  function CreateStep(s: State, w: Writer): State {
    At(State(Files(s.files.names[Temp(w) := Of(w)], s.files.data[Of(w) := []]), s.pcs), w, Writing(0))
  }

  function WriteStep(p: Plan, s: State, w: Writer, done: nat, upTo: nat): State {
    var n := if done <= upTo <= |p.bytes(w)| then upTo else |p.bytes(w)|;
    var written := s.(files := s.files.(data := s.files.data[Of(w) := p.bytes(w)[..n]]));
    At(written, w, if n == |p.bytes(w)| then Synced else Writing(n))
  }

  function PublishStep(p: Plan, s: State, w: Writer): State {
    match p.publish
    case HardLink =>
      if Target in s.files.names then At(s, w, Refused)
      else At(s.(files := s.files.(names := s.files.names[Target := Of(w)])), w, Linked)
    case Replace =>
      At(s.(files := Files(s.files.names[Target := Of(w)] - {Temp(w)}, s.files.data)), w, Finished(Returned))
  }

  function UnlinkStep(s: State, w: Writer, outcome: Outcome): State {
    At(s.(files := Without(s.files, Temp(w))), w, Finished(outcome))
  }

  /** What a failing step leads to. */
  function FailStep(s: State, w: Writer): State {
    match PcOf(s, w)
    case Checked => At(s, w, Finished(WriteFailed))
    case Writing(_) => At(s, w, CleaningUp)
    case Synced => At(s, w, CleaningUp)
    case Linked => At(s, w, CleaningUp)
    case Refused => At(s, w, CleaningUp)
    case CleaningUp => At(s, w, Finished(WriteFailed))
    case _ => s
  }

  function GoStep(p: Plan, s: State, w: Writer, upTo: nat): State {
    match PcOf(s, w)
    case Begin => BeginStep(p, s, w)
    case Checked => CreateStep(s, w)
    case Writing(done) => WriteStep(p, s, w, done, upTo)
    case Synced => PublishStep(p, s, w)
    case Linked => UnlinkStep(s, w, Returned)
    case Refused => UnlinkStep(s, w, OutputExists)
    case CleaningUp => UnlinkStep(s, w, WriteFailed)
    case Finished(_) => s
    case Crashed => s
  }

  function Do(p: Plan, s: State, m: Move): State {
    match m.action
    case Go(upTo) => GoStep(p, s, m.w, upTo)
    case Fail => FailStep(s, m.w)
    case Crash => if PcOf(s, m.w).Finished? then s else At(s, m.w, Crashed)
  }

  function Run(p: Plan, f: Files, moves: seq<Move>): State {
    if moves == [] then State(f, map[])
    else Do(p, Run(p, f, moves[..|moves| - 1]), moves[|moves| - 1])
  }

  /** A crash changes no file and ends the writer, unless it has finished. */
  lemma CrashMeans(p: Plan, s: State, w: Writer)
    ensures Do(p, s, Move(w, Crash)).files == s.files
    ensures PcOf(Do(p, s, Move(w, Crash)), w) == if PcOf(s, w).Finished? then PcOf(s, w) else Crashed
    ensures forall v :: v != w ==> PcOf(Do(p, s, Move(w, Crash)), v) == PcOf(s, v)
  {
  }

  /** A writer that has finished or crashed does nothing more. */
  lemma EndedStaysEnded(p: Plan, s: State, m: Move)
    requires PcOf(s, m.w).Finished? || PcOf(s, m.w).Crashed?
    ensures Do(p, s, m).files == s.files && forall w :: PcOf(Do(p, s, m), w) == PcOf(s, w)
  {
  }

  // -------------------------------------------------------------- invariant

  /** Before anyone writes: the target is absent, or an older file or dangling link. */
  predicate Initial(f: Files) {
    && f.names.Keys <= {Target}
    && f.data.Keys <= {Prior}
    && (Target in f.names ==> f.names[Target] == Prior)
  }

  /** The storage of writer `w` matches its program counter. */
  predicate Kept(p: Plan, s: State, w: Writer) {
    match PcOf(s, w)
    case Begin => Of(w) !in s.files.data
    case Checked => Of(w) !in s.files.data && p.valid(w)
    case Writing(n) => Of(w) in s.files.data && n <= |p.bytes(w)| && s.files.data[Of(w)] == p.bytes(w)[..n] && p.valid(w)
    case Synced => Complete(p, s, w)
    case Linked => p.publish == HardLink && Complete(p, s, w) && Published(s, w)
    case Refused => Complete(p, s, w)
    case Finished(o) => o == Returned ==> Complete(p, s, w) && (p.publish == HardLink ==> Published(s, w))
    case _ => true
  }

  predicate Complete(p: Plan, s: State, w: Writer) {
    Of(w) in s.files.data && s.files.data[Of(w)] == p.bytes(w) && p.valid(w)
  }

  predicate Published(s: State, w: Writer) {
    Target in s.files.names && s.files.names[Target] == Of(w)
  }

  /** A published storage is complete and its writer writes no more. */
  predicate Settled(p: Plan, s: State, w: Writer) {
    Complete(p, s, w) && !PcOf(s, w).Begin? && !PcOf(s, w).Checked? && !PcOf(s, w).Writing? && !PcOf(s, w).Synced?
  }

  ghost predicate Inv(p: Plan, f: Files, s: State) {
    && (forall w: Writer :: Kept(p, s, w))
    && (forall w: Writer :: Published(s, w) ==> Settled(p, s, w))
    && (Prior in s.files.data <==> Prior in f.data)
    && (Prior in f.data ==> s.files.data[Prior] == f.data[Prior])
    && (Target in s.files.names && s.files.names[Target] == Prior ==> Target in f.names)
    && (p.publish == HardLink && Target in f.names ==> Target in s.files.names && s.files.names[Target] == Prior)
  }

  lemma OwnMove(p: Plan, s: State, m: Move)
    requires Kept(p, s, m.w) && (Published(s, m.w) ==> Settled(p, s, m.w))
    ensures var t := Do(p, s, m);
            Kept(p, t, m.w) && (Published(t, m.w) ==> Settled(p, t, m.w))
  {
  }

  lemma OthersMove(p: Plan, s: State, m: Move, w: Writer)
    requires w != m.w && Kept(p, s, w) && (Published(s, w) ==> Settled(p, s, w))
    ensures var t := Do(p, s, m);
            Kept(p, t, w) && (Published(t, w) ==> Settled(p, t, w))
  {
  }

  lemma PriorStays(p: Plan, f: Files, s: State, m: Move)
    requires Initial(f) && Inv(p, f, s)
    ensures var t := Do(p, s, m);
            && (Prior in t.files.data <==> Prior in f.data)
            && (Prior in f.data ==> t.files.data[Prior] == f.data[Prior])
            && (Target in t.files.names && t.files.names[Target] == Prior ==> Target in f.names)
            && (p.publish == HardLink && Target in f.names ==> Target in t.files.names && t.files.names[Target] == Prior)
  {
    hide Kept, Settled, Published;
  }

  lemma MoveKeepsInv(p: Plan, f: Files, s: State, m: Move)
    requires Initial(f) && Inv(p, f, s)
    ensures Inv(p, f, Do(p, s, m))
  {
    hide Kept, Settled, Published, Do, Initial;
    PriorStays(p, f, s, m);
    forall w: Writer
      ensures Kept(p, Do(p, s, m), w) && (Published(Do(p, s, m), w) ==> Settled(p, Do(p, s, m), w))
    {
      if w == m.w {
        OwnMove(p, s, m);
      } else {
        OthersMove(p, s, m, w);
      }
    }
  }

  lemma {:induction false} RunKeepsInv(p: Plan, f: Files, moves: seq<Move>)
    requires Initial(f)
    ensures Inv(p, f, Run(p, f, moves))
  {
    hide Do, Kept, Settled, Published;
    if moves == [] {
      StartHasInv(p, f);
    } else {
      RunKeepsInv(p, f, moves[..|moves| - 1]);
      MoveKeepsInv(p, f, Run(p, f, moves[..|moves| - 1]), moves[|moves| - 1]);
    }
  }

  lemma StartHasInv(p: Plan, f: Files)
    requires Initial(f)
    ensures Inv(p, f, State(f, map[]))
  {
  }

  // ----------------------------------------------------------------- results

  datatype Content = Absent | Present(bytes: Bytes)

  /** What a reader of the target sees. */
  function ContentOf(f: Files): Content {
    if Target in f.names && f.names[Target] in f.data then Present(f.data[f.names[Target]]) else Absent
  }

  /** At any moment of any run the target is as it was at the start, or holds the
      complete bytes of one valid writer; this holds for both methods. */
  lemma TargetIsNeverPartial(p: Plan, f: Files, moves: seq<Move>)
    requires Initial(f)
    ensures var now := ContentOf(Run(p, f, moves).files);
            now == ContentOf(f) || exists w: Writer :: p.valid(w) && now == Present(p.bytes(w))
  {
    RunKeepsInv(p, f, moves);
    var s := Run(p, f, moves);
    if Target in s.files.names {
      match s.files.names[Target]
      case Prior =>
      case Of(w) =>
        assert Published(s, w);
        assert Settled(p, s, w);
    }
  }

  /** With hard links a move never changes a target that is present. */
  lemma PresentStaysPut(p: Plan, f: Files, s: State, m: Move)
    requires Initial(f) && Inv(p, f, s) && p.publish == HardLink && Target in s.files.names
    ensures var t := Do(p, s, m);
            && Target in t.files.names && t.files.names[Target] == s.files.names[Target]
            && ContentOf(t.files) == ContentOf(s.files)
  {
    assert Kept(p, s, m.w);
    match s.files.names[Target]
    case Prior =>
    case Of(w) =>
      assert Published(s, w) && Settled(p, s, w);
  }

  /** With hard links, once the target is present its storage and content never
      change, in whatever way the run goes on. */
  lemma {:induction false} PublishedForever(p: Plan, f: Files, moves: seq<Move>, k: nat)
    requires Initial(f) && p.publish == HardLink && k <= |moves| && Target in Run(p, f, moves[..k]).files.names
    ensures var then_, now := Run(p, f, moves[..k]).files, Run(p, f, moves).files;
            && Target in now.names && now.names[Target] == then_.names[Target]
            && ContentOf(now) == ContentOf(then_)
    decreases |moves|
  {
    hide Do, ContentOf;
    if k == |moves| {
      assert moves[..k] == moves;
    } else {
      var before := moves[..|moves| - 1];
      assert before[..k] == moves[..k];
      PublishedForever(p, f, before, k);
      RunKeepsInv(p, f, before);
      PresentStaysPut(p, f, Run(p, f, before), moves[|moves| - 1]);
    }
  }

  /** With hard links at most one call returns normally, and then the target holds
      its bytes, for good; if the target existed before, none does. */
  lemma AtMostOneReturns(p: Plan, f: Files, moves: seq<Move>, v: Writer, w: Writer)
    requires Initial(f) && p.publish == HardLink
    requires PcOf(Run(p, f, moves), v) == Finished(Returned) && PcOf(Run(p, f, moves), w) == Finished(Returned)
    ensures v == w && Target !in f.names && p.valid(w)
    ensures ContentOf(Run(p, f, moves).files) == Present(p.bytes(w))
  {
    hide Run;
    RunKeepsInv(p, f, moves);
    var s := Run(p, f, moves);
    assert Kept(p, s, v) && Kept(p, s, w);
  }

  // -------------------------------------------------- what a call reports

  predicate Active(pc: Pc) {
    !pc.Begin? && !pc.Finished? && !pc.Crashed?
  }

  /** Move `k` makes a step of the writer fail. Its checks cannot fail otherwise than by
      the outcome they report. */
  predicate StepFails(p: Plan, f: Files, moves: seq<Move>, w: Writer, k: nat)
    requires k < |moves|
  {
    Active(PcOf(Run(p, f, moves[..k]), w)) && moves[k] == Move(w, Fail)
  }

  predicate Crashes(p: Plan, f: Files, moves: seq<Move>, w: Writer, k: nat)
    requires k < |moves|
  {
    !PcOf(Run(p, f, moves[..k]), w).Finished? && moves[k] == Move(w, Crash)
  }

  /** Where a writer is, given whether a step of it failed, whether it crashed, and
      whether the target has ever been present. */
  predicate Situated(p: Plan, s: State, w: Writer, failed: bool, crashed: bool, present: bool) {
    && (PcOf(s, w) == Crashed <==> crashed)
    && (!crashed ==> (PcOf(s, w) in {CleaningUp, Finished(WriteFailed)} <==> failed))
    && (PcOf(s, w) == Finished(Invalid) ==> !p.valid(w))
    && (PcOf(s, w) !in {Begin, Crashed, Finished(Invalid)} ==> p.valid(w))
    && (PcOf(s, w) in {Refused, Finished(OutputExists)} ==> present)
    && (Target in s.files.names ==> present)
    && (PcOf(s, w) in {Begin, Checked, Finished(Returned), Finished(OutputExists), Finished(Invalid)} ==>
          Temp(w) !in s.files.names)
  }

  lemma MoveKeepsSituated(p: Plan, s: State, m: Move, w: Writer, failed: bool, crashed: bool, present: bool)
    requires Situated(p, s, w, failed, crashed, present)
    ensures Situated(p, Do(p, s, m), w,
                     failed || (m == Move(w, Fail) && Active(PcOf(s, w))),
                     crashed || (m == Move(w, Crash) && !PcOf(s, w).Finished?),
                     present || Target in Do(p, s, m).files.names)
  {
  }

  ghost predicate EverPresent(p: Plan, f: Files, moves: seq<Move>) {
    exists k :: 0 <= k <= |moves| && Target in Run(p, f, moves[..k]).files.names
  }

  lemma {:induction false} RunIsSituated(p: Plan, f: Files, moves: seq<Move>, w: Writer)
    requires Initial(f)
    ensures Situated(p, Run(p, f, moves), w,
                     exists k :: 0 <= k < |moves| && StepFails(p, f, moves, w, k),
                     exists k :: 0 <= k < |moves| && Crashes(p, f, moves, w, k),
                     EverPresent(p, f, moves))
  {
    hide Do, Situated;
    assert moves[..|moves|] == moves;
    if moves == [] {
      NowhereYet(p, f, w);
      assert Run(p, f, moves[..0]) == State(f, map[]);
    } else {
      var n := |moves| - 1;
      var before := moves[..n];
      RunIsSituated(p, f, before, w);
      MoveKeepsSituated(p, Run(p, f, before), moves[n], w,
                        exists k :: 0 <= k < n && StepFails(p, f, before, w, k),
                        exists k :: 0 <= k < n && Crashes(p, f, before, w, k),
                        EverPresent(p, f, before));
      forall k: nat | k < n
        ensures StepFails(p, f, before, w, k) <==> StepFails(p, f, moves, w, k)
        ensures Crashes(p, f, before, w, k) <==> Crashes(p, f, moves, w, k)
      {
        assert before[..k] == moves[..k];
      }
      assert StepFails(p, f, moves, w, n) <==> Active(PcOf(Run(p, f, before), w)) && moves[n] == Move(w, Fail);
      assert Crashes(p, f, moves, w, n) <==> !PcOf(Run(p, f, before), w).Finished? && moves[n] == Move(w, Crash);
      PresentLater(p, f, moves);
    }
  }

  lemma NowhereYet(p: Plan, f: Files, w: Writer)
    requires Initial(f)
    ensures Situated(p, State(f, map[]), w, false, false, Target in f.names)
  {
  }

  lemma PresentLater(p: Plan, f: Files, moves: seq<Move>)
    requires moves != []
    ensures EverPresent(p, f, moves) <==>
            EverPresent(p, f, moves[..|moves| - 1]) || Target in Run(p, f, moves).files.names
  {
    hide Run;
    var before := moves[..|moves| - 1];
    assert moves[..|moves|] == moves;
    assert forall k :: 0 <= k <= |before| ==> before[..k] == moves[..k];
  }

  /** What a finished call reports, for both methods: a failed write if and only if one
      of its steps failed, an invalid payload if and only if it is invalid, an existing
      target only if the target was there at some time; otherwise it returned. Unless
      a step failed, its temporary name is gone. */
  lemma OutcomesMean(p: Plan, f: Files, moves: seq<Move>, w: Writer)
    requires Initial(f) && PcOf(Run(p, f, moves), w).Finished?
    ensures var outcome := PcOf(Run(p, f, moves), w).outcome;
            && (outcome == WriteFailed <==> exists k :: 0 <= k < |moves| && StepFails(p, f, moves, w, k))
            && (outcome == Invalid <==> !p.valid(w))
            && (outcome == OutputExists ==> EverPresent(p, f, moves))
            && (outcome != WriteFailed ==> Temp(w) !in Run(p, f, moves).files.names)
  {
    hide Run, StepFails, Crashes, EverPresent;
    RunIsSituated(p, f, moves, w);
  }

  /** How many more steps a writer has at most. */
  function StepsLeft(pc: Pc): nat {
    match pc
    case Begin => 5
    case Checked => 4
    case Writing(_) => 3
    case Synced => 2
    case Linked => 1
    case Refused => 1
    case CleaningUp => 1
    case _ => 0
  }

  lemma GoAdvances(p: Plan, s: State, w: Writer)
    requires !PcOf(s, w).Crashed?
    ensures var t := Do(p, s, Move(w, Go(|p.bytes(w)|)));
            !PcOf(t, w).Crashed? && (StepsLeft(PcOf(t, w)) < StepsLeft(PcOf(s, w)) || PcOf(s, w).Finished?)
    ensures PcOf(s, w).Finished? ==> Do(p, s, Move(w, Go(|p.bytes(w)|))) == s
  {
  }

  /** A writer that has not crashed ends its call in at most five steps of its own. */
  lemma {:induction false} EveryWriterCanFinish(p: Plan, f: Files, before: seq<Move>, w: Writer) returns (moves: seq<Move>)
    requires !PcOf(Run(p, f, before), w).Crashed?
    ensures |moves| <= StepsLeft(PcOf(Run(p, f, before), w)) <= 5
    ensures forall i :: 0 <= i < |moves| ==> moves[i].w == w && moves[i].action.Go?
    ensures PcOf(Run(p, f, before + moves), w).Finished?
    decreases StepsLeft(PcOf(Run(p, f, before), w))
  {
    hide Run, Do;
    moves := [];
    assert before + [] == before;
    if !PcOf(Run(p, f, before), w).Finished? {
      var go := Move(w, Go(|p.bytes(w)|));
      RunMore(p, f, before, go);
      GoAdvances(p, Run(p, f, before), w);
      var rest := EveryWriterCanFinish(p, f, before + [go], w);
      moves := [go] + rest;
      assert before + moves == before + [go] + rest;
    }
  }

  // ------------------------------------------- published and reported failed

  /** Move `k` is a failure of `w` to remove its temporary name after linking. */
  predicate UnlinkFails(p: Plan, f: Files, moves: seq<Move>, w: Writer, k: nat)
    requires k < |moves|
  {
    PcOf(Run(p, f, moves[..k]), w) == Linked && moves[k] == Move(w, Fail)
  }

  /** How far `w` is tells whether that has happened, if its storage is published. */
  predicate Tracked(s: State, w: Writer, failed: bool) {
    match PcOf(s, w)
    case Crashed => true
    case CleaningUp => Published(s, w) ==> failed
    case Refused => !Published(s, w) && !failed
    case Finished(WriteFailed) => Published(s, w) ==> failed
    case Finished(Returned) => !failed
    case Finished(_) => !Published(s, w)
    case _ => !failed
  }

  lemma MoveKeepsTracked(p: Plan, f: Files, s: State, m: Move, w: Writer, failed: bool)
    requires p.publish == HardLink && Kept(p, s, w) && (Published(s, w) ==> Settled(p, s, w)) && Tracked(s, w, failed)
    ensures Tracked(Do(p, s, m), w, failed || (PcOf(s, w) == Linked && m == Move(w, Fail)))
  {
  }

  lemma {:induction false} RunIsTracked(p: Plan, f: Files, moves: seq<Move>, w: Writer)
    requires Initial(f) && p.publish == HardLink
    ensures Tracked(Run(p, f, moves), w, exists k :: 0 <= k < |moves| && UnlinkFails(p, f, moves, w, k))
  {
    hide Do, Tracked, Kept, Settled, Published;
    if moves == [] {
      NothingTracked(f, w);
    } else {
      var n := |moves| - 1;
      var before := moves[..n];
      RunIsTracked(p, f, before, w);
      RunKeepsInv(p, f, before);
      MoveKeepsTracked(p, f, Run(p, f, before), moves[n], w, exists k :: 0 <= k < n && UnlinkFails(p, f, before, w, k));
      forall k: nat | k < n
        ensures UnlinkFails(p, f, before, w, k) <==> UnlinkFails(p, f, moves, w, k)
      {
        assert before[..k] == moves[..k];
      }
      assert UnlinkFails(p, f, moves, w, n) <==> PcOf(Run(p, f, before), w) == Linked && moves[n] == Move(w, Fail);
    }
  }

  lemma NothingTracked(f: Files, w: Writer)
    ensures Tracked(State(f, map[]), w, false)
  {
  }

  /** With hard links a finished call whose bytes are published has returned normally
      if and only if removing its temporary name did not fail right after the link. */
  lemma PublishedReturnsIff(p: Plan, f: Files, moves: seq<Move>, w: Writer)
    requires Initial(f) && p.publish == HardLink
    requires Published(Run(p, f, moves), w) && PcOf(Run(p, f, moves), w).Finished?
    ensures PcOf(Run(p, f, moves), w) == Finished(Returned) <==>
            forall k :: 0 <= k < |moves| ==> !UnlinkFails(p, f, moves, w, k)
  {
    hide Run, UnlinkFails;
    RunIsTracked(p, f, moves, w);
  }

  lemma RunMore(p: Plan, f: Files, before: seq<Move>, m: Move)
    ensures Run(p, f, before + [m]) == Do(p, Run(p, f, before), m)
  {
    assert (before + [m])[..|before|] == before;
  }

  const EMPTY := Files(map[], map[])

  /** Such a failure happens: one writer, from an empty directory. */
  lemma PublishedYetReportedFailed(p: Plan, w: Writer)
    requires p.publish == HardLink && p.valid(w)
    ensures var moves := [Move(w, Go(0)), Move(w, Go(0)), Move(w, Go(|p.bytes(w)|)), Move(w, Go(0)), Move(w, Fail), Move(w, Go(0))];
            var s := Run(p, EMPTY, moves);
            Published(s, w) && ContentOf(s.files) == Present(p.bytes(w)) && PcOf(s, w) == Finished(WriteFailed)
  {
    hide Run, Do;
    var go := Move(w, Go(0));
    var began := [go];
    StartStep(p, EMPTY, go);
    Checks(p, State(EMPTY, map[]), w);
    var prepared := began + Preparing(p, w);
    Prepared(p, EMPTY, began, w);
    var s := Run(p, EMPTY, prepared);
    var linked := prepared + [go];
    RunMore(p, EMPTY, prepared, go);
    var failed := linked + [Move(w, Fail)];
    RunMore(p, EMPTY, linked, Move(w, Fail));
    RunMore(p, EMPTY, failed, go);
    LinksThenFails(p, s, w);
    assert failed + [go] == [go, go, Move(w, Go(|p.bytes(w)|)), go, Move(w, Fail), go];
  }

  lemma StartStep(p: Plan, f: Files, m: Move)
    ensures Run(p, f, [m]) == Do(p, State(f, map[]), m)
  {
    hide Do;
    assert [m][..0] == [];
  }

  lemma Checks(p: Plan, s: State, w: Writer)
    requires PcOf(s, w) == Begin && p.valid(w) && Target !in s.files.names
    ensures Do(p, s, Move(w, Go(0))) == At(s, w, Checked)
  {
  }

  lemma LinksThenFails(p: Plan, s: State, w: Writer)
    requires p.publish == HardLink && PcOf(s, w) == Synced && Target !in s.files.names
    requires Of(w) in s.files.data
    ensures var go := Move(w, Go(0));
            var t := Do(p, Do(p, Do(p, s, go), Move(w, Fail)), go);
            Published(t, w) && t.files.data == s.files.data && PcOf(t, w) == Finished(WriteFailed)
  {
    var linked := PublishStep(p, s, w);
    assert Do(p, s, Move(w, Go(0))) == linked;
    var failed := At(linked, w, CleaningUp);
    assert Do(p, linked, Move(w, Fail)) == failed;
    assert Do(p, failed, Move(w, Go(0))) == UnlinkStep(failed, w, WriteFailed);
  }

  /** The moves of a writer that does everything but publish. */
  function Preparing(p: Plan, w: Writer): seq<Move> {
    [Move(w, Go(0)), Move(w, Go(|p.bytes(w)|))]
  }

  lemma Prepared(p: Plan, f: Files, before: seq<Move>, w: Writer)
    requires PcOf(Run(p, f, before), w) == Checked
    ensures var s, t := Run(p, f, before), Run(p, f, before + Preparing(p, w));
            && t.pcs == s.pcs[w := Synced]
            && t.files == Files(s.files.names[Temp(w) := Of(w)], s.files.data[Of(w) := p.bytes(w)])
  {
    hide Run;
    var s, b := Run(p, f, before), p.bytes(w);
    var t := CreateStep(s, w);
    RunMore(p, f, before, Move(w, Go(0)));
    assert Do(p, s, Move(w, Go(0))) == t;
    RunMore(p, f, before + [Move(w, Go(0))], Move(w, Go(|b|)));
    WritesAll(p, t, w, 0);
    assert before + Preparing(p, w) == before + [Move(w, Go(0))] + [Move(w, Go(|b|))];
    assert t.files.data[Of(w) := b] == s.files.data[Of(w) := b];
  }

  lemma WritesAll(p: Plan, s: State, w: Writer, done: nat)
    requires PcOf(s, w) == Writing(done) && done <= |p.bytes(w)|
    ensures Do(p, s, Move(w, Go(|p.bytes(w)|)))
         == State(s.files.(data := s.files.data[Of(w) := p.bytes(w)]), s.pcs[w := Synced])
  {
    var b := p.bytes(w);
    assert b[..|b|] == b;
    assert Do(p, s, Move(w, Go(|b|))) == WriteStep(p, s, w, done, |b|);
  }

  // ---------------------------------------------------------------- replacing

  /** Past the check and not yet published. */
  predicate InFlight(s: State, w: Writer) {
    PcOf(s, w).Checked? || PcOf(s, w).Writing? || PcOf(s, w).Synced?
  }

  /** With `os.replace` a present target changes only by a writer that was in flight. */
  lemma ReplaceStep(p: Plan, f: Files, s: State, m: Move)
    requires Inv(p, f, s) && p.publish == Replace && Target in s.files.names
    ensures var t := Do(p, s, m);
            && Target in t.files.names
            && (forall w :: InFlight(t, w) ==> InFlight(s, w))
            && (t.files.names[Target] != s.files.names[Target] ==>
                  InFlight(s, m.w) && t.files.names[Target] == Of(m.w) && ContentOf(t.files) == Present(p.bytes(m.w)))
            && (t.files.names[Target] == s.files.names[Target] ==> ContentOf(t.files) == ContentOf(s.files))
  {
    assert Kept(p, s, m.w) && (Published(s, m.w) ==> Settled(p, s, m.w));
    forall w | InFlight(Do(p, s, m), w)
      ensures InFlight(s, w)
    {
    }
  }

  /** The target after more moves is as it was, or holds the bytes of a writer that
      was in flight before them. */
  lemma {:induction false} ReplacedByInFlight(p: Plan, f: Files, before: seq<Move>, moves: seq<Move>)
    requires Initial(f) && p.publish == Replace && Target in Run(p, f, before).files.names
    ensures var s, t := Run(p, f, before), Run(p, f, before + moves);
            && Target in t.files.names
            && (forall w :: InFlight(t, w) ==> InFlight(s, w))
            && ((t.files.names[Target] == s.files.names[Target] && ContentOf(t.files) == ContentOf(s.files))
                || exists w: Writer :: InFlight(s, w) && ContentOf(t.files) == Present(p.bytes(w)))
  {
    hide Run, Do, ContentOf, InFlight, Inv;
    if moves == [] {
      assert before + moves == before;
    } else {
      var n := |moves| - 1;
      var longer := before + moves[..n];
      ReplacedByInFlight(p, f, before, moves[..n]);
      RunKeepsInv(p, f, longer);
      assert before + moves == longer + [moves[n]];
      RunMore(p, f, longer, moves[n]);
      ReplaceStep(p, f, Run(p, f, longer), moves[n]);
    }
  }

  /** What a writer in flight still has to do. */
  function Finishing(p: Plan, s: State, w: Writer): seq<Move>
    requires InFlight(s, w)
  {
    var last := [Move(w, Go(|p.bytes(w)|)), Move(w, Go(0))];
    match PcOf(s, w)
    case Checked => [Move(w, Go(0))] + last
    case Writing(_) => last
    case _ => last[1..]
  }

  lemma Finishes(p: Plan, f: Files, before: seq<Move>, w: Writer)
    requires Initial(f) && p.publish == Replace && InFlight(Run(p, f, before), w)
    ensures var s := Run(p, f, before);
            var t := Run(p, f, before + Finishing(p, s, w));
            Published(t, w) && ContentOf(t.files) == Present(p.bytes(w)) && t.pcs == s.pcs[w := Finished(Returned)]
  {
    hide Run, Do, Settled;
    var s := Run(p, f, before);
    var write, publish := Move(w, Go(|p.bytes(w)|)), Move(w, Go(0));
    RunKeepsInv(p, f, before);
    assert Kept(p, s, w);
    var synced := before;
    match PcOf(s, w) {
      case Checked =>
        synced := before + Preparing(p, w);
        Prepared(p, f, before, w);
      case Writing(done) =>
        synced := before + [write];
        RunMore(p, f, before, write);
        WritesAll(p, s, w, done);
      case Synced =>
    }
    assert before + Finishing(p, s, w) == synced + [publish];
    RunMore(p, f, synced, publish);
    Replaces(p, Run(p, f, synced), w);
    assert s.pcs[w := Synced][w := Finished(Returned)] == s.pcs[w := Finished(Returned)];
  }

  lemma Replaces(p: Plan, s: State, w: Writer)
    requires p.publish == Replace && PcOf(s, w) == Synced && Complete(p, s, w)
    ensures var t := Do(p, s, Move(w, Go(0)));
            Published(t, w) && ContentOf(t.files) == Present(p.bytes(w)) && t.pcs == s.pcs[w := Finished(Returned)]
  {
    assert Do(p, s, Move(w, Go(0))) == PublishStep(p, s, w);
  }

  /** With `os.replace` a present target keeps its storage in whatever way the run goes
      on if and only if no writer is in flight. */
  lemma ReplaceKeepsTargetIff(p: Plan, f: Files, before: seq<Move>)
    requires Initial(f) && p.publish == Replace && Target in Run(p, f, before).files.names
    ensures (forall moves :: var t := Run(p, f, before + moves).files;
                             Target in t.names && t.names[Target] == Run(p, f, before).files.names[Target])
       <==> (forall w: Writer :: !InFlight(Run(p, f, before), w))
  {
    hide Run, Do, InFlight;
    var s := Run(p, f, before);
    if w: Writer :| InFlight(s, w) {
      Finishes(p, f, before, w);
      RunKeepsInv(p, f, before);
      InFlightIsUnpublished(p, s, w);
    } else {
      forall moves
        ensures Target in Run(p, f, before + moves).files.names
        ensures Run(p, f, before + moves).files.names[Target] == s.files.names[Target]
      {
        ReplacedByInFlight(p, f, before, moves);
      }
    }
  }

  lemma InFlightIsUnpublished(p: Plan, s: State, w: Writer)
    requires InFlight(s, w) && (Published(s, w) ==> Settled(p, s, w))
    ensures !Published(s, w)
  {
  }

  /** Its content never changes if and only if each writer in flight would write the
      same bytes again. */
  lemma ReplaceKeepsContentIff(p: Plan, f: Files, before: seq<Move>)
    requires Initial(f) && p.publish == Replace && Target in Run(p, f, before).files.names
    ensures (forall moves :: ContentOf(Run(p, f, before + moves).files) == ContentOf(Run(p, f, before).files))
       <==> (forall w: Writer :: InFlight(Run(p, f, before), w) ==>
               Present(p.bytes(w)) == ContentOf(Run(p, f, before).files))
  {
    hide Run, Do, InFlight, ContentOf;
    var s := Run(p, f, before);
    if w: Writer :| InFlight(s, w) && Present(p.bytes(w)) != ContentOf(s.files) {
      Finishes(p, f, before, w);
    } else {
      forall moves
        ensures ContentOf(Run(p, f, before + moves).files) == ContentOf(s.files)
      {
        ReplacedByInFlight(p, f, before, moves);
      }
    }
  }

  /** Such a run: from an empty directory two valid writers both find no target, both
      return normally, and the second replaces the bytes of the first. */
  lemma ReplaceCanOverwrite(p: Plan, v: Writer, w: Writer)
    requires p.publish == Replace && p.valid(v) && p.valid(w) && v != w
    ensures exists first, second ::
              var s, t := Run(p, EMPTY, first), Run(p, EMPTY, first + second);
              && ContentOf(s.files) == Present(p.bytes(v)) && ContentOf(t.files) == Present(p.bytes(w))
              && PcOf(t, v) == Finished(Returned) && PcOf(t, w) == Finished(Returned)
  {
    hide Run, Do, ContentOf, Finishing;
    var checks := [Move(v, Go(0)), Move(w, Go(0))];
    BothCanCheck(p, v, w);
    var first := checks + Finishing(p, Run(p, EMPTY, checks), v);
    Finishes(p, EMPTY, checks, v);
    var second := Finishing(p, Run(p, EMPTY, first), w);
    Finishes(p, EMPTY, first, w);
  }

  lemma BothCanCheck(p: Plan, v: Writer, w: Writer)
    requires p.valid(v) && p.valid(w) && v != w
    ensures var s := Run(p, EMPTY, [Move(v, Go(0)), Move(w, Go(0))]);
            PcOf(s, v) == Checked && PcOf(s, w) == Checked
  {
    hide Run, Do;
    var a, b := Move(v, Go(0)), Move(w, Go(0));
    StartStep(p, EMPTY, a);
    Checks(p, State(EMPTY, map[]), v);
    RunMore(p, EMPTY, [a], b);
    Checks(p, Run(p, EMPTY, [a]), w);
    assert [a] + [b] == [a, b];
  }
}
