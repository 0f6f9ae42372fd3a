/** The two scanners that carry a keyset cursor from one run to the next: the
    classifier saves it to a file before each attempt, the category scan keeps it
    in memory and moves it after each batch. */
module Scanners {
  import opened ScanCursor
  import Collections
  import TextOrder

  /** `Rewind` marks a selection from the start of the queue. */
  datatype Event = Rewind | Attempt(key: Key)

  /** What survives a crash of the classifier, and what it has done so far. */
  datatype Daemon = Daemon(file: Cursor, log: seq<Event>)

  // ---------------------------------------------------------- classification

  /** The characters that `str.strip` removes. */
  predicate IsSpace(c: char) {
    || '\U{0009}' <= c <= '\U{000D}' || '\U{001C}' <= c <= '\U{0020}' || c == '\U{0085}' || c == '\U{00A0}'
    || c == '\U{1680}' || '\U{2000}' <= c <= '\U{200A}' || c == '\U{2028}' || c == '\U{2029}'
    || c == '\U{202F}' || c == '\U{205F}' || c == '\U{3000}'
  }

  predicate Blank(s: string) {
    forall i :: 0 <= i < |s| ==> IsSpace(s[i])
  }

  /** A saved key that the loader accepts: neither part is blank. The query itself
      rejects spaces only, so a row with a part of tabs or line ends is pending
      although its key never loads. */
  predicate Loads(k: Key) {
    !Blank(k.createdAt) && !Blank(k.id)
  }

  /** What `_load_llm_classify_cursor` returns. */
  function Loaded(file: Cursor, readable: bool): Cursor {
    if readable && file.At? && Loads(file.key) then file else Start
  }

  /** Save the cursor, then attempt, row by row, for at most `life` actions: the
      process dies, or a save fails, after that many. */
  function Work(d: Daemon, rows: seq<Key>, life: nat): Daemon
    decreases |rows|
  {
    if rows == [] || life == 0 then d
    else
      var saved := d.(file := At(rows[0]));
      if life == 1 then saved
      else Work(saved.(log := saved.log + [Attempt(rows[0])]), rows[1..], life - 2)
  }

  /** One classification scan with batches of `n`; none if `n` is zero. An unreadable
      cursor file counts as no cursor. */
  function Classify(d: Daemon, pending: set<Key>, n: nat, readable: bool, life: nat): Daemon {
    var c := Loaded(d.file, readable);
    var rows := Rows(pending, c, n);
    if n == 0 then d
    else if c != Start && rows == [] then
      if life == 0 then d
      else Work(Daemon(Start, d.log + [Rewind]), Rows(pending, Start, n), life - 1)
    else
      Work(if c == Start then d.(log := d.log + [Rewind]) else d, rows, life)
  }

  /** The queue without the rows whose attempt settles them. */
  ghost function Unsettled(pending: set<Key>, events: seq<Event>, settles: Key -> bool): set<Key> {
    set k | k in pending && !(settles(k) && Attempt(k) in events)
  }

  lemma RewindSettlesNothing(pending: set<Key>, events: seq<Event>, settles: Key -> bool)
    ensures Unsettled(pending, [Rewind] + events, settles) == Unsettled(pending, events, settles)
    ensures Unsettled(pending, [], settles) == pending
  {
    assert forall e :: e in [Rewind] + events <==> e == Rewind || e in events;
  }

  lemma SettleOne(pending: set<Key>, events: seq<Event>, k: Key, settles: Key -> bool)
    ensures Unsettled(pending, events + [Attempt(k)], settles)
         == if settles(k) then Unsettled(pending, events, settles) - {k} else Unsettled(pending, events, settles)
  {
    assert forall e :: e in events + [Attempt(k)] <==> e in events || e == Attempt(k);
  }

  class LlmClassifier {
    var cursorFile: Cursor
    ghost var log: seq<Event>

    constructor (file: Cursor)
      ensures cursorFile == file && log == []
    {
      cursorFile, log := file, [];
    }

    /** `scan_llm_classify`. `settles` says which attempts take their row out of
        the queue; `left` is the queue afterwards. */
    method Scan(pending: set<Key>, n: int, readable: bool, life: nat, settles: Key -> bool) returns (left: set<Key>)
      modifies this
      ensures n <= 0 ==> unchanged(this) && left == pending
      ensures n > 0 ==> Daemon(cursorFile, log) == Classify(old(Daemon(cursorFile, log)), pending, n, readable, life)
      ensures n > 0 ==> old(log) <= log
      ensures n > 0 ==> left == Unsettled(pending, log[|old(log)|..], settles)
    {
      hide Unsettled, Rows, Loads, Before, Work;
      RewindSettlesNothing(pending, [], settles);
      left := pending;
      if n <= 0 {
        return;
      }
      var cursor := Loaded(cursorFile, readable);
      var rows := Rows(pending, cursor, n);
      if cursor == Start {
        log := log + [Rewind];
        ghost var mid := log;
        left := AttemptRows(pending, rows, life, settles);
        RewindSettlesNothing(pending, log[|mid|..], settles);
        assert log[|old(log)|..] == [Rewind] + log[|mid|..];
      } else if rows == [] {
        if life == 0 {
          assert log[|old(log)|..] == [];
          return;
        }
        cursorFile := Start;
        log := log + [Rewind];
        ghost var mid := log;
        left := AttemptRows(pending, Rows(pending, Start, n), life - 1, settles);
        RewindSettlesNothing(pending, log[|mid|..], settles);
        assert log[|old(log)|..] == [Rewind] + log[|mid|..];
      } else {
        left := AttemptRows(pending, rows, life, settles);
      }
    }

    /** The loop over the selected rows: save the cursor, then attempt. */
    method AttemptRows(pending: set<Key>, rows: seq<Key>, life: nat, settles: Key -> bool) returns (left: set<Key>)
      modifies this
      ensures Daemon(cursorFile, log) == Work(old(Daemon(cursorFile, log)), rows, life)
      ensures old(log) <= log && left == Unsettled(pending, log[|old(log)|..], settles)
    {
      hide Unsettled;
      RewindSettlesNothing(pending, [], settles);
      left := pending;
      var actions := life;
      assert log[|old(log)|..] == [] && rows[0..] == rows;
      for i := 0 to |rows|
        invariant Work(old(Daemon(cursorFile, log)), rows, life) == Work(Daemon(cursorFile, log), rows[i..], actions)
        invariant old(log) <= log
        invariant left == Unsettled(pending, log[|old(log)|..], settles)
      {
        assert rows[i..][1..] == rows[i + 1..];
        if actions == 0 {
          return;
        }
        cursorFile := At(rows[i]);
        if actions == 1 {
          return;
        }
        assert (log + [Attempt(rows[i])])[|old(log)|..] == log[|old(log)|..] + [Attempt(rows[i])];
        SettleOne(pending, log[|old(log)|..], rows[i], settles);
        log := log + [Attempt(rows[i])];
        if settles(rows[i]) {
          left := left - {rows[i]};
        }
        actions := actions - 2;
      }
    }
  }

  /** With enough actions and a readable file, a scan attempts its whole batch and
      leaves the cursor where the fairness argument expects it. */
  lemma UninterruptedScan(d: Daemon, pending: set<Key>, n: nat, life: nat)
    requires n > 0 && life >= 2 * n + 1
    ensures var d' := Classify(d, pending, n, true, life);
            var c := Loaded(d.file, true);
            var rows := Batch(pending, c, n);
            && (rows != [] ==> d'.file == NextCursor(rows, n, false))
            && d'.log == d.log + (if c == Start || Rows(pending, c, n) == [] then [Rewind] else []) + Attempts(rows)
  {
    hide Rows, Work, Before, Above, Increasing, Attempts, Loaded;
    var c := Loaded(d.file, true);
    RowsAreFirst(pending, c, n);
    RowsAreFirst(pending, Start, n);
    var rows := Rows(pending, c, n);
    if c != Start && rows == [] {
      WorkCompletes(Daemon(Start, d.log + [Rewind]), Rows(pending, Start, n), life - 1);
    } else if c == Start {
      WorkCompletes(d.(log := d.log + [Rewind]), rows, life);
    } else {
      WorkCompletes(d, rows, life);
      assert d.log + [] == d.log;
    }
  }

  function Attempts(rows: seq<Key>): seq<Event> {
    seq(|rows|, i requires 0 <= i < |rows| => Attempt(rows[i]))
  }

  lemma {:induction false} WorkCompletes(d: Daemon, rows: seq<Key>, life: nat)
    requires life >= 2 * |rows|
    ensures Work(d, rows, life).log == d.log + Attempts(rows)
    ensures Work(d, rows, life).file == if rows == [] then d.file else At(rows[|rows| - 1])
    decreases |rows|
  {
    if rows != [] {
      var d1 := Daemon(At(rows[0]), d.log + [Attempt(rows[0])]);
      WorkCompletes(d1, rows[1..], life - 2);
      assert Attempts(rows) == [Attempt(rows[0])] + Attempts(rows[1..]);
    }
  }

  // ------------------------------------------------------------ crash safety

  /** Positions `i` to `j` are attempts of one round: no `Rewind` among them. */
  ghost predicate OneRound(log: seq<Event>, i: nat, j: nat)
    requires i <= j < |log|
    ensures OneRound(log, i, j) ==> log[i].Attempt? && log[j].Attempt?
  {
    forall r :: i <= r <= j ==> log[r].Attempt?
  }

  /** Position `i` is an attempt of the current round. */
  ghost predicate Current(log: seq<Event>, i: nat)
    requires i < |log|
    ensures Current(log, i) ==> log[i].Attempt? && log[|log| - 1].Attempt?
  {
    OneRound(log, i, |log| - 1)
  }

  /** Within one round attempts move strictly forward, so no row is attempted twice. */
  ghost predicate ForwardInRounds(log: seq<Event>) {
    forall i: nat, j: nat {:trigger OneRound(log, i, j)} ::
      i < j < |log| && OneRound(log, i, j) ==> Before(log[i].key, log[j].key)
  }

  /** Every attempt of the current round is before `k`. */
  ghost predicate RoundBefore(log: seq<Event>, k: Key) {
    forall i: nat {:trigger Current(log, i)} :: i < |log| && Current(log, i) ==> Before(log[i].key, k)
  }

  /** The saved cursor is at or past every attempt of the current round. */
  ghost predicate Safe(d: Daemon) {
    && ForwardInRounds(d.log)
    && forall k :: Past(d.file, k) ==> RoundBefore(d.log, k)
  }

  lemma RoundsOfLonger(log: seq<Event>, e: Event, i: nat, j: nat)
    requires i <= j < |log|
    ensures OneRound(log + [e], i, j) <==> OneRound(log, i, j)
    ensures Current(log + [e], i) <==> Current(log, i) && e.Attempt?
  {
    var longer := log + [e];
    assert forall r :: 0 <= r < |log| ==> longer[r] == log[r];
    assert longer[|log|] == e;
  }

  lemma RewindKeepsSafe(log: seq<Event>, file: Cursor)
    requires ForwardInRounds(log)
    ensures Safe(Daemon(file, log + [Rewind])) && forall k :: RoundBefore(log + [Rewind], k)
  {
    hide Before, OneRound;
    var longer := log + [Rewind];
    forall i: nat, j: nat | i < j < |longer| && OneRound(longer, i, j)
      ensures Before(longer[i].key, longer[j].key)
    {
      RoundsOfLonger(log, Rewind, i, j);
    }
  }

  lemma SaveKeepsSafe(d: Daemon, k: Key)
    requires Safe(d) && RoundBefore(d.log, k)
    ensures Safe(Daemon(At(k), d.log))
  {
    hide Before;
    KeyOrder();
  }

  lemma AttemptKeepsSafe(d: Daemon, k: Key)
    requires Safe(d) && d.file == At(k) && RoundBefore(d.log, k)
    ensures Safe(Daemon(At(k), d.log + [Attempt(k)]))
  {
    hide Before, OneRound, Current;
    var longer := d.log + [Attempt(k)];
    forall i: nat, j: nat | i < j < |longer| && OneRound(longer, i, j)
      ensures Before(longer[i].key, longer[j].key)
    {
      if j < |d.log| {
        RoundsOfLonger(d.log, Attempt(k), i, j);
      } else {
        EndsCurrent(longer, i);
        RoundsOfLonger(d.log, Attempt(k), i, i);
      }
    }
    forall l, i: nat | Before(k, l) && i < |longer| && Current(longer, i)
      ensures Before(longer[i].key, l)
    {
      if i < |d.log| {
        RoundsOfLonger(d.log, Attempt(k), i, i);
        assert RoundBefore(d.log, l);
      }
    }
  }

  lemma EndsCurrent(log: seq<Event>, i: nat)
    requires i < |log| && OneRound(log, i, |log| - 1)
    ensures Current(log, i)
  {
  }

  lemma {:induction false} WorkKeepsSafe(d: Daemon, rows: seq<Key>, life: nat)
    requires Safe(d) && Increasing(rows) && (rows != [] ==> RoundBefore(d.log, rows[0]))
    ensures Safe(Work(d, rows, life))
    decreases |rows|
  {
    hide Before, RoundBefore, ForwardInRounds;
    if rows != [] && life > 0 {
      SaveKeepsSafe(d, rows[0]);
      if life > 1 {
        var saved := d.(file := At(rows[0]));
        AttemptKeepsSafe(saved, rows[0]);
        assert forall i, j :: 0 <= i < j < |rows[1..]| ==> Before(rows[1..][i], rows[1..][j]);
        assert |rows| > 1 ==> Before(rows[0], rows[1]);
        WorkKeepsSafe(saved.(log := saved.log + [Attempt(rows[0])]), rows[1..], life - 2);
      }
    }
  }

  lemma ClassifyKeepsSafe(d: Daemon, pending: set<Key>, n: nat, readable: bool, life: nat)
    requires Safe(d)
    ensures Safe(Classify(d, pending, n, readable, life))
  {
    hide Before, RoundBefore, ForwardInRounds;
    var c := Loaded(d.file, readable);
    var rows := Rows(pending, c, n);
    RowsAreFirst(pending, c, n);
    RowsAreFirst(pending, Start, n);
    if n == 0 {
    } else if c != Start && rows == [] {
      RewindKeepsSafe(d.log, Start);
      if life > 0 {
        WorkKeepsSafe(Daemon(Start, d.log + [Rewind]), Rows(pending, Start, n), life - 1);
      }
    } else if c == Start {
      RewindKeepsSafe(d.log, d.file);
      WorkKeepsSafe(d.(log := d.log + [Rewind]), rows, life);
    } else {
      assert rows[0] in KeySet(rows);
      WorkKeepsSafe(d, rows, life);
    }
  }

  /** One scan of any run: the queue it sees, whether it can read the cursor file,
      and after how many actions it is cut short. */
  datatype Scan = Scan(pending: set<Key>, n: nat, readable: bool, life: nat)

  function RunScans(file: Cursor, scans: seq<Scan>): Daemon {
    if scans == [] then Daemon(file, [])
    else
      var last := scans[|scans| - 1];
      Classify(RunScans(file, scans[..|scans| - 1]), last.pending, last.n, last.readable, last.life)
  }

  lemma {:induction false} RunIsSafe(file: Cursor, scans: seq<Scan>)
    ensures Safe(RunScans(file, scans))
  {
    if scans != [] {
      var last := scans[|scans| - 1];
      RunIsSafe(file, scans[..|scans| - 1]);
      ClassifyKeepsSafe(RunScans(file, scans[..|scans| - 1]), last.pending, last.n, last.readable, last.life);
    }
  }

  lemma NotBeforeItself(k: Key)
    ensures !Before(k, k)
  {
    KeyOrder();
  }

  lemma ForwardIsOnce(log: seq<Event>, i: nat, j: nat)
    requires ForwardInRounds(log) && i < j < |log| && log[i].Attempt? && log[j] == log[i]
    ensures exists r :: i < r < j && log[r] == Rewind
  {
    hide Before;
    NotBeforeItself(log[i].key);
    if OneRound(log, i, j) {
      assert false;
    }
  }

  /** Whatever the queue does between scans and wherever scans are cut short, a row
      that is attempted twice was attempted in two different rounds. */
  lemma NoRowTwiceInARound(file: Cursor, scans: seq<Scan>, i: nat, j: nat)
    requires i < j < |RunScans(file, scans).log|
    requires RunScans(file, scans).log[i].Attempt? && RunScans(file, scans).log[j] == RunScans(file, scans).log[i]
    ensures exists r :: i < r < j && RunScans(file, scans).log[r] == Rewind
  {
    hide RunScans, Before, ForwardInRounds;
    RunIsSafe(file, scans);
    ForwardIsOnce(RunScans(file, scans).log, i, j);
  }

  // ----------------------------------------------------------------- fairness

  /** The cursor that each scan of a run starts from. Later scans may find a key
      that does not load; `CursorHolds` shows when that makes no difference. */
  function Moments(file: Cursor, scans: seq<Scan>): (m: seq<Moment>)
    ensures |m| == |scans|
  {
    seq(|scans|, i requires 0 <= i < |scans| =>
      Moment(scans[i].pending, if i == 0 then Loaded(file, true) else RunScans(file, scans[..i]).file))
  }

  lemma RunStep(file: Cursor, scans: seq<Scan>, i: nat)
    requires i < |scans|
    ensures RunScans(file, scans[..i + 1])
         == Classify(RunScans(file, scans[..i]), scans[i].pending, scans[i].n, scans[i].readable, scans[i].life)
  {
    assert scans[..i + 1][..i] == scans[..i];
  }

  lemma {:induction false} LogGrows(file: Cursor, scans: seq<Scan>, i: nat, e: Event)
    requires i <= |scans| && e in RunScans(file, scans[..i]).log
    ensures e in RunScans(file, scans).log
    decreases |scans| - i
  {
    if i < |scans| {
      hide RunScans, Classify;
      RunStep(file, scans, i);
      ClassifyGrows(RunScans(file, scans[..i]), scans[i].pending, scans[i].n, scans[i].readable, scans[i].life, e);
      LogGrows(file, scans, i + 1, e);
    } else {
      assert scans[..i] == scans;
    }
  }

  lemma ClassifyGrows(d: Daemon, pending: set<Key>, n: nat, readable: bool, life: nat, e: Event)
    requires e in d.log
    ensures e in Classify(d, pending, n, readable, life).log
  {
    hide Rows;
    var c := Loaded(d.file, readable);
    var rows := Rows(pending, c, n);
    WorkGrows(d, rows, life, e);
    WorkGrows(d.(log := d.log + [Rewind]), rows, life, e);
    WorkGrows(Daemon(Start, d.log + [Rewind]), Rows(pending, Start, n), if life == 0 then 0 else life - 1, e);
  }

  lemma {:induction false} WorkGrows(d: Daemon, rows: seq<Key>, life: nat, e: Event)
    requires e in d.log
    ensures e in Work(d, rows, life).log
    decreases |rows|
  {
    if rows != [] && life >= 2 {
      WorkGrows(Daemon(At(rows[0]), d.log + [Attempt(rows[0])]), rows[1..], life - 2, e);
    }
  }

  /** Uninterrupted scans whose queue, within `queue`, only loses rows and keeps `x`:
      one scan more than the batches that `queue` fills. */
  ghost predicate Undisturbed(scans: seq<Scan>, queue: set<Key>, n: nat, x: Key)
    requires n > 0
  {
    && |scans| >= Batches(|queue|, n) + 1
    && (forall i :: 0 <= i < |scans| ==>
          && scans[i].n == n && scans[i].readable && scans[i].life >= 2 * n + 1
          && x in scans[i].pending && scans[i].pending <= queue)
    && forall i :: 0 <= i < |scans| - 1 ==> scans[i + 1].pending <= scans[i].pending
  }

  function Below(queue: set<Key>, k: Key): set<Key> {
    set l | l in queue && Before(l, k)
  }

  const SPACES := [
    '\t', '\n', '\U{000B}', '\U{000C}', '\r', '\U{001C}', '\U{001D}', '\U{001E}', '\U{001F}', ' ', '\U{0085}', '\U{00A0}',
    '\U{1680}', '\U{2000}', '\U{2001}', '\U{2002}', '\U{2003}', '\U{2004}', '\U{2005}', '\U{2006}', '\U{2007}', '\U{2008}',
    '\U{2009}', '\U{200A}', '\U{2028}', '\U{2029}', '\U{202F}', '\U{205F}', '\U{3000}']

  /** Nothing but white space. */
  ghost predicate OnlySpaces(s: string) {
    forall i :: 0 <= i < |s| ==> s[i] in SPACES
  }

  lemma LoadsMeans(k: Key)
    ensures Loads(k) <==> !OnlySpaces(k.createdAt) && !OnlySpaces(k.id)
  {
    forall c: char
      ensures IsSpace(c) <==> c in SPACES
    {
      SpaceMeans(c);
    }
  }

  lemma SpaceMeans(c: char)
    ensures IsSpace(c) <==> c in SPACES
  {
    if '\U{2000}' <= c <= '\U{200A}' {
      assert SPACES[13 + (c as int - 0x2000)] == c;
    }
  }

  /** A saved `k` is lost at loading while a full batch can end with it and rows
      can come after it. */
  ghost predicate Traps(k: Key, queue: set<Key>, n: nat) {
    k in queue && (OnlySpaces(k.createdAt) || OnlySpaces(k.id)) && |Below(queue, k)| + 1 >= n && Above(queue, At(k)) != {}
  }

  /** Unless the last row of a batch is a trap, losing it selects the same batch next. */
  lemma CursorHolds(queue: set<Key>, pending: set<Key>, c: Cursor, n: nat, later: set<Key>)
    requires n > 0 && later <= pending <= queue && Batch(pending, c, n) != []
    requires !Traps(Batch(pending, c, n)[|Batch(pending, c, n)| - 1], queue, n)
    ensures var next := NextCursor(Batch(pending, c, n), n, false);
            Batch(later, Loaded(next, true), n) == Batch(later, next, n)
  {
    hide Before, Rows, Loads, OnlySpaces;
    var rows := Batch(pending, c, n);
    LoadsMeans(rows[|rows| - 1]);
    var from := if Rows(pending, c, n) == [] then Start else c;
    var k := rows[|rows| - 1];
    RowsAreFirst(pending, from, n);
    assert k in KeySet(rows);
    if !Loads(k) && Above(later, At(k)) != {} {
      LastOfFull(queue, pending, from, n, rows);
    }
    if !Loads(k) {
      RowsAreFirst(later, At(k), n);
      NothingSelected(Rows(later, At(k), n));
    }
  }

  lemma NothingSelected(rows: seq<Key>)
    requires KeySet(rows) == {}
    ensures rows == []
  {
    assert forall r :: r in rows ==> r in KeySet(rows);
    Collections.NothingIn(rows);
  }

  /** If rows come after a batch, it is full, and its other rows are before its last. */
  lemma LastOfFull(queue: set<Key>, pending: set<Key>, c: Cursor, n: nat, rows: seq<Key>)
    requires n > 0 && pending <= queue && FirstRows(rows, pending, c, n) && rows != []
    requires Above(pending, At(rows[|rows| - 1])) != {}
    ensures |Below(queue, rows[|rows| - 1])| + 1 >= n
  {
    hide Before;
    KeyOrder();
    IncreasingIsDistinct(rows);
    var k := rows[|rows| - 1];
    var y :| y in Above(pending, At(k));
    assert k in KeySet(rows);
    assert y in Above(pending, c) && y !in KeySet(rows);
    Collections.SubsetSize(KeySet(rows) - {k}, Below(queue, k));
  }

  /** Fairness of the classifier: without a trap in the queue, a row that stays
      pending is attempted, wherever the saved cursor was. */
  lemma ClassifierIsFair(file: Cursor, scans: seq<Scan>, queue: set<Key>, n: nat, x: Key)
    requires n > 0 && Undisturbed(scans, queue, n, x)
    requires forall k :: !Traps(k, queue, n)
    ensures Attempt(x) in RunScans(file, scans).log
  {
    hide RunScans, Classify, NextCursor, Batches, Rows, Loaded, Before, Traps;
    var m := Moments(file, scans);
    forall i | 0 <= i < |m|
      ensures Batch(m[i].pending, m[i].cursor, n) == Batch(m[i].pending, Loaded(RunScans(file, scans[..i]).file, true), n)
      ensures i > 0 ==> m[i].cursor == NextCursor(Batch(m[i - 1].pending, m[i - 1].cursor, n), n, false)
    {
      MomentsFollow(file, scans, queue, n, x, i);
    }
    Collections.SubsetSize(scans[0].pending, queue);
    BatchesMonotone(|scans[0].pending|, |queue|, n);
    assert Scans(m, n, false) by {
      forall i | 0 <= i < |m| - 1
        ensures m[i + 1].cursor == NextCursor(Batch(m[i].pending, m[i].cursor, n), n, false)
      {
        assert m[i + 1].cursor == NextCursor(Batch(m[i + 1 - 1].pending, m[i + 1 - 1].cursor, n), n, false);
      }
    }
    EveryRowIsAttempted(m, n, false, x);
    var i :| 0 <= i < |m| && x in Batch(m[i].pending, m[i].cursor, n);
    ScanAttempts(RunScans(file, scans[..i]), scans[i], x);
    RunStep(file, scans, i);
    LogGrows(file, scans, i + 1, Attempt(x));
  }

  lemma ScanAttempts(d: Daemon, scan: Scan, x: Key)
    requires scan.n > 0 && scan.readable && scan.life >= 2 * scan.n + 1
    requires x in Batch(scan.pending, Loaded(d.file, true), scan.n)
    ensures Attempt(x) in Classify(d, scan.pending, scan.n, scan.readable, scan.life).log
  {
    hide Classify, Batch, Loaded, Rows;
    var rows := Batch(scan.pending, Loaded(d.file, true), scan.n);
    UninterruptedScan(d, scan.pending, scan.n, scan.life);
    var j :| 0 <= j < |rows| && rows[j] == x;
    assert Attempts(rows)[j] == Attempt(x);
  }

  lemma {:induction false} MomentsFollow(file: Cursor, scans: seq<Scan>, queue: set<Key>, n: nat, x: Key, i: nat)
    requires n > 0 && Undisturbed(scans, queue, n, x) && i < |scans|
    requires forall k :: !Traps(k, queue, n)
    ensures var m := Moments(file, scans);
            && Batch(m[i].pending, m[i].cursor, n) == Batch(m[i].pending, Loaded(RunScans(file, scans[..i]).file, true), n)
            && (i > 0 ==> m[i].cursor == NextCursor(Batch(m[i - 1].pending, m[i - 1].cursor, n), n, false))
  {
    hide Classify, NextCursor, Batches, Rows, Loaded, Before, Traps, Batch;
    if i > 0 {
      var m := Moments(file, scans);
      var d := RunScans(file, scans[..i - 1]);
      MomentsFollow(file, scans, queue, n, x, i - 1);
      RunStep(file, scans, i - 1);
      UninterruptedScan(d, scans[i - 1].pending, n, scans[i - 1].life);
      SomethingSelected(scans[i - 1].pending, m[i - 1].cursor, n, x);
      CursorHolds(queue, scans[i - 1].pending, m[i - 1].cursor, n, scans[i].pending);
    }
  }

  lemma SomethingSelected(pending: set<Key>, c: Cursor, n: nat, x: Key)
    requires n > 0 && x in pending
    ensures Batch(pending, c, n) != []
  {
    hide Before, Rows;
    RowsAreFirst(pending, Start, n);
    assert x in Above(pending, Start);
  }

  /** A trap starves: `n` rows that end with it, and one more row, for ever. */
  lemma {:induction false} TrapStarves(k: Key, queue: set<Key>, n: nat, scans: seq<Scan>, x: Key, few: set<Key>)
    requires n > 0 && !Loads(k) && few <= Below(queue, k) && |few| == n - 1 && Before(k, x)
    requires forall i :: 0 <= i < |scans| ==> scans[i] == Scan(few + {k, x}, n, true, 2 * n + 1)
    ensures Attempt(x) !in RunScans(Start, scans).log
    ensures RunScans(Start, scans).file in {Start, At(k)}
  {
    hide Before, Rows, Loads, Classify, Above;
    if scans != [] {
      var rest := scans[..|scans| - 1];
      var d := RunScans(Start, rest);
      TrapStarves(k, queue, n, rest, x, few);
      var rows := Batch(few + {k, x}, Start, n);
      FewFillTheBatch(k, queue, n, x, few);
      UninterruptedScan(d, few + {k, x}, n, 2 * n + 1);
      assert Attempt(x) !in Attempts(rows);
    }
  }

  lemma FewFillTheBatch(k: Key, queue: set<Key>, n: nat, x: Key, few: set<Key>)
    requires n > 0 && few <= Below(queue, k) && |few| == n - 1 && Before(k, x)
    ensures var rows := Batch(few + {k, x}, Start, n);
            |rows| == n && rows[n - 1] == k && x !in rows
  {
    hide Before, Rows, FirstRows;
    RowsAreFirst(few + {k, x}, Start, n);
    FewAreFirst(Rows(few + {k, x}, Start, n), k, queue, n, x, few);
  }

  lemma FewAreFirst(rows: seq<Key>, k: Key, queue: set<Key>, n: nat, x: Key, few: set<Key>)
    requires few <= Below(queue, k) && |few| == n - 1 && Before(k, x) && FirstRows(rows, few + {k, x}, Start, n)
    ensures |rows| == n && rows[n - 1] == k && x !in rows
  {
    hide Before;
    KeyOrder();
    IncreasingIsDistinct(rows);
    assert Above(few + {k, x}, Start) == few + {k, x};
    assert |few + {k}| == n;
    if x in KeySet(rows) {
      Collections.SubsetSize(few + {k} + {x}, KeySet(rows));
      assert false;
    }
    Collections.SameSize(KeySet(rows), few + {k});
    LargestIsLast(rows, k);
  }

  lemma LargestIsLast(rows: seq<Key>, k: Key)
    requires Increasing(rows) && k in KeySet(rows) && forall l :: l in KeySet(rows) && l != k ==> Before(l, k)
    ensures rows[|rows| - 1] == k
  {
    hide Before;
    KeyOrder();
    var i :| 0 <= i < |rows| && rows[i] == k;
    assert rows[|rows| - 1] in KeySet(rows);
  }

  lemma TrapIsUnfair(k: Key, queue: set<Key>, n: nat)
    requires n > 0 && Traps(k, queue, n)
    ensures exists scans, x :: Undisturbed(scans, queue, n, x) && Attempt(x) !in RunScans(Start, scans).log
  {
    hide RunScans, Before, Batches, Loads, OnlySpaces;
    LoadsMeans(k);
    var x :| x in Above(queue, At(k));
    var few := Collections.SubsetOfSize(Below(queue, k), n - 1);
    var scans := seq(Batches(|queue|, n) + 1, i => Scan(few + {k, x}, n, true, 2 * n + 1));
    TrapStarves(k, queue, n, scans, x, few);
    assert few + {k, x} <= queue;
    assert Undisturbed(scans, queue, n, x);
  }

  /** The classifier is fair on a queue if and only if the queue holds no trap. */
  lemma FairIffNoTrap(queue: set<Key>, n: nat)
    requires n > 0
    ensures (forall file, scans, x :: Undisturbed(scans, queue, n, x) ==> Attempt(x) in RunScans(file, scans).log)
       <==> (forall k :: !Traps(k, queue, n))
  {
    hide Undisturbed, RunScans, Before, Traps;
    if forall k :: !Traps(k, queue, n) {
      forall file, scans, x | Undisturbed(scans, queue, n, x)
        ensures Attempt(x) in RunScans(file, scans).log
      {
        ClassifierIsFair(file, scans, queue, n, x);
      }
    } else {
      var k :| Traps(k, queue, n);
      TrapIsUnfair(k, queue, n);
    }
  }

  // ----------------------------------------------------------- category scan

  const CATEGORY_BATCH: nat := 5

  /** What one scan finds of a project: how many "other" rows it has, and the
      identifiers of the untouched ones. */
  datatype Sweep = Sweep(others: nat, stale: set<string>)

  /** This scan orders by identifier alone. */
  function Position(id: string): Key {
    Key("", id)
  }

  function Positions(ids: set<string>): set<Key> {
    set id | id in ids :: Position(id)
  }

  /** The rows that a scan tries to reclassify, and where it leaves the cursor. */
  function Tried(c: Cursor, sweep: Sweep): seq<Key> {
    if sweep.others <= 20 then [] else Batch(Positions(sweep.stale), c, CATEGORY_BATCH)
  }

  function Swept(c: Cursor, sweep: Sweep): Cursor {
    if sweep.others <= 20 then c else NextCursor(Tried(c, sweep), CATEGORY_BATCH, true)
  }

  class CategoryScanner {
    var cursors: map<string, string>

    ghost function CursorOf(project: string): Cursor
      reads this
    {
      if project in cursors then At(Position(cursors[project])) else Start
    }

    constructor ()
      ensures cursors == map[]
    {
      cursors := map[];
    }

    /** `scan_category_stuck` for one project. */
    method Scan(project: string, sweep: Sweep) returns (attempted: seq<string>)
      modifies this
      ensures sweep.others <= 20 ==> unchanged(this)
      ensures |attempted| == |Tried(old(CursorOf(project)), sweep)|
      ensures forall i :: 0 <= i < |attempted| ==> Position(attempted[i]) == Tried(old(CursorOf(project)), sweep)[i]
      ensures CursorOf(project) == Swept(old(CursorOf(project)), sweep)
      ensures forall p :: p != project ==> CursorOf(p) == old(CursorOf(p))
    {
      hide Rows, Before, Above, Increasing, Positions;
      attempted := [];
      if sweep.others <= 20 {
        return;
      }
      var stale := Positions(sweep.stale);
      var cursor := if project in cursors then At(Position(cursors[project])) else Start;
      var rows := Rows(stale, cursor, CATEGORY_BATCH);
      if rows == [] && cursor != Start {
        cursors := cursors - {project};
        rows := Rows(stale, Start, CATEGORY_BATCH);
      }
      RowsArePositions(sweep.stale, cursor, rows);
      for i := 0 to |rows|
        invariant |attempted| == i && forall j :: 0 <= j < i ==> Position(attempted[j]) == rows[j]
      {
        attempted := attempted + [rows[i].id];
      }
      if rows != [] && |rows| == CATEGORY_BATCH {
        cursors := cursors[project := rows[|rows| - 1].id];
      } else {
        cursors := cursors - {project};
      }
    }
  }

  lemma RowsArePositions(ids: set<string>, c: Cursor, rows: seq<Key>)
    requires rows == Rows(Positions(ids), c, CATEGORY_BATCH) || rows == Rows(Positions(ids), Start, CATEGORY_BATCH)
    ensures |rows| <= CATEGORY_BATCH && forall i :: 0 <= i < |rows| ==> rows[i] == Position(rows[i].id)
  {
    hide Before;
    RowsAreFirst(Positions(ids), c, CATEGORY_BATCH);
    RowsAreFirst(Positions(ids), Start, CATEGORY_BATCH);
    assert forall i :: 0 <= i < |rows| ==> rows[i] in KeySet(rows);
  }

  /** The selection is the first identifiers past the cursor in the order of texts. */
  lemma PositionsAreOrdered(a: string, b: string)
    ensures Before(Position(a), Position(b)) <==> TextOrder.Before(a, b)
  {
    TextOrder.Order();
  }

  lemma {:induction false} PositionsSize(ids: set<string>)
    ensures |Positions(ids)| == |ids|
  {
    if ids != {} {
      var id :| id in ids;
      PositionsSize(ids - {id});
      assert Positions(ids) == Positions(ids - {id}) + {Position(id)};
    }
  }

  /** The cursor of a project after some of its scans. */
  function RunSweeps(c: Cursor, sweeps: seq<Sweep>): Cursor {
    if sweeps == [] then c
    else Swept(RunSweeps(c, sweeps[..|sweeps| - 1]), sweeps[|sweeps| - 1])
  }

  lemma SweepStep(c: Cursor, sweeps: seq<Sweep>, i: nat)
    requires i < |sweeps|
    ensures RunSweeps(c, sweeps[..i + 1]) == Swept(RunSweeps(c, sweeps[..i]), sweeps[i])
  {
    assert sweeps[..i + 1][..i] == sweeps[..i];
  }

  /** Over scans that find more than 20 "other" rows, while no row becomes stale, a
      row that stays stale is tried within one scan more than the batches that the
      stale rows fill. */
  lemma CategoryIsFair(c: Cursor, sweeps: seq<Sweep>, id: string)
    requires sweeps != [] && |sweeps| >= Batches(|sweeps[0].stale|, CATEGORY_BATCH) + 1
    requires forall i :: 0 <= i < |sweeps| ==> sweeps[i].others > 20 && id in sweeps[i].stale
    requires forall i :: 0 <= i < |sweeps| - 1 ==> sweeps[i + 1].stale <= sweeps[i].stale
    ensures exists i :: 0 <= i < |sweeps| && Position(id) in Tried(RunSweeps(c, sweeps[..i]), sweeps[i])
  {
    hide Batch, NextCursor, Batches, RunSweeps;
    var m := seq(|sweeps|, i requires 0 <= i < |sweeps| => Moment(Positions(sweeps[i].stale), RunSweeps(c, sweeps[..i])));
    forall i | 0 <= i < |m| - 1
      ensures m[i + 1].cursor == NextCursor(Batch(m[i].pending, m[i].cursor, CATEGORY_BATCH), CATEGORY_BATCH, true)
    {
      SweepStep(c, sweeps, i);
    }
    PositionsSize(sweeps[0].stale);
    EveryRowIsAttempted(m, CATEGORY_BATCH, true, Position(id));
    var i :| 0 <= i < |m| && Position(id) in Batch(m[i].pending, m[i].cursor, CATEGORY_BATCH);
    assert Position(id) in Tried(RunSweeps(c, sweeps[..i]), sweeps[i]);
  }
}
