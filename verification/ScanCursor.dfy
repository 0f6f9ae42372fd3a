/** Keyset cursors of the maintenance scanners: batches of rows in key order, a
    wrap to the start when nothing is left, and how long a row can wait. */
module ScanCursor {
  import Collections
  import TextOrder

  /** The position of a row: its creation time, then its identifier. */
  datatype Key = Key(createdAt: string, id: string)

  datatype Cursor = Start | At(key: Key)

  predicate Before(a: Key, b: Key) {
    TextOrder.Before(a.createdAt, b.createdAt) || (a.createdAt == b.createdAt && TextOrder.Before(a.id, b.id))
  }

  predicate Past(c: Cursor, k: Key) {
    c.Start? || Before(c.key, k)
  }

  /** `created_at > ? OR (created_at = ? AND id > ?)`. */
  lemma PastMeans(c: Cursor, k: Key)
    ensures Past(c, k) <==>
              || c.Start?
              || TextOrder.Lexicographic(c.key.createdAt, k.createdAt)
              || (c.key.createdAt == k.createdAt && TextOrder.Lexicographic(c.key.id, k.id))
  {
    if c.At? {
      TextOrder.BeforeIsLexicographic(c.key.createdAt, k.createdAt);
      TextOrder.BeforeIsLexicographic(c.key.id, k.id);
    }
  }

  lemma KeyOrder()
    ensures forall a :: !Before(a, a)
    ensures forall a, b, c :: Before(a, b) && Before(b, c) ==> Before(a, c)
    ensures forall a, b :: a == b || Before(a, b) || Before(b, a)
  {
    hide TextOrder.Before;
    TextOrder.Order();
  }

  // -------------------------------------------------------------- selecting

  function Above(pending: set<Key>, c: Cursor): set<Key> {
    set k | k in pending && Past(c, k)
  }

  lemma {:induction false} LeastExists(s: set<Key>)
    requires s != {}
    ensures exists k :: IsLeast(k, s)
    decreases |s|
  {
    hide Before;
    KeyOrder();
    var k :| k in s;
    if s == {k} {
      assert IsLeast(k, s);
    } else {
      var rest := s - {k};
      LeastExists(rest);
      var l :| IsLeast(l, rest);
      assert IsLeast(if Before(k, l) then k else l, s);
    }
  }

  predicate IsLeast(k: Key, s: set<Key>) {
    k in s && forall l :: l in s && l != k ==> Before(k, l)
  }

  function Least(s: set<Key>): (k: Key)
    requires s != {}
    ensures IsLeast(k, s)
  {
    LeastExists(s);
    KeyOrder();
    var k :| IsLeast(k, s);
    k
  }

  /** `SELECT ... AND key > cursor ORDER BY key LIMIT n`. */
  function Rows(pending: set<Key>, c: Cursor, n: nat): seq<Key>
    decreases n
  {
    if n == 0 || Above(pending, c) == {} then []
    else
      var k := Least(Above(pending, c));
      [k] + Rows(pending, At(k), n - 1)
  }

  function KeySet(rows: seq<Key>): set<Key> {
    set k | k in rows
  }

  ghost predicate Increasing(rows: seq<Key>) {
    forall i, j :: 0 <= i < j < |rows| ==> Before(rows[i], rows[j])
  }

  /** `rows` are the first `n` keys past the cursor: in order, and leaving out only
      later keys, and those only when there are `n` rows. */
  ghost predicate FirstRows(rows: seq<Key>, pending: set<Key>, c: Cursor, n: nat) {
    && Increasing(rows) && |rows| <= n
    && KeySet(rows) <= Above(pending, c)
    && (|rows| < n ==> Above(pending, c) <= KeySet(rows))
    && forall k, r :: k in Above(pending, c) && k !in KeySet(rows) && r in KeySet(rows) ==> Before(r, k)
  }

  lemma PrependLeast(k: Key, rest: seq<Key>, pending: set<Key>, c: Cursor, n: nat)
    requires n > 0 && IsLeast(k, Above(pending, c)) && FirstRows(rest, pending, At(k), n - 1)
    ensures FirstRows([k] + rest, pending, c, n)
  {
    hide Before;
    KeyOrder();
    assert KeySet([k] + rest) == {k} + KeySet(rest) by {
      assert forall r :: r in [k] + rest <==> r == k || r in rest;
    }
    assert Above(pending, c) == {k} + Above(pending, At(k));
    assert forall r :: r in rest ==> r in KeySet(rest) && Before(k, r);
  }

  /** The query selects the first `n` keys past the cursor. */
  lemma {:induction false} RowsAreFirst(pending: set<Key>, c: Cursor, n: nat)
    ensures FirstRows(Rows(pending, c, n), pending, c, n)
    decreases n
  {
    hide FirstRows, Before, IsLeast;
    if n == 0 || Above(pending, c) == {} {
      NoRows(pending, c, n);
    } else {
      var k := Least(Above(pending, c));
      RowsAreFirst(pending, At(k), n - 1);
      PrependLeast(k, Rows(pending, At(k), n - 1), pending, c, n);
    }
  }

  lemma NoRows(pending: set<Key>, c: Cursor, n: nat)
    requires n == 0 || Above(pending, c) == {}
    ensures FirstRows([], pending, c, n)
  {
  }

  lemma {:induction false} IncreasingIsDistinct(rows: seq<Key>)
    requires Increasing(rows)
    ensures |KeySet(rows)| == |rows|
  {
    hide Before;
    KeyOrder();
    if rows != [] {
      var last, rest := rows[|rows| - 1], rows[..|rows| - 1];
      IncreasingIsDistinct(rest);
      assert last !in rest;
      assert KeySet(rows) == KeySet(rest) + {last};
    }
  }

  // --------------------------------------------------------------- one scan

  /** The rows one uninterrupted scan attempts: the next batch, or from the start
      when nothing is left past the cursor. */
  function Batch(pending: set<Key>, c: Cursor, n: nat): seq<Key> {
    var rows := Rows(pending, c, n);
    if rows == [] then Rows(pending, Start, n) else rows
  }

  /** Where the scan leaves the cursor. The category scan also resets it after a
      batch that was not full. */
  function NextCursor(rows: seq<Key>, n: nat, resets: bool): Cursor {
    if rows == [] || (resets && |rows| < n) then Start else At(rows[|rows| - 1])
  }

  /** How many batches of `n` it takes for `a` rows. */
  function Batches(a: nat, n: nat): nat
    requires n > 0
  {
    if a == 0 then 0 else if a <= n then 1 else 1 + Batches(a - n, n)
  }

  function UpTo(pending: set<Key>, c: Cursor, x: Key): set<Key> {
    set k | k in pending && Past(c, k) && (k == x || Before(k, x))
  }

  /** How many more scans it takes at most until `x` is attempted. */
  function Wait(pending: set<Key>, c: Cursor, x: Key, n: nat): nat
    requires n > 0
  {
    if Past(c, x) then Batches(|UpTo(pending, c, x)|, n)
    else Batches(|Above(pending, c)|, n) + Batches(|UpTo(pending, Start, x)|, n)
  }

  /** `Batches` is division rounded up. */
  lemma {:induction false} BatchesIsCeiling(a: nat, n: nat)
    requires n > 0
    ensures a <= Batches(a, n) * n < a + n
  {
    if a > n {
      BatchesIsCeiling(a - n, n);
      assert Batches(a, n) * n == Batches(a - n, n) * n + n;
    }
  }

  lemma {:induction false} BatchesMonotone(a: nat, b: nat, n: nat)
    requires n > 0 && a <= b
    ensures Batches(a, n) <= Batches(b, n)
  {
    if a > n {
      BatchesMonotone(a - n, b - n, n);
    }
  }

  lemma BatchesLess(a: nat, b: nat, n: nat)
    requires n > 0 && a + n <= b
    ensures Batches(a, n) + 1 <= Batches(b, n)
  {
    BatchesMonotone(a, b - n, n);
  }

  lemma {:induction false} BatchesSum(a: nat, b: nat, n: nat)
    requires n > 0
    ensures Batches(a, n) + Batches(b, n) <= Batches(a + b, n) + 1
  {
    if a > n {
      BatchesSum(a - n, b, n);
    } else {
      BatchesMonotone(b, a + b, n);
    }
  }

  // --------------------------------------------------------------- fairness

  /** A full batch taken out of `old` leaves room for one batch less. */
  lemma BatchTaken(rows: seq<Key>, was: set<Key>, now: set<Key>, n: nat)
    requires n > 0 && |KeySet(rows)| == |rows| == n
    requires KeySet(rows) <= was && now <= was && KeySet(rows) !! now
    ensures Batches(|now|, n) + 1 <= Batches(|was|, n)
  {
    Collections.SubsetSize(now + KeySet(rows), was);
    BatchesLess(|now|, |was|, n);
  }

  /** A batch without `x`, selected where `x` was still to come, is full, and the
      cursor moves up to its last row, still before `x`. */
  lemma BatchBeforeX(pending: set<Key>, c: Cursor, x: Key, n: nat, rows: seq<Key>, later: set<Key>)
    requires n > 0 && x in Above(pending, c) && later <= pending
    requires rows == Rows(pending, c, n) && x !in rows
    ensures |rows| == n && Past(At(rows[n - 1]), x)
    ensures Batches(|UpTo(later, At(rows[n - 1]), x)|, n) + 1 <= Batches(|UpTo(pending, c, x)|, n)
  {
    hide Before;
    RowsAreFirst(pending, c, n);
    IncreasingIsDistinct(rows);
    KeyOrder();
    var last := rows[n - 1];
    assert x !in KeySet(rows) && last in KeySet(rows);
    assert UpTo(later, At(last), x) !! KeySet(rows);
    BatchTaken(rows, UpTo(pending, c, x), UpTo(later, At(last), x), n);
  }

  /** A batch selected past `x` uses up one batch of the rows that are left there. */
  lemma BatchAfterX(pending: set<Key>, c: Cursor, n: nat, rows: seq<Key>, later: set<Key>)
    requires n > 0 && later <= pending && rows == Rows(pending, c, n) && rows != []
    ensures Batches(|Above(later, At(rows[|rows| - 1]))|, n) + 1 <= Batches(|Above(pending, c)|, n)
    ensures |rows| < n ==> Above(later, At(rows[|rows| - 1])) == {}
  {
    hide Before;
    RowsAreFirst(pending, c, n);
    IncreasingIsDistinct(rows);
    KeyOrder();
    var last := rows[|rows| - 1];
    assert last in KeySet(rows);
    assert Above(later, At(last)) !! KeySet(rows) && Above(later, At(last)) <= Above(pending, c);
    if |rows| == n {
      BatchTaken(rows, Above(pending, c), Above(later, At(last)), n);
    }
  }

  lemma PastLast(pending: set<Key>, c: Cursor, x: Key, n: nat, rows: seq<Key>)
    requires n > 0 && !Past(c, x) && rows == Rows(pending, c, n) && rows != []
    ensures !Past(At(rows[|rows| - 1]), x)
  {
    hide Before;
    RowsAreFirst(pending, c, n);
    KeyOrder();
    assert rows[|rows| - 1] in KeySet(rows);
  }

  lemma UpToShrinks(pending: set<Key>, x: Key, n: nat, later: set<Key>)
    requires n > 0 && later <= pending
    ensures Batches(|UpTo(later, Start, x)|, n) <= Batches(|UpTo(pending, Start, x)|, n)
  {
    Collections.SubsetSize(UpTo(later, Start, x), UpTo(pending, Start, x));
    BatchesMonotone(|UpTo(later, Start, x)|, |UpTo(pending, Start, x)|, n);
  }

  /** One scan either attempts `x` or brings it at least one batch closer, even
      when other rows leave the queue meanwhile. */
  lemma ScanBringsCloser(pending: set<Key>, c: Cursor, x: Key, n: nat, resets: bool, later: set<Key>)
    requires n > 0 && x in pending && later <= pending
    requires x !in Batch(pending, c, n)
    ensures Wait(later, NextCursor(Batch(pending, c, n), n, resets), x, n) + 1 <= Wait(pending, c, x, n)
  {
    hide Before, Rows, Batches, UpTo;
    var rows := Rows(pending, c, n);
    if Past(c, x) {
      RowsAreFirst(pending, c, n);
      assert x in Above(pending, c);
      assert rows != [];
      BatchBeforeX(pending, c, x, n, rows, later);
    } else if rows != [] {
      BatchAfterX(pending, c, n, rows, later);
      PastLast(pending, c, x, n, rows);
      UpToShrinks(pending, x, n, later);
    } else {
      RowsAreFirst(pending, c, n);
      RowsAreFirst(pending, Start, n);
      var first := Rows(pending, Start, n);
      assert x in Above(pending, Start) && first != [];
      BatchBeforeX(pending, Start, x, n, first, later);
    }
  }

  // A scanner seen only at the moments its scans start.
  datatype Moment = Moment(pending: set<Key>, cursor: Cursor)

  /** Uninterrupted scans one after the other, while no row becomes pending. */
  ghost predicate Scans(moments: seq<Moment>, n: nat, resets: bool) {
    forall i :: 0 <= i < |moments| - 1 ==>
      && moments[i + 1].pending <= moments[i].pending
      && moments[i + 1].cursor == NextCursor(Batch(moments[i].pending, moments[i].cursor, n), n, resets)
  }

  ghost predicate Attempted(moments: seq<Moment>, n: nat, x: Key) {
    exists i :: 0 <= i < |moments| && x in Batch(moments[i].pending, moments[i].cursor, n)
  }

  lemma {:induction false} AttemptedWithinWait(moments: seq<Moment>, n: nat, resets: bool, x: Key)
    requires n > 0 && moments != [] && Scans(moments, n, resets)
    requires forall i :: 0 <= i < |moments| ==> x in moments[i].pending
    requires |moments| >= Wait(moments[0].pending, moments[0].cursor, x, n)
    ensures Attempted(moments, n, x)
    decreases |moments|
  {
    hide Before, Rows, Wait, Batch, NextCursor;
    var m := moments[0];
    if x !in Batch(m.pending, m.cursor, n) {
      var c' := NextCursor(Batch(m.pending, m.cursor, n), n, resets);
      if |moments| == 1 {
        ScanBringsCloser(m.pending, m.cursor, x, n, resets, m.pending);
        WaitIsPositive(m.pending, c', x, n);
      } else {
        ScanBringsCloser(m.pending, m.cursor, x, n, resets, moments[1].pending);
        AttemptedWithinWait(moments[1..], n, resets, x);
        var i :| 0 <= i < |moments[1..]| && x in Batch(moments[1..][i].pending, moments[1..][i].cursor, n);
        assert moments[i + 1] == moments[1..][i];
      }
    }
  }

  lemma WaitIsPositive(pending: set<Key>, c: Cursor, x: Key, n: nat)
    requires n > 0 && x in pending
    ensures Wait(pending, c, x, n) >= 1
  {
    hide Before;
    assert Past(c, x) ==> x in UpTo(pending, c, x);
    assert x in UpTo(pending, Start, x);
  }

  lemma WaitIsBounded(pending: set<Key>, c: Cursor, x: Key, n: nat)
    requires n > 0
    ensures Wait(pending, c, x, n) <= Batches(|pending|, n) + 1
  {
    hide Before, Batches, Above, Past;
    if Past(c, x) {
      Collections.SubsetSize(UpTo(pending, c, x), pending);
      BatchesMonotone(|UpTo(pending, c, x)|, |pending|, n);
    } else {
      AboveAndBelow(pending, c, x);
      var above, below := Above(pending, c), UpTo(pending, Start, x);
      assert |above + below| == |above| + |below|;
      Collections.SubsetSize(above + below, pending);
      BatchesSum(|above|, |below|, n);
      BatchesMonotone(|above| + |below|, |pending|, n);
    }
  }

  lemma AboveAndBelow(pending: set<Key>, c: Cursor, x: Key)
    requires !Past(c, x)
    ensures Above(pending, c) !! UpTo(pending, Start, x)
    ensures Above(pending, c) + UpTo(pending, Start, x) <= pending
  {
    hide Before;
    KeyOrder();
  }

  /** Fairness of both scanners, from any cursor: a row that stays pending while no
      row becomes pending is attempted within one scan more than the batches
      that the queue fills. */
  lemma EveryRowIsAttempted(moments: seq<Moment>, n: nat, resets: bool, x: Key)
    requires n > 0 && moments != [] && Scans(moments, n, resets)
    requires forall i :: 0 <= i < |moments| ==> x in moments[i].pending
    requires |moments| >= Batches(|moments[0].pending|, n) + 1
    ensures Attempted(moments, n, x)
  {
    hide Before;
    WaitIsBounded(moments[0].pending, moments[0].cursor, x, n);
    AttemptedWithinWait(moments, n, resets, x);
  }
}
