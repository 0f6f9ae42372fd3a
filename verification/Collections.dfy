/** Facts about sets and sequences that several modules need. */
module Collections {

  lemma {:induction false} SubsetSize<T>(a: set<T>, b: set<T>)
    requires a <= b
    ensures |a| <= |b|
  {
    if a != {} {
      var x :| x in a;
      SubsetSize(a - {x}, b - {x});
    }
  }

  lemma SameSize<T>(a: set<T>, b: set<T>)
    requires a <= b && |a| == |b|
    ensures a == b
  {
    if x :| x in b && x !in a {
      SubsetSize(a, b - {x});
    }
  }

  ghost function SubsetOfSize<T>(s: set<T>, n: nat): (t: set<T>)
    requires n <= |s|
    ensures t <= s && |t| == n
    decreases |s|
  {
    if |s| == n then s
    else
      var x :| x in s;
      SubsetOfSize(s - {x}, n)
  }

  lemma NothingIn<T>(s: seq<T>)
    ensures (forall x :: x !in s) ==> s == []
  {
    if s != [] {
      assert s[0] in s;
    }
  }

  /** Each element comes before the later ones. */
  ghost predicate OrderedBy<T>(before: (T, T) -> bool, s: seq<T>) {
    forall i, j :: 0 <= i < j < |s| ==> before(s[i], s[j])
  }

  ghost predicate Asymmetric<T(!new)>(before: (T, T) -> bool) {
    forall x, y :: before(x, y) ==> !before(y, x)
  }

  lemma OrderedTail<T(!new)>(before: (T, T) -> bool, s: seq<T>)
    requires Asymmetric(before) && OrderedBy(before, s) && s != []
    ensures forall x :: x in s[1..] <==> x in s && x != s[0]
  {
    forall x
      ensures x in s[1..] <==> x in s && x != s[0]
    {
      if x in s[1..] {
        var i :| 1 <= i < |s| && s[i] == x;
        assert before(s[0], s[i]);
      }
    }
  }

  /** Two ordered sequences with the same elements are the same. */
  lemma {:induction false} OrderIsUnique<T(!new)>(before: (T, T) -> bool, s: seq<T>, t: seq<T>)
    requires Asymmetric(before) && OrderedBy(before, s) && OrderedBy(before, t)
    requires forall x :: x in s <==> x in t
    ensures s == t
    decreases |s|
  {
    if s == [] {
      NothingIn(t);
    } else if t == [] {
      NothingIn(s);
    } else {
      assert s[0] in t && t[0] in s;
      assert s[0] == t[0];
      OrderedTail(before, s);
      OrderedTail(before, t);
      OrderIsUnique(before, s[1..], t[1..]);
      assert s == [s[0]] + s[1..] && t == [t[0]] + t[1..];
    }
  }
}
