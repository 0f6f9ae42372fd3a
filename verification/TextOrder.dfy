/** The order of texts by code points, shared by Python's `sorted` and by SQLite's
    default collation. */
module TextOrder {

  predicate Before(a: string, b: string) {
    b != "" && (a == "" || a[0] < b[0] || (a[0] == b[0] && Before(a[1..], b[1..])))
  }

  lemma {:induction false} Irreflexive(a: string)
    ensures !Before(a, a)
  {
    if a != "" {
      Irreflexive(a[1..]);
    }
  }

  lemma {:induction false} Transitive(a: string, b: string, c: string)
    requires Before(a, b) && Before(b, c)
    ensures Before(a, c)
  {
    if a != "" && a[0] == b[0] == c[0] {
      Transitive(a[1..], b[1..], c[1..]);
    }
  }

  lemma {:induction false} Total(a: string, b: string)
    ensures a == b || Before(a, b) || Before(b, a)
  {
    if a != "" && b != "" && a[0] == b[0] {
      Total(a[1..], b[1..]);
      assert a == [a[0]] + a[1..] && b == [b[0]] + b[1..];
    }
  }

  /** The order is a strict total order. */
  lemma Order()
    ensures forall a :: !Before(a, a)
    ensures forall a, b, c :: Before(a, b) && Before(b, c) ==> Before(a, c)
    ensures forall a, b :: a == b || Before(a, b) || Before(b, a)
  {
    forall a
      ensures !Before(a, a)
    {
      Irreflexive(a);
    }
    forall a, b, c | Before(a, b) && Before(b, c)
      ensures Before(a, c)
    {
      Transitive(a, b, c);
    }
    forall a, b
      ensures a == b || Before(a, b) || Before(b, a)
    {
      Total(a, b);
    }
  }

  /** At the first position where they differ, `a` ends or has the smaller character. */
  ghost predicate Lexicographic(a: string, b: string) {
    exists k :: FirstDifference(a, b, k)
  }

  ghost predicate FirstDifference(a: string, b: string, k: nat) {
    && k <= |a| && k < |b| && (forall i :: 0 <= i < k ==> a[i] == b[i])
    && (k == |a| || a[k] < b[k])
  }

  lemma {:induction false} BeforeIsLexicographic(a: string, b: string)
    ensures Before(a, b) <==> Lexicographic(a, b)
  {
    if b != "" && (a == "" || a[0] != b[0]) {
      if Before(a, b) {
        assert FirstDifference(a, b, 0);
      }
    } else if b != "" {
      BeforeIsLexicographic(a[1..], b[1..]);
      if k: nat :| FirstDifference(a[1..], b[1..], k) {
        assert FirstDifference(a, b, k + 1);
      }
      if k: nat :| FirstDifference(a, b, k) {
        assert k > 0 && FirstDifference(a[1..], b[1..], k - 1);
      }
    }
  }

  // ----------------------------------------------------------- sorting sets

  predicate IsLeast(a: string, s: set<string>) {
    a in s && forall b :: b in s && b != a ==> Before(a, b)
  }

  lemma {:induction false} LeastExists(s: set<string>)
    requires s != {}
    ensures exists a :: IsLeast(a, s)
    decreases |s|
  {
    hide Before;
    Order();
    var a :| a in s;
    var rest := s - {a};
    if rest == {} {
      assert forall b :: b in s && b != a ==> b in rest;
      assert IsLeast(a, s);
    } else {
      LeastExists(rest);
      var b :| IsLeast(b, rest);
      assert IsLeast(if Before(a, b) then a else b, s);
    }
  }

  function Least(s: set<string>): (a: string)
    requires s != {}
    ensures IsLeast(a, s)
  {
    LeastExists(s);
    Order();
    var a :| IsLeast(a, s);
    a
  }

  /** `sorted` of a set of texts. */
  function Sorted(s: set<string>): seq<string> {
    if s == {} then [] else [Least(s)] + Sorted(s - {Least(s)})
  }

  ghost predicate StrictlySorted(r: seq<string>) {
    forall i, j :: 0 <= i < j < |r| ==> Before(r[i], r[j])
  }

  /** Sorting a set lists exactly its elements, each once, in order. */
  lemma {:induction false} SortedIsSorted(s: set<string>)
    ensures StrictlySorted(Sorted(s)) && forall a :: a in Sorted(s) <==> a in s
    decreases |s|
  {
    hide Before;
    if s != {} {
      var rest := Sorted(s - {Least(s)});
      SortedIsSorted(s - {Least(s)});
      assert Sorted(s) == [Least(s)] + rest;
      forall i | 0 <= i < |rest|
        ensures Before(Least(s), rest[i])
      {
        assert rest[i] in rest;
      }
      assert forall a :: a in [Least(s)] + rest <==> a == Least(s) || a in rest;
    }
  }

  lemma {:induction false} SortedLength(s: set<string>)
    ensures |Sorted(s)| == |s|
    decreases |s|
  {
    if s != {} {
      SortedLength(s - {Least(s)});
    }
  }
}
