/** Splitting prose into sentences without cutting URLs, dotted names or paths:
    matched tokens are replaced by placeholder keys, the text is split, and the
    keys are replaced back one after the other.

    The matches are an arbitrary ordered list of disjoint spans of the text. */
module SentenceTokens {

  datatype Span = Span(lo: nat, hi: nat)

  ghost predicate Spans(text: string, spans: seq<Span>) {
    && (forall i :: 0 <= i < |spans| ==> spans[i].lo < spans[i].hi <= |text|)
    && (forall i, j :: 0 <= i < j < |spans| ==> spans[i].hi <= spans[j].lo)
  }

  // ---------------------------------------------------------------- keys

  function Digit(n: nat): char
    requires n < 10
  {
    "0123456789"[n]
  }

  function Decimal(n: nat): (s: string)
    ensures s != [] && forall i :: 0 <= i < |s| ==> '0' <= s[i] <= '9'
  {
    if n < 10 then [Digit(n)] else Decimal(n / 10) + [Digit(n % 10)]
  }

  const PREFIX := "__PP_TOKEN_"
  const FRAGMENT := "PP_TOKEN"

  function Key(i: nat): (s: string)
    ensures |s| >= 14 && s[0] == '_' && s[|s| - 1] == '_'
  {
    PREFIX + Decimal(i) + "__"
  }

  predicate At(t: string, q: int, w: string) {
    0 <= q && q + |w| <= |t| && t[q..q + |w|] == w
  }

  ghost predicate NoFragment(t: string) {
    forall q :: !At(t, q, FRAGMENT)
  }

  /** The last digit and what precedes it. */
  lemma DecimalEnds(n: nat)
    ensures var s := Decimal(n);
            && s[|s| - 1] == Digit(n % 10)
            && s[..|s| - 1] == if n < 10 then [] else Decimal(n / 10)
  {
  }

  lemma {:induction false} DecimalInjective(a: nat, b: nat)
    requires Decimal(a) == Decimal(b)
    ensures a == b
  {
    DecimalEnds(a);
    DecimalEnds(b);
    if a >= 10 && b >= 10 {
      DecimalInjective(a / 10, b / 10);
    }
  }

  lemma AtChar(t: string, q: int, w: string, i: nat)
    requires At(t, q, w) && i < |w|
    ensures t[q + i] == w[i]
  {
    assert t[q..q + |w|][i] == w[i];
  }

  /** A key is no prefix of another key, whatever follows. */
  lemma KeysDiffer(j: nat, rest: string, k: nat)
    requires At(Key(j) + rest, 0, Key(k))
    ensures j == k
  {
    var a, b, t := Decimal(j), Decimal(k), Key(j) + rest;
    AtChar(t, 0, Key(k), 11 + if |a| < |b| then |a| else |b|);
    if |a| == |b| {
      forall i | 0 <= i < |a|
        ensures a[i] == b[i]
      {
        AtChar(t, 0, Key(k), 11 + i);
      }
      assert a == b;
      DecimalInjective(j, k);
    }
  }

  /** Around a key, the fragment occurs only inside the key itself or later. */
  lemma KeyFragments(pre: string, j: nat, rest: string, q: int)
    requires NoFragment(pre) && At(pre + Key(j) + rest, q, FRAGMENT)
    ensures q == |pre| + 2 || q >= |pre| + |Key(j)|
  {
    var t := pre + Key(j) + rest;
    if q + 8 <= |pre| {
      assert t[q..q + 8] == pre[q..q + 8];
      assert At(pre, q, FRAGMENT);
    } else if q < |pre| {
      AtChar(t, q, FRAGMENT, |pre| - q);
      if |pre| - q == 2 {
        AtChar(t, q, FRAGMENT, 3);
      }
    } else if q < |pre| + |Key(j)| && q != |pre| + 2 {
      AtChar(t, q, FRAGMENT, 0);
      AtChar(t, q, FRAGMENT, 1);
    }
  }

  // ------------------------------------------------------------- replacing

  /** `str.replace`: leftmost occurrences first, without overlaps. */
  function Replace(t: string, key: string, value: string): string
    requires key != []
  {
    if |t| < |key| then t
    else if t[..|key|] == key then value + Replace(t[|key|..], key, value)
    else [t[0]] + Replace(t[1..], key, value)
  }

  /** A stretch in which no occurrence of the key starts is copied. */
  lemma {:induction false} ReplaceCopies(x: string, y: string, key: string, value: string)
    requires key != [] && forall p :: 0 <= p < |x| ==> !At(x + y, p, key)
    ensures Replace(x + y, key, value) == x + Replace(y, key, value)
  {
    if x == [] {
      assert x + y == y;
    } else {
      assert !At(x + y, 0, key);
      assert (x + y)[1..] == x[1..] + y;
      forall p | 0 <= p < |x[1..]|
        ensures !At(x[1..] + y, p, key)
      {
        assert !At(x + y, p + 1, key);
        if p + |key| <= |x[1..] + y| {
          assert (x + y)[p + 1..p + 1 + |key|] == (x[1..] + y)[p..p + |key|];
        }
      }
      ReplaceCopies(x[1..], y, key, value);
      assert (x + y)[0] == x[0] && [x[0]] + x[1..] == x;
      if |x + y| < |key| {
        assert Replace(x[1..] + y, key, value) == x[1..] + y;
        assert Replace(y, key, value) == y;
      } else {
        assert Replace(x + y, key, value) == [x[0]] + Replace(x[1..] + y, key, value);
        assert [x[0]] + (x[1..] + Replace(y, key, value)) == x + Replace(y, key, value);
      }
    }
  }

  /** The dictionary of protected tokens, in insertion order. */
  type Tokens = seq<(string, string)>

  ghost predicate NonEmptyKeys(tokens: Tokens) {
    forall i :: 0 <= i < |tokens| ==> tokens[i].0 != []
  }

  function RestoredWith(text: string, tokens: Tokens): string
    requires NonEmptyKeys(tokens)
    decreases |tokens|
  {
    if tokens == [] then text
    else
      var last := tokens[|tokens| - 1];
      Replace(RestoredWith(text, tokens[..|tokens| - 1]), last.0, last.1)
  }

  method RestoreSentenceTokens(text: string, tokens: Tokens) returns (r: string)
    requires NonEmptyKeys(tokens)
    ensures r == RestoredWith(text, tokens)
  {
    r := text;
    for i := 0 to |tokens|
      invariant r == RestoredWith(text, tokens[..i])
    {
      assert tokens[..i + 1][..i] == tokens[..i];
      r := Replace(r, tokens[i].0, tokens[i].1);
    }
    assert tokens[..|tokens|] == tokens;
  }

  // ----------------------------------------------- text as a list of symbols

  /** An ordinary character, or the token with a given number. */
  datatype Sym = Ch(c: char) | Tok(i: nat)

  /** The text from `at` on, where spans from `i` on are still ahead. */
  ghost function Symbols(text: string, spans: seq<Span>, i: nat, at: nat): seq<Sym>
    requires Spans(text, spans) && i <= |spans| && at <= |text| && (i < |spans| ==> at <= spans[i].lo)
    decreases |text| - at
  {
    if i < |spans| && at == spans[i].lo then [Tok(i)] + Symbols(text, spans, i + 1, spans[i].hi)
    else if at < |text| then [Ch(text[at])] + Symbols(text, spans, i, at + 1)
    else []
  }

  ghost predicate Known(syms: seq<Sym>, values: seq<string>) {
    forall s :: 0 <= s < |syms| && syms[s].Tok? ==> syms[s].i < |values|
  }

  function FlatSym(s: Sym, values: seq<string>, k: nat): string
    requires s.Tok? ==> s.i < |values|
  {
    match s
    case Ch(c) => [c]
    case Tok(i) => if i < k then values[i] else Key(i)
  }

  /** The text in which tokens before number `k` are spelled out and the others
      are keys. */
  function Flat(syms: seq<Sym>, values: seq<string>, k: nat): string
    requires Known(syms, values)
  {
    if syms == [] then [] else FlatSym(syms[0], values, k) + Flat(syms[1..], values, k)
  }

  ghost function Full(syms: seq<Sym>, values: seq<string>): string
    requires Known(syms, values)
  {
    Flat(syms, values, |values|)
  }

  lemma NoFragmentIn(x: string, y: string, z: string)
    requires NoFragment(x + y + z)
    ensures NoFragment(y)
  {
    forall q
      ensures !At(y, q, FRAGMENT)
    {
      if At(y, q, FRAGMENT) {
        assert (x + y + z)[|x| + q..|x| + q + 8] == y[q..q + 8];
        assert At(x + y + z, |x| + q, FRAGMENT);
      }
    }
  }

  /** In a half-restored text the fragment never starts right after plain text. */
  lemma {:induction false} FragmentsComeLate(pre: string, syms: seq<Sym>, values: seq<string>, k: nat, q: int)
    requires Known(syms, values) && k <= |values| && NoFragment(pre + Full(syms, values))
    requires At(pre + Flat(syms, values, k), q, FRAGMENT)
    ensures q >= |pre| + 2
    decreases |syms|
  {
    hide At, Key;
    if syms != [] {
      var head, rest := FlatSym(syms[0], values, k), syms[1..];
      if syms[0].Tok? && k <= syms[0].i {
        assert pre + Full(syms, values) == [] + pre + Full(syms, values);
        NoFragmentIn([], pre, Full(syms, values));
        assert pre + Flat(syms, values, k) == pre + Key(syms[0].i) + Flat(rest, values, k);
        KeyFragments(pre, syms[0].i, Flat(rest, values, k), q);
      } else {
        assert pre + Flat(syms, values, k) == (pre + head) + Flat(rest, values, k);
        assert pre + Full(syms, values) == (pre + head) + Full(rest, values);
        FragmentsComeLate(pre + head, rest, values, k, q);
      }
    }
  }

  lemma KeyBringsFragment(t: string, p: int, k: nat)
    requires At(t, p, Key(k))
    ensures At(t, p + 2, FRAGMENT)
  {
    forall i | 0 <= i < 8
      ensures t[p + 2 + i] == FRAGMENT[i]
    {
      AtChar(t, p, Key(k), 2 + i);
    }
    assert t[p + 2..p + 2 + 8] == FRAGMENT;
  }

  /** Where key `k` can occur when plain text is followed by key `j`. */
  lemma KeyOccurrence(pre: string, j: nat, rest: string, k: nat, p: int)
    requires NoFragment(pre) && At(pre + Key(j) + rest, p, Key(k))
    requires forall q :: At(rest, q, FRAGMENT) ==> q >= 2
    ensures (p == |pre| && j == k) || p >= |pre| + |Key(j)|
  {
    var t := pre + Key(j) + rest;
    KeyBringsFragment(t, p, k);
    KeyFragments(pre, j, rest, p + 2);
    if p == |pre| {
      assert t[p..p + |Key(k)|] == (Key(j) + rest)[0..|Key(k)|];
      KeysDiffer(j, rest, k);
    } else if p < |pre| + |Key(j)| {
      var q := p + 2 - |pre| - |Key(j)|;
      assert t[p + 2..p + 10] == rest[q..q + 8];
      assert At(rest, q, FRAGMENT);
    }
  }

  lemma ReplaceInPlain(pre: string, k: nat, value: string)
    requires NoFragment(pre)
    ensures Replace(pre, Key(k), value) == pre
  {
    forall p | 0 <= p < |pre|
      ensures !At(pre + [], p, Key(k))
    {
      assert pre + [] == pre;
      if At(pre, p, Key(k)) {
        KeyBringsFragment(pre, p, k);
      }
    }
    ReplaceCopies(pre, [], Key(k), value);
    assert pre + [] == pre;
  }

  /** Replacing key `k` in plain text, then a key, then more text. */
  lemma ReplaceAroundKey(pre: string, j: nat, rest: string, k: nat, value: string)
    requires NoFragment(pre)
    requires forall q :: At(rest, q, FRAGMENT) ==> q >= 2
    ensures Replace(pre + Key(j) + rest, Key(k), value)
         == pre + (if j == k then value else Key(j)) + Replace(rest, Key(k), value)
  {
    hide At, Key;
    var t := pre + Key(j) + rest;
    var copied := if j == k then pre else pre + Key(j);
    var after := if j == k then Key(k) + rest else rest;
    assert copied + after == t;
    forall p | 0 <= p < |copied|
      ensures !At(copied + after, p, Key(k))
    {
      if At(t, p, Key(k)) {
        KeyOccurrence(pre, j, rest, k, p);
      }
    }
    ReplaceCopies(copied, after, Key(k), value);
    if j == k {
      assert (Key(k) + rest)[..|Key(k)|] == Key(k) && (Key(k) + rest)[|Key(k)|..] == rest;
    }
  }

  lemma FlatHead(pre: string, syms: seq<Sym>, values: seq<string>, k: nat)
    requires syms != [] && Known(syms, values)
    ensures pre + Flat(syms, values, k) == (pre + FlatSym(syms[0], values, k)) + Flat(syms[1..], values, k)
  {
  }

  lemma NoFragmentParts(x: string, y: string)
    requires NoFragment(x + y)
    ensures NoFragment(x) && NoFragment(y)
  {
    assert x + y == [] + x + y == x + y + [];
    NoFragmentIn([], x, y);
    NoFragmentIn(x, y, []);
  }

  lemma RestoreAtKey(pre: string, syms: seq<Sym>, values: seq<string>, k: nat)
    requires Known(syms, values) && k < |values| && NoFragment(pre + Full(syms, values))
    requires syms != [] && syms[0].Tok? && k <= syms[0].i
    requires Replace(Flat(syms[1..], values, k), Key(k), values[k]) == Flat(syms[1..], values, k + 1)
    ensures Replace(pre + Flat(syms, values, k), Key(k), values[k]) == pre + Flat(syms, values, k + 1)
  {
    hide At, Key, Replace, NoFragment, Flat;
    var i, rest := syms[0].i, syms[1..];
    NoFragmentParts(pre, Full(syms, values));
    FlatHead(pre, syms, values, |values|);
    NoFragmentParts(pre + values[i], Full(rest, values));
    forall q | At(Flat(rest, values, k), q, FRAGMENT)
      ensures q >= 2
    {
      assert [] + Full(rest, values) == Full(rest, values) && [] + Flat(rest, values, k) == Flat(rest, values, k);
      FragmentsComeLate([], rest, values, k, q);
    }
    ReplaceAroundKey(pre, i, Flat(rest, values, k), k, values[k]);
    FlatHead(pre, syms, values, k);
    FlatHead(pre, syms, values, k + 1);
  }

  lemma KnownTail(syms: seq<Sym>, values: seq<string>)
    requires syms != [] && Known(syms, values)
    ensures (syms[0].Tok? ==> syms[0].i < |values|) && Known(syms[1..], values)
  {
  }

  lemma RestoreNoSymbols(pre: string, values: seq<string>, k: nat)
    requires Known([], values) && k < |values| && NoFragment(pre + Full([], values))
    ensures Replace(pre + Flat([], values, k), Key(k), values[k]) == pre + Flat([], values, k + 1)
  {
    hide At, Key, Replace, NoFragment;
    assert pre + [] == pre;
    ReplaceInPlain(pre, k, values[k]);
  }

  /** A symbol that is spelled out at both stages moves to the plain text. */
  lemma RestoreSkips(pre: string, syms: seq<Sym>, values: seq<string>, k: nat)
    requires syms != [] && Known(syms, values) && Known(syms[1..], values) && k < |values|
    requires syms[0].Tok? ==> syms[0].i < k
    requires var p := pre + FlatSym(syms[0], values, k);
             Replace(p + Flat(syms[1..], values, k), Key(k), values[k]) == p + Flat(syms[1..], values, k + 1)
    ensures Replace(pre + Flat(syms, values, k), Key(k), values[k]) == pre + Flat(syms, values, k + 1)
  {
    hide Key, Replace, Flat, Known;
    FlatHead(pre, syms, values, k);
    FlatHead(pre, syms, values, k + 1);
  }

  /** Replacing key `k` turns stage `k` into stage `k + 1`, also next to other
      keys, restored tokens and underscores. */
  lemma {:induction false} RestoreStep(pre: string, syms: seq<Sym>, values: seq<string>, k: nat)
    requires Known(syms, values) && k < |values| && NoFragment(pre + Full(syms, values))
    ensures Replace(pre + Flat(syms, values, k), Key(k), values[k]) == pre + Flat(syms, values, k + 1)
    decreases |syms|, 0
  {
    hide At, Key, Replace, NoFragment, Flat, Known;
    if syms == [] {
      RestoreNoSymbols(pre, values, k);
    } else {
      var head, rest := syms[0], syms[1..];
      KnownTail(syms, values);
      FlatHead(pre, syms, values, |values|);
      if head.Tok? && k <= head.i {
        NoFragmentParts(pre + FlatSym(head, values, |values|), Full(rest, values));
        RestoreTail(rest, values, k);
        RestoreAtKey(pre, syms, values, k);
      } else {
        RestoreStep(pre + FlatSym(head, values, k), rest, values, k);
        RestoreSkips(pre, syms, values, k);
      }
    }
  }

  lemma {:induction false} RestoreTail(syms: seq<Sym>, values: seq<string>, k: nat)
    requires Known(syms, values) && k < |values| && NoFragment(Full(syms, values))
    ensures Replace(Flat(syms, values, k), Key(k), values[k]) == Flat(syms, values, k + 1)
    decreases |syms|, 1
  {
    hide At, Key, Replace, NoFragment, Flat, Known;
    assert [] + Full(syms, values) == Full(syms, values);
    assert [] + Flat(syms, values, k) == Flat(syms, values, k);
    assert [] + Flat(syms, values, k + 1) == Flat(syms, values, k + 1);
    RestoreStep([], syms, values, k);
  }

  // ----------------------------------------------- protecting and restoring

  function Values(text: string, spans: seq<Span>): (v: seq<string>)
    requires forall i :: 0 <= i < |spans| ==> spans[i].lo <= spans[i].hi <= |text|
    ensures |v| == |spans|
  {
    seq(|spans|, i requires 0 <= i < |spans| => text[spans[i].lo..spans[i].hi])
  }

  function TokenList(values: seq<string>): (tokens: Tokens)
    ensures |tokens| == |values| && NonEmptyKeys(tokens)
  {
    seq(|values|, i requires 0 <= i < |values| => (Key(i), values[i]))
  }

  lemma FlatCons(s: Sym, rest: seq<Sym>, values: seq<string>, k: nat)
    requires Known([s] + rest, values)
    ensures (s.Tok? ==> s.i < |values|) && Known(rest, values) && Flat([s] + rest, values, k) == FlatSym(s, values, k) + Flat(rest, values, k)
  {
    hide FlatSym;
    var all := [s] + rest;
    assert all[0] == s && all[1..] == rest;
    assert forall j :: 0 <= j < |rest| ==> rest[j] == all[j + 1];
  }

  /** Symbols up to the next span are the characters of the text. */
  lemma {:induction false} SymbolsAhead(text: string, spans: seq<Span>, i: nat, at: nat, to: nat, k: nat)
    requires Spans(text, spans) && i <= |spans| && at <= to <= |text| && (i < |spans| ==> to <= spans[i].lo)
    ensures Known(Symbols(text, spans, i, at), Values(text, spans))
    ensures Known(Symbols(text, spans, i, to), Values(text, spans))
    ensures Flat(Symbols(text, spans, i, at), Values(text, spans), k)
         == text[at..to] + Flat(Symbols(text, spans, i, to), Values(text, spans), k)
    decreases |text| - at
  {
    hide Key, Flat, FlatSym, Symbols, Known;
    SymbolsKnown(text, spans, i, at);
    SymbolsKnown(text, spans, i, to);
    if at < to {
      SymbolsAhead(text, spans, i, at + 1, to, k);
      SymbolAt(text, spans, i, at);
      FlatCharacter(text[at], Symbols(text, spans, i, at + 1), Values(text, spans), k);
      assert text[at..to] == [text[at]] + text[at + 1..to];
    } else {
      assert text[at..to] == [];
    }
  }

  lemma SymbolAt(text: string, spans: seq<Span>, i: nat, at: nat)
    requires Spans(text, spans) && i <= |spans| && at < |text| && (i < |spans| ==> at < spans[i].lo)
    ensures Symbols(text, spans, i, at) == [Ch(text[at])] + Symbols(text, spans, i, at + 1)
  {
  }

  lemma FlatCharacter(ch: char, rest: seq<Sym>, values: seq<string>, k: nat)
    requires Known([Ch(ch)] + rest, values)
    ensures Known(rest, values) && Flat([Ch(ch)] + rest, values, k) == [ch] + Flat(rest, values, k)
  {
    FlatCons(Ch(ch), rest, values, k);
  }

  lemma {:induction false} SymbolsKnown(text: string, spans: seq<Span>, i: nat, at: nat)
    requires Spans(text, spans) && i <= |spans| && at <= |text| && (i < |spans| ==> at <= spans[i].lo)
    ensures Known(Symbols(text, spans, i, at), Values(text, spans))
    decreases |text| - at
  {
    hide Known;
    if i < |spans| && at == spans[i].lo {
      SymbolsKnown(text, spans, i + 1, spans[i].hi);
      KnownCons(Tok(i), Symbols(text, spans, i + 1, spans[i].hi), Values(text, spans));
    } else if at < |text| {
      SymbolsKnown(text, spans, i, at + 1);
      KnownCons(Ch(text[at]), Symbols(text, spans, i, at + 1), Values(text, spans));
    } else {
      NothingKnown(Values(text, spans));
    }
  }

  lemma KnownCons(s: Sym, syms: seq<Sym>, values: seq<string>)
    requires Known(syms, values) && (s.Tok? ==> s.i < |values|)
    ensures Known([s] + syms, values)
  {
  }

  lemma NothingKnown(values: seq<string>)
    ensures Known([], values)
  {
  }

  /** The protected form of the text from `at` on. */
  ghost function ProtectedTail(text: string, spans: seq<Span>, i: nat, at: nat): string
    requires Spans(text, spans) && i <= |spans| && at <= |text| && (i < |spans| ==> at <= spans[i].lo)
  {
    SymbolsKnown(text, spans, i, at);
    Flat(Symbols(text, spans, i, at), Values(text, spans), 0)
  }

  ghost function ProtectedText(text: string, spans: seq<Span>): string
    requires Spans(text, spans)
  {
    ProtectedTail(text, spans, 0, 0)
  }

  lemma ProtectNext(text: string, spans: seq<Span>, i: nat, at: nat)
    requires Spans(text, spans) && i < |spans| && at <= spans[i].lo
    ensures ProtectedTail(text, spans, i, at)
         == text[at..spans[i].lo] + Key(i) + ProtectedTail(text, spans, i + 1, spans[i].hi)
  {
    hide Key;
    SymbolsAhead(text, spans, i, at, spans[i].lo, 0);
    SymbolsKnown(text, spans, i + 1, spans[i].hi);
  }

  lemma ProtectLast(text: string, spans: seq<Span>, at: nat)
    requires Spans(text, spans) && at <= |text|
    ensures ProtectedTail(text, spans, |spans|, at) == text[at..]
  {
    SymbolsAhead(text, spans, |spans|, at, |text|, 0);
    assert text[at..|text|] == text[at..];
  }

  method ProtectSentenceTokens(text: string, spans: seq<Span>) returns (r: string, tokens: Tokens)
    requires Spans(text, spans)
    ensures r == ProtectedText(text, spans) && tokens == TokenList(Values(text, spans))
  {
    hide ProtectedTail, Key;
    r, tokens := "", [];
    var last := 0;
    for i := 0 to |spans|
      invariant 0 <= last <= |text| && (i < |spans| ==> last <= spans[i].lo)
      invariant tokens == TokenList(Values(text, spans))[..i]
      invariant r + ProtectedTail(text, spans, i, last) == ProtectedText(text, spans)
    {
      ProtectNext(text, spans, i, last);
      var key := Key(|tokens|);
      tokens := tokens + [(key, text[spans[i].lo..spans[i].hi])];
      r := r + text[last..spans[i].lo] + key;
      last := spans[i].hi;
    }
    ProtectLast(text, spans, last);
    r := r + text[last..];
  }

  /** Spelling every token out gives the text itself. */
  lemma {:induction false} FullSymbols(text: string, spans: seq<Span>, i: nat, at: nat)
    requires Spans(text, spans) && i <= |spans| && at <= |text| && (i < |spans| ==> at <= spans[i].lo)
    ensures Known(Symbols(text, spans, i, at), Values(text, spans))
    ensures Full(Symbols(text, spans, i, at), Values(text, spans)) == text[at..]
    decreases |text| - at
  {
    SymbolsKnown(text, spans, i, at);
    if i < |spans| && at == spans[i].lo {
      FullSymbols(text, spans, i + 1, spans[i].hi);
    } else if at < |text| {
      FullSymbols(text, spans, i, at + 1);
    }
  }

  lemma {:induction false} RestoreStages(syms: seq<Sym>, values: seq<string>, k: nat)
    requires Known(syms, values) && k <= |values| && NoFragment(Full(syms, values))
    ensures RestoredWith(Flat(syms, values, 0), TokenList(values)[..k]) == Flat(syms, values, k)
  {
    if k > 0 {
      RestoreStages(syms, values, k - 1);
      assert TokenList(values)[..k][..k - 1] == TokenList(values)[..k - 1];
      RestoreTail(syms, values, k - 1);
    }
  }

  /** Restoring any stretch of protected symbols spells out exactly that stretch. */
  lemma RestoreFlat(syms: seq<Sym>, values: seq<string>)
    requires Known(syms, values) && NoFragment(Full(syms, values))
    ensures RestoredWith(Flat(syms, values, 0), TokenList(values)) == Full(syms, values)
  {
    RestoreStages(syms, values, |values|);
    assert TokenList(values)[..|values|] == TokenList(values);
  }

  /** Protecting and restoring is the identity on every text without the
      fragment, for every list of disjoint spans. */
  lemma RestoreProtected(text: string, spans: seq<Span>)
    requires Spans(text, spans) && NoFragment(text)
    ensures RestoredWith(ProtectedText(text, spans), TokenList(Values(text, spans))) == text
  {
    FullSymbols(text, spans, 0, 0);
    RestoreFlat(Symbols(text, spans, 0, 0), Values(text, spans));
  }
}
