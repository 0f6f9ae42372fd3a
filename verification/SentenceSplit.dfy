/** Sentence splitting as a whole: protecting tokens, splitting the protected
    text and restoring each part finds exactly the pieces that lie between the
    delimiters of the original text. */
module SentenceSplit {
  import opened SentenceTokens

  const STOPS := ['\U{3002}', '\U{FF01}', '\U{FF1F}', '!', '?', '\n']

  predicate IsStop(c: char) {
    c in STOPS
  }

  // ------------------------------------------------------------- the source

  function RunLength(t: string): (n: nat)
    ensures n <= |t| && (t != "" && IsStop(t[0]) ==> n > 0)
  {
    if t == "" || !IsStop(t[0]) then 0 else 1 + RunLength(t[1..])
  }

  /** `re.split` on a run of stops, or on a dot with no underscore on either side.
      `under` says whether an underscore precedes `t`; `acc` is the current part. */
  function SplitFrom(t: string, under: bool, acc: string): seq<string>
    decreases |t|
  {
    if t == "" then [acc]
    else if IsStop(t[0]) then [acc] + SplitFrom(t[RunLength(t)..], false, "")
    else if t[0] == '.' && !under && !(|t| > 1 && t[1] == '_') then [acc] + SplitFrom(t[1..], false, "")
    else SplitFrom(t[1..], t[0] == '_', acc + [t[0]])
  }

  function Leading(s: string, ws: char -> bool): (n: nat)
    ensures n <= |s| && (forall i :: 0 <= i < n ==> ws(s[i])) && (n < |s| ==> !ws(s[n]))
  {
    if s == "" || !ws(s[0]) then 0 else 1 + Leading(s[1..], ws)
  }

  function Trailing(s: string, ws: char -> bool): (n: nat)
    ensures n <= |s| && (forall i :: |s| - n <= i < |s| ==> ws(s[i])) && (n < |s| ==> !ws(s[|s| - n - 1]))
  {
    if s == "" || !ws(s[|s| - 1]) then 0 else 1 + Trailing(s[..|s| - 1], ws)
  }

  function Strip(s: string, ws: char -> bool): string {
    var t := s[Leading(s, ws)..];
    t[..|t| - Trailing(t, ws)]
  }

  /** A stripped part, if it has at least ten characters. */
  function Kept(s: string, ws: char -> bool): seq<string> {
    if |Strip(s, ws)| >= 10 then [Strip(s, ws)] else []
  }

  function KeptParts(parts: seq<string>, tokens: Tokens, ws: char -> bool): seq<string>
    requires NonEmptyKeys(tokens)
  {
    if parts == [] then [] else Kept(RestoredWith(parts[0], tokens), ws) + KeptParts(parts[1..], tokens, ws)
  }

  // ---------------------------------------------------------- the reference

  ghost predicate Inside(spans: seq<Span>, p: int) {
    exists i :: 0 <= i < |spans| && spans[i].lo <= p < spans[i].hi
  }

  /** An underscore or the end of a token stands right before position `p`. */
  ghost predicate AfterUnderscore(text: string, spans: seq<Span>, p: nat)
    requires p <= |text|
  {
    (p > 0 && text[p - 1] == '_') || exists i :: 0 <= i < |spans| && spans[i].hi == p
  }

  /** An underscore or the start of a token stands at position `p`. */
  ghost predicate BeforeUnderscore(text: string, spans: seq<Span>, p: nat)
    requires p <= |text|
  {
    (p < |text| && text[p] == '_') || exists i :: 0 <= i < |spans| && spans[i].lo == p
  }

  /** The Chinese full stop, exclamation mark and question mark, the English ones
      and the line end. */
  predicate Delimiter(c: char) {
    || c == '\U{3002}' || c == '\U{FF01}' || c == '\U{FF1F}'
    || c == '!' || c == '?' || c == '\n'
  }

  lemma StopIsDelimiter(c: char)
    ensures IsStop(c) <==> Delimiter(c)
  {
  }

  /** The text is cut at `p`: a delimiter outside every token, and for a dot no
      underscore or token on either side. */
  ghost predicate Cut(text: string, spans: seq<Span>, p: nat)
    requires p < |text|
  {
    && !Inside(spans, p)
    && (Delimiter(text[p]) ||
        (text[p] == '.' && !AfterUnderscore(text, spans, p) && !BeforeUnderscore(text, spans, p + 1)))
  }

  /** The kept pieces of the original text between one cut and the next. */
  ghost function Pieces(text: string, spans: seq<Span>, ws: char -> bool, lo: nat, p: nat): seq<string>
    requires lo <= p <= |text|
    decreases |text| - p
  {
    if p == |text| then Kept(text[lo..p], ws)
    else if Cut(text, spans, p) then Kept(text[lo..p], ws) + Pieces(text, spans, ws, p + 1, p + 1)
    else Pieces(text, spans, ws, lo, p + 1)
  }

  // ------------------------------------------------------------ equivalence

  predicate Plain(c: char) {
    !IsStop(c) && c != '.'
  }

  lemma KeyIsPlain(i: nat)
    ensures forall j :: 0 <= j < |Key(i)| ==> Plain(Key(i)[j])
  {
    forall j | 0 <= j < |Key(i)|
      ensures Plain(Key(i)[j])
    {
      if 11 <= j < 11 + |Decimal(i)| {
        assert Key(i)[j] == Decimal(i)[j - 11];
      }
    }
  }

  lemma {:induction false} SplitSkipsPlain(w: string, t: string, under: bool, acc: string)
    requires w != "" && forall j :: 0 <= j < |w| ==> Plain(w[j])
    ensures SplitFrom(w + t, under, acc) == SplitFrom(t, w[|w| - 1] == '_', acc + w)
    decreases |w|
  {
    assert (w + t)[1..] == w[1..] + t;
    if |w| > 1 {
      SplitSkipsPlain(w[1..], t, w[0] == '_', acc + [w[0]]);
      assert acc + [w[0]] + w[1..] == acc + w;
    } else {
      assert w[1..] + t == t && acc + [w[0]] == acc + w;
    }
  }

  lemma {:induction false} RestoreNothing(tokens: Tokens)
    requires NonEmptyKeys(tokens)
    ensures RestoredWith("", tokens) == ""
    decreases |tokens|
  {
    if tokens != [] {
      RestoreNothing(tokens[..|tokens| - 1]);
    }
  }

  lemma KeptPartsCons(x: string, rest: seq<string>, tokens: Tokens, ws: char -> bool)
    requires NonEmptyKeys(tokens)
    ensures KeptParts([x] + rest, tokens, ws) == Kept(RestoredWith(x, tokens), ws) + KeptParts(rest, tokens, ws)
  {
    assert ([x] + rest)[1..] == rest;
  }

  lemma KeptNothing(tokens: Tokens, ws: char -> bool)
    requires NonEmptyKeys(tokens)
    ensures Kept(RestoredWith("", tokens), ws) == []
  {
    RestoreNothing(tokens);
  }

  lemma RunSteps(t: string)
    requires t != "" && IsStop(t[0])
    ensures RunLength(t) == 1 + RunLength(t[1..])
    ensures t[RunLength(t)..] == t[1..][RunLength(t[1..])..]
    ensures |t| == 1 || !IsStop(t[1]) ==> t[RunLength(t)..] == t[1..]
  {
  }

  lemma SplitAtStop(t: string, under: bool, acc: string)
    requires t != "" && IsStop(t[0])
    ensures SplitFrom(t, under, acc) == [acc] + SplitFrom(t[RunLength(t)..], false, "")
  {
  }

  /** Splitting at a run of stops keeps what splitting at its first stop keeps. */
  lemma RunsDoNotMatter(t: string, under: bool, acc: string, tokens: Tokens, ws: char -> bool)
    requires NonEmptyKeys(tokens) && t != "" && IsStop(t[0])
    ensures KeptParts(SplitFrom(t, under, acc), tokens, ws)
         == Kept(RestoredWith(acc, tokens), ws) + KeptParts(SplitFrom(t[1..], false, ""), tokens, ws)
  {
    hide RestoredWith, Kept, KeptParts, IsStop, SplitFrom, RunLength;
    var rest := SplitFrom(t[RunLength(t)..], false, "");
    RunSteps(t);
    SplitAtStop(t, under, acc);
    KeptPartsCons(acc, rest, tokens, ws);
    if |t| > 1 && IsStop(t[1]) {
      SplitAtStop(t[1..], false, "");
      KeptPartsCons("", rest, tokens, ws);
      KeptNothing(tokens, ws);
    }
  }

  /** Spans before `i` end at or before `p`, the others start at or after it. */
  ghost predicate Between(spans: seq<Span>, i: nat, p: nat) {
    && i <= |spans|
    && (i > 0 ==> spans[i - 1].hi <= p)
    && (i < |spans| ==> p <= spans[i].lo)
  }

  lemma {:induction false} SkipToken(text: string, spans: seq<Span>, ws: char -> bool, lo: nat, p: nat, i: nat)
    requires Spans(text, spans) && i < |spans| && lo <= p && spans[i].lo <= p <= spans[i].hi
    ensures Pieces(text, spans, ws, lo, p) == Pieces(text, spans, ws, lo, spans[i].hi)
    decreases spans[i].hi - p
  {
    if p < spans[i].hi {
      assert Inside(spans, p);
      SkipToken(text, spans, ws, lo, p + 1, i);
    }
  }

  lemma OutsideAtGap(text: string, spans: seq<Span>, i: nat, p: nat)
    requires Spans(text, spans) && Between(spans, i, p) && p < |text| && (i < |spans| ==> p < spans[i].lo)
    ensures !Inside(spans, p)
    ensures AfterUnderscore(text, spans, p + 1) <==> text[p] == '_'
    ensures Between(spans, i, p + 1)
  {
    forall j | 0 <= j < |spans|
      ensures !(spans[j].lo <= p < spans[j].hi) && spans[j].hi != p + 1
    {
      if i <= j {
        assert i < j ==> spans[i].hi <= spans[j].lo;
      } else {
        assert j < i - 1 ==> spans[j].hi <= spans[i - 1].lo;
      }
    }
  }

  /** The protected text continues with an underscore exactly where the original
      has one or a token starts. */
  lemma NextCharacter(text: string, spans: seq<Span>, i: nat, p: nat)
    requires Spans(text, spans) && Between(spans, i, p) && p <= |text|
    ensures var t := ProtectedTail(text, spans, i, p);
            BeforeUnderscore(text, spans, p) <==> t != "" && t[0] == '_'
  {
    forall j | 0 <= j < |spans|
      ensures spans[j].lo == p ==> j == i
    {
      if i < j {
        assert spans[i].lo < spans[i].hi <= spans[j].lo;
      } else if j < i {
        assert spans[j].lo < spans[j].hi;
        assert j < i - 1 ==> spans[j].hi <= spans[i - 1].lo;
      }
    }
    SymbolsKnown(text, spans, i, p);
  }

  lemma TailAtToken(text: string, spans: seq<Span>, i: nat)
    requires Spans(text, spans) && i < |spans|
    ensures ProtectedTail(text, spans, i, spans[i].lo) == Key(i) + ProtectedTail(text, spans, i + 1, spans[i].hi)
    ensures Between(spans, i + 1, spans[i].hi) && AfterUnderscore(text, spans, spans[i].hi)
  {
    ProtectNext(text, spans, i, spans[i].lo);
    if i + 1 < |spans| {
      assert spans[i].hi <= spans[i + 1].lo;
    }
  }

  lemma TailAtCharacter(text: string, spans: seq<Span>, i: nat, p: nat)
    requires Spans(text, spans) && Between(spans, i, p) && p < |text| && (i < |spans| ==> p < spans[i].lo)
    ensures ProtectedTail(text, spans, i, p) == [text[p]] + ProtectedTail(text, spans, i, p + 1)
  {
    SymbolsAhead(text, spans, i, p, p + 1, 0);
    assert text[p..p + 1] == [text[p]];
  }

  lemma {:induction false} AppendSymbol(syms: seq<Sym>, s: Sym, values: seq<string>, k: nat)
    requires Known(syms, values) && (s.Tok? ==> s.i < |values|)
    ensures Known(syms + [s], values)
    ensures Flat(syms + [s], values, k) == Flat(syms, values, k) + FlatSym(s, values, k)
  {
    hide FlatSym;
    if syms == [] {
      assert syms + [s] == [s] && [s][1..] == [];
    } else {
      var all, head := syms + [s], FlatSym(syms[0], values, k);
      assert all[0] == syms[0] && all[1..] == syms[1..] + [s];
      AppendSymbol(syms[1..], s, values, k);
      assert Flat(all, values, k) == head + (Flat(syms[1..], values, k) + FlatSym(s, values, k));
      assert Flat(syms, values, k) == head + Flat(syms[1..], values, k);
    }
  }

  /** What one part restores to, when its symbols cover `text[lo..p]`. */
  lemma RestorePart(text: string, lo: nat, p: nat, part: seq<Sym>, values: seq<string>)
    requires lo <= p <= |text| && NoFragment(text)
    requires Known(part, values) && Full(part, values) == text[lo..p]
    ensures RestoredWith(Flat(part, values, 0), TokenList(values)) == text[lo..p]
  {
    assert text == text[..lo] + text[lo..p] + text[p..];
    NoFragmentIn(text[..lo], text[lo..p], text[p..]);
    RestoreFlat(part, values);
  }

  /** The split of the protected text from position `p` on, with `part` the
      symbols since the last cut, keeps exactly the pieces of the original. */
  lemma {:induction false} SplitKeepsPieces(text: string, spans: seq<Span>, ws: char -> bool, i: nat, lo: nat, p: nat, part: seq<Sym>)
    requires Spans(text, spans) && Between(spans, i, p) && lo <= p <= |text| && NoFragment(text)
    requires Known(part, Values(text, spans)) && Full(part, Values(text, spans)) == text[lo..p]
    ensures KeptParts(SplitFrom(ProtectedTail(text, spans, i, p), AfterUnderscore(text, spans, p),
                                Flat(part, Values(text, spans), 0)), TokenList(Values(text, spans)), ws)
         == Pieces(text, spans, ws, lo, p)
    decreases |text| - p
  {
    hide RestoredWith, Kept, Key, ProtectedTail, NoFragment, Full, AfterUnderscore, BeforeUnderscore, Inside, IsStop, Flat;
    var values, tokens := Values(text, spans), TokenList(Values(text, spans));
    var acc, under := Flat(part, values, 0), AfterUnderscore(text, spans, p);
    RestorePart(text, lo, p, part, values);
    if i < |spans| && p == spans[i].lo {
      SplitAtToken(text, spans, ws, i, lo, p, part);
    } else if p == |text| {
      ProtectLast(text, spans, p);
      KeptPartsCons(acc, [], tokens, ws);
    } else {
      SplitAtCharacter(text, spans, ws, i, lo, p, part);
    }
  }

  lemma {:induction false} SplitAtToken(text: string, spans: seq<Span>, ws: char -> bool, i: nat, lo: nat, p: nat, part: seq<Sym>)
    requires Spans(text, spans) && i < |spans| && p == spans[i].lo && lo <= p <= |text| && NoFragment(text)
    requires Known(part, Values(text, spans)) && Full(part, Values(text, spans)) == text[lo..p]
    ensures KeptParts(SplitFrom(ProtectedTail(text, spans, i, p), AfterUnderscore(text, spans, p),
                                Flat(part, Values(text, spans), 0)), TokenList(Values(text, spans)), ws)
         == Pieces(text, spans, ws, lo, p)
    decreases |text| - p, 0
  {
    hide RestoredWith, Kept, KeptParts, Key, ProtectedTail, NoFragment, AfterUnderscore, BeforeUnderscore, Inside, IsStop, Flat,
         Pieces, SplitFrom;
    var values, hi := Values(text, spans), spans[i].hi;
    TailAtToken(text, spans, i);
    KeyIsPlain(i);
    SplitSkipsPlain(Key(i), ProtectedTail(text, spans, i + 1, hi), AfterUnderscore(text, spans, p), Flat(part, values, 0));
    AppendSymbol(part, Tok(i), values, 0);
    AppendSymbol(part, Tok(i), values, |values|);
    assert text[lo..hi] == text[lo..p] + text[p..hi];
    SplitKeepsPieces(text, spans, ws, i + 1, lo, hi, part + [Tok(i)]);
    SkipToken(text, spans, ws, lo, p, i);
  }

  lemma {:induction false} SplitAtCharacter(text: string, spans: seq<Span>, ws: char -> bool, i: nat, lo: nat, p: nat, part: seq<Sym>)
    requires Spans(text, spans) && Between(spans, i, p) && lo <= p < |text| && NoFragment(text)
    requires i < |spans| ==> p < spans[i].lo
    requires Known(part, Values(text, spans)) && Full(part, Values(text, spans)) == text[lo..p]
    ensures KeptParts(SplitFrom(ProtectedTail(text, spans, i, p), AfterUnderscore(text, spans, p),
                                Flat(part, Values(text, spans), 0)), TokenList(Values(text, spans)), ws)
         == Pieces(text, spans, ws, lo, p)
    decreases |text| - p, 0
  {
    hide RestoredWith, Kept, KeptParts, Key, ProtectedTail, NoFragment, AfterUnderscore, BeforeUnderscore, Inside, IsStop, Flat,
         RunLength;
    var values, tokens := Values(text, spans), TokenList(Values(text, spans));
    var acc, under, t := Flat(part, values, 0), AfterUnderscore(text, spans, p), ProtectedTail(text, spans, i, p);
    var rest := ProtectedTail(text, spans, i, p + 1);
    RestorePart(text, lo, p, part, values);
    TailAtCharacter(text, spans, i, p);
    OutsideAtGap(text, spans, i, p);
    NextCharacter(text, spans, i, p + 1);
    assert t[0] == text[p] && t[1..] == rest;
    StopIsDelimiter(text[p]);
    if Cut(text, spans, p) {
      EmptyPart(text, spans, p + 1);
      SplitKeepsPieces(text, spans, ws, i, p + 1, p + 1, []);
      if IsStop(text[p]) {
        RunsDoNotMatter(t, under, acc, tokens, ws);
        StopIsNoUnderscore(text[p]);
      } else {
        KeptPartsCons(acc, SplitFrom(rest, false, ""), tokens, ws);
      }
    } else {
      AppendSymbol(part, Ch(text[p]), values, 0);
      AppendSymbol(part, Ch(text[p]), values, |values|);
      assert text[lo..p + 1] == text[lo..p] + [text[p]];
      SplitKeepsPieces(text, spans, ws, i, lo, p + 1, part + [Ch(text[p])]);
    }
  }

  lemma StopIsNoUnderscore(c: char)
    requires IsStop(c)
    ensures c != '_'
  {
  }

  lemma EmptyPart(text: string, spans: seq<Span>, p: nat)
    requires Spans(text, spans) && p <= |text|
    ensures Known([], Values(text, spans)) && Flat([], Values(text, spans), 0) == ""
    ensures Full([], Values(text, spans)) == text[p..p]
  {
  }

  /** `_split_memory_sentences`: for every text without the fragment, the kept
      sentences are the kept pieces of the original between its own cuts. */
  method SplitMemorySentences(text: string, spans: seq<Span>, ws: char -> bool) returns (sentences: seq<string>)
    requires Spans(text, spans)
    ensures NoFragment(text) ==>
              exists at :: Spelled(text, sentences, at) && forall s :: s in at <==> Sentence(text, spans, ws, 0, s)
    ensures sentences == KeptParts(SplitFrom(ProtectedText(text, spans), false, ""), TokenList(Values(text, spans)), ws)
  {
    hide RestoredWith, Kept, KeptParts, SplitFrom, ProtectedText, Pieces, NoFragment, Sentence, Spelled;
    var protected, tokens := ProtectSentenceTokens(text, spans);
    var parts := SplitFrom(protected, false, "");
    sentences := [];
    assert parts[0..] == parts;
    for k := 0 to |parts|
      invariant sentences + KeptParts(parts[k..], tokens, ws) == KeptParts(parts, tokens, ws)
    {
      var restored := RestoreSentenceTokens(parts[k], tokens);
      assert parts[k..] == [parts[k]] + parts[k + 1..];
      KeptPartsCons(parts[k], parts[k + 1..], tokens, ws);
      sentences := sentences + Kept(restored, ws);
    }
    KeptNoParts(tokens, ws);
    assert parts[|parts|..] == [];
    if NoFragment(text) {
      SplitsWholeText(text, spans, ws);
      assert sentences == Pieces(text, spans, ws, 0, 0);
      var at := PiecesAreSentences(text, spans, ws, 0, 0);
    }
  }

  lemma KeptNoParts(tokens: Tokens, ws: char -> bool)
    requires NonEmptyKeys(tokens)
    ensures KeptParts([], tokens, ws) == []
  {
  }

  lemma SplitsWholeText(text: string, spans: seq<Span>, ws: char -> bool)
    requires Spans(text, spans) && NoFragment(text)
    ensures KeptParts(SplitFrom(ProtectedText(text, spans), false, ""), TokenList(Values(text, spans)), ws)
         == Pieces(text, spans, ws, 0, 0)
  {
    EmptyPart(text, spans, 0);
    assert !AfterUnderscore(text, spans, 0);
    SplitKeepsPieces(text, spans, ws, 0, 0, 0, []);
  }

  // ----------------------------------------------------- where pieces lie

  /** Token matches neither start nor end with whitespace. */
  ghost predicate Trimmed(text: string, spans: seq<Span>, ws: char -> bool)
    requires Spans(text, spans)
  {
    forall i :: 0 <= i < |spans| ==> !ws(text[spans[i].lo]) && !ws(text[spans[i].hi - 1])
  }

  ghost predicate CutFree(text: string, spans: seq<Span>, lo: nat, hi: nat)
    requires hi <= |text|
  {
    forall c :: lo <= c < hi ==> !Cut(text, spans, c)
  }

  /** A stretch of the text without cuts that contains each token wholly or not at all. */
  ghost predicate Whole(text: string, spans: seq<Span>, s: Span) {
    && s.lo < s.hi <= |text|
    && CutFree(text, spans, s.lo, s.hi)
    && forall i :: 0 <= i < |spans| ==>
         (s.lo <= spans[i].lo && spans[i].hi <= s.hi) || spans[i].hi <= s.lo || s.hi <= spans[i].lo
  }

  /** A cut lies between two stretches. */
  ghost predicate Apart(text: string, spans: seq<Span>, s: Span, s': Span) {
    exists c :: s.hi <= c < s'.lo && c < |text| && Cut(text, spans, c)
  }

  /** From one cut, or the start, to the next cut, or the end. */
  ghost predicate Stretch(text: string, spans: seq<Span>, lo: nat, hi: nat) {
    && lo <= hi <= |text| && CutFree(text, spans, lo, hi)
    && (lo > 0 ==> Cut(text, spans, lo - 1)) && (hi < |text| ==> Cut(text, spans, hi))
  }

  /** `s` reaches from the first to the last character of the stretch that is not
      whitespace. */
  ghost predicate Core(text: string, ws: char -> bool, lo: nat, hi: nat, s: Span) {
    && lo <= s.lo < s.hi <= hi <= |text| && !ws(text[s.lo]) && !ws(text[s.hi - 1])
    && forall i :: lo <= i < s.lo || s.hi <= i < hi ==> ws(text[i])
  }

  /** `s` is the core of a stretch at or after `from`, of at least ten characters. */
  ghost predicate Sentence(text: string, spans: seq<Span>, ws: char -> bool, from: nat, s: Span) {
    s.hi - s.lo >= 10 && exists lo, hi :: from <= lo && Stretch(text, spans, lo, hi) && Core(text, ws, lo, hi, s)
  }

  /** `r` are the texts of `at`, in order. */
  ghost predicate Spelled(text: string, r: seq<string>, at: seq<Span>) {
    && |at| == |r|
    && (forall j :: 0 <= j < |at| ==> at[j].lo <= at[j].hi <= |text| && r[j] == text[at[j].lo..at[j].hi])
    && forall i, j :: 0 <= i < j < |at| ==> at[i].hi <= at[j].lo
  }

  lemma Slices(t: string, a: nat, b: nat)
    requires a <= b <= |t|
    ensures t[a..][..b - a] == t[a..b]
    ensures forall i :: a <= i < |t| ==> t[i] == t[a..][i - a]
  {
  }

  lemma StripBounds(t: string, ws: char -> bool) returns (a: nat, b: nat)
    ensures a <= b <= |t| && Strip(t, ws) == t[a..b]
    ensures a < b ==> !ws(t[a]) && !ws(t[b - 1])
    ensures forall i :: 0 <= i < |t| && !(a <= i < b) ==> ws(t[i])
  {
    hide Leading, Trailing;
    a := Leading(t, ws);
    var u := t[a..];
    var n := Trailing(u, ws);
    b := |t| - n;
    Slices(t, a, b);
    assert |u| - n == b - a;
    forall i | b <= i < |t|
      ensures ws(t[i])
    {
      assert t[i] == u[i - a];
    }
    if a < b {
      assert t[b - 1] == u[b - 1 - a];
    }
  }

  lemma StripIsCore(text: string, lo: nat, p: nat, ws: char -> bool) returns (s: Span)
    requires lo <= p <= |text|
    ensures lo <= s.lo <= s.hi <= p && Strip(text[lo..p], ws) == text[s.lo..s.hi]
    ensures s.lo < s.hi ==> Core(text, ws, lo, p, s)
    ensures s.lo == s.hi ==> forall i :: lo <= i < p ==> ws(text[i])
  {
    hide Strip;
    var t := text[lo..p];
    var a, b := StripBounds(t, ws);
    s := Span(lo + a, lo + b);
    forall i | lo <= i < p && !(s.lo <= i < s.hi)
      ensures ws(text[i])
    {
      assert t[i - lo] == text[i];
    }
    assert a < b ==> t[a] == text[s.lo] && t[b - 1] == text[s.hi - 1];
  }

  lemma CoreIsUnique(text: string, ws: char -> bool, lo: nat, p: nat, s: Span, s': Span)
    requires Core(text, ws, lo, p, s) && Core(text, ws, lo, p, s')
    ensures s == s'
  {
  }

  /** What is kept of a stretch is its core, if that is long enough. */
  lemma KeptIsCore(text: string, ws: char -> bool, lo: nat, p: nat) returns (at: seq<Span>)
    requires lo <= p <= |text|
    ensures Spelled(text, Kept(text[lo..p], ws), at)
    ensures forall s :: s in at <==> s.hi - s.lo >= 10 && Core(text, ws, lo, p, s)
  {
    hide Strip, Core;
    var s := StripIsCore(text, lo, p, ws);
    at := if |Strip(text[lo..p], ws)| >= 10 then [s] else [];
    forall s' | Core(text, ws, lo, p, s')
      ensures s' == s
    {
      CoreIsNotBlank(text, ws, lo, p, s');
      if s.lo < s.hi {
        CoreIsUnique(text, ws, lo, p, s, s');
      }
    }
  }

  lemma CoreIsNotBlank(text: string, ws: char -> bool, lo: nat, p: nat, s: Span)
    requires Core(text, ws, lo, p, s)
    ensures lo <= s.lo < p <= |text| && !ws(text[s.lo])
  {
  }

  /** Stripping a stretch between two cuts does not cut into a token. */
  lemma StripKeepsTokens(text: string, spans: seq<Span>, ws: char -> bool, lo: nat, p: nat, s: Span)
    requires Spans(text, spans) && Trimmed(text, spans, ws) && lo <= s.lo < s.hi <= p <= |text|
    requires !(p < |text| && Inside(spans, p)) && !(lo > 0 && Inside(spans, lo - 1))
    requires CutFree(text, spans, lo, p)
    requires forall i :: lo <= i < p && !(s.lo <= i < s.hi) ==> ws(text[i])
    ensures Whole(text, spans, s)
  {
    forall i | 0 <= i < |spans|
      ensures (s.lo <= spans[i].lo && spans[i].hi <= s.hi) || spans[i].hi <= s.lo || s.hi <= spans[i].lo
    {
      if lo < spans[i].hi && spans[i].lo < p {
        assert lo <= spans[i].lo && spans[i].hi <= p;
      }
    }
  }

  lemma CutIsOutside(text: string, spans: seq<Span>, p: nat)
    requires p <= |text|
    ensures p < |text| && Cut(text, spans, p) ==> !Inside(spans, p)
  {
  }

  /** The stretches from `lo` on are the one that ends at `p` and those after `p`. */
  lemma StretchesFrom(text: string, spans: seq<Span>, ws: char -> bool, lo: nat, p: nat, s: Span)
    requires Stretch(text, spans, lo, p)
    ensures Sentence(text, spans, ws, lo, s) <==>
              (s.hi - s.lo >= 10 && Core(text, ws, lo, p, s)) || (p < |text| && Sentence(text, spans, ws, p + 1, s))
  {
    hide Cut, Core;
    if Sentence(text, spans, ws, lo, s) {
      var lo': nat, hi': nat :| lo <= lo' && Stretch(text, spans, lo', hi') && Core(text, ws, lo', hi', s);
      if lo' == lo {
        assert hi' == p;
      } else {
        assert lo' > p;
      }
    }
  }

  /** The pieces are the sentences, in order. */
  lemma {:induction false} PiecesAreSentences(text: string, spans: seq<Span>, ws: char -> bool, lo: nat, p: nat)
    returns (at: seq<Span>)
    requires lo <= p <= |text| && CutFree(text, spans, lo, p) && (lo > 0 ==> Cut(text, spans, lo - 1))
    ensures Spelled(text, Pieces(text, spans, ws, lo, p), at) && forall j :: 0 <= j < |at| ==> lo <= at[j].lo
    ensures forall s :: s in at <==> Sentence(text, spans, ws, lo, s)
    decreases |text| - p
  {
    hide Cut, Kept, Core, Sentence;
    if p < |text| && !Cut(text, spans, p) {
      at := PiecesAreSentences(text, spans, ws, lo, p + 1);
    } else {
      at := KeptIsCore(text, ws, lo, p);
      forall s
        ensures Sentence(text, spans, ws, lo, s) <==>
                s in at || (p < |text| && Sentence(text, spans, ws, p + 1, s))
      {
        StretchesFrom(text, spans, ws, lo, p, s);
      }
      forall s | s in at
        ensures lo <= s.lo && s.hi <= p
      {
        CoreIsInside(text, ws, lo, p, s);
      }
      if p < |text| {
        var rest := PiecesAreSentences(text, spans, ws, p + 1, p + 1);
        JoinSpelled(text, Kept(text[lo..p], ws), at, p, Pieces(text, spans, ws, p + 1, p + 1), rest);
        at := at + rest;
      }
    }
  }

  lemma CoreIsInside(text: string, ws: char -> bool, lo: nat, p: nat, s: Span)
    requires Core(text, ws, lo, p, s)
    ensures lo <= s.lo && s.hi <= p
  {
  }

  lemma JoinSpelled(text: string, r: seq<string>, at: seq<Span>, p: nat, r': seq<string>, at': seq<Span>)
    requires Spelled(text, r, at) && forall s :: s in at ==> s.hi <= p
    requires Spelled(text, r', at') && forall j :: 0 <= j < |at'| ==> p < at'[j].lo
    ensures Spelled(text, r + r', at + at')
  {
    var all := at + at';
    forall j | 0 <= j < |all|
      ensures all[j].lo <= all[j].hi <= |text| && (r + r')[j] == text[all[j].lo..all[j].hi]
    {
      if j < |at| {
        assert all[j] == at[j] && (r + r')[j] == r[j];
      } else {
        assert all[j] == at'[j - |at|] && (r + r')[j] == r'[j - |at|];
      }
    }
    forall i, j | 0 <= i < j < |all|
      ensures all[i].hi <= all[j].lo
    {
      if j < |at| {
        assert all[i] == at[i] && all[j] == at[j];
      } else if i < |at| {
        assert all[i] == at[i] && at[i] in at && all[j] == at'[j - |at|];
      } else {
        assert all[i] == at'[i - |at|] && all[j] == at'[j - |at|];
      }
    }
  }

  lemma SentenceIsWhole(text: string, spans: seq<Span>, ws: char -> bool, s: Span)
    requires Spans(text, spans) && Trimmed(text, spans, ws) && Sentence(text, spans, ws, 0, s)
    ensures Whole(text, spans, s)
  {
    hide Cut, Inside, Whole;
    var lo: nat, hi: nat :| Stretch(text, spans, lo, hi) && Core(text, ws, lo, hi, s);
    CutIsOutside(text, spans, hi);
    if lo > 0 {
      CutIsOutside(text, spans, lo - 1);
    }
    StripKeepsTokens(text, spans, ws, lo, hi, s);
  }

  lemma SentencesAreApart(text: string, spans: seq<Span>, ws: char -> bool, s: Span, s': Span)
    requires Sentence(text, spans, ws, 0, s) && Sentence(text, spans, ws, 0, s') && s.hi <= s'.lo
    ensures Apart(text, spans, s, s')
  {
    hide Cut;
    var lo: nat, hi: nat :| Stretch(text, spans, lo, hi) && Core(text, ws, lo, hi, s);
    var lo': nat, hi': nat :| Stretch(text, spans, lo', hi') && Core(text, ws, lo', hi', s');
    assert hi < lo';
  }

  /** The sentences of a text: in order, the cores of all stretches between cuts that
      have at least ten characters. They are disjoint, have a cut between any two, and
      none splits a token. */
  lemma SentencesAreLocated(text: string, spans: seq<Span>, ws: char -> bool) returns (at: seq<Span>)
    requires Spans(text, spans) && NoFragment(text)
    ensures Spelled(text, KeptParts(SplitFrom(ProtectedText(text, spans), false, ""),
                                    TokenList(Values(text, spans)), ws), at)
    ensures forall s :: s in at <==> Sentence(text, spans, ws, 0, s)
    ensures Trimmed(text, spans, ws) ==> forall j :: 0 <= j < |at| ==> Whole(text, spans, at[j])
    ensures forall j :: 0 <= j < |at| - 1 ==> Apart(text, spans, at[j], at[j + 1])
  {
    hide Whole, Sentence, Apart, Trimmed, KeptParts, SplitFrom;
    SplitsWholeText(text, spans, ws);
    at := PiecesAreSentences(text, spans, ws, 0, 0);
    forall j | 0 <= j < |at|
      ensures Trimmed(text, spans, ws) ==> Whole(text, spans, at[j])
    {
      assert at[j] in at;
      if Trimmed(text, spans, ws) {
        SentenceIsWhole(text, spans, ws, at[j]);
      }
    }
    forall j | 0 <= j < |at| - 1
      ensures Apart(text, spans, at[j], at[j + 1])
    {
      assert at[j] in at && at[j + 1] in at;
      SentencesAreApart(text, spans, ws, at[j], at[j + 1]);
    }
  }

  /** The fragment matters: a text that spells out key 0 before a token does not
      come back. */
  lemma FragmentBreaksRestoring(v: string)
    requires v != "" && v != Key(0)
    ensures var text, n := Key(0) + " " + v, |Key(0)| + 1;
            var spans := [Span(n, n + |v|)];
            && Spans(text, spans)
            && RestoredWith(ProtectedText(text, spans), TokenList(Values(text, spans))) == v + " " + v
            && v + " " + v != text
  {
    hide Key, Replace;
    var text, n := Key(0) + " " + v, |Key(0)| + 1;
    var spans := [Span(n, n + |v|)];
    ProtectNext(text, spans, 0, 0);
    ProtectLast(text, spans, n + |v|);
    assert text[0..n] == Key(0) + " " && text[n + |v|..] == "" && text[n..n + |v|] == v;
    assert ProtectedText(text, spans) == Key(0) + " " + Key(0);
    ReplaceBoth(v);
    assert TokenList(Values(text, spans)) == [(Key(0), v)];
    assert [(Key(0), v)][..0] == [];
    assert (v + " " + v)[..|v|] == v && text[..|Key(0)|] == Key(0);
  }

  lemma ReplaceBoth(v: string)
    ensures Replace(Key(0) + " " + Key(0), Key(0), v) == v + " " + v
  {
    hide Key;
    var k := Key(0);
    var t, u := k + " " + k, " " + k;
    assert t[..|k|] == k && t[|k|..] == u;
    assert u[..|k|][0] == ' ' && u[1..] == k && k[..|k|] == k && k[|k|..] == "";
    assert Replace("", k, v) == "";
    assert Replace(k, k, v) == v + "";
    assert Replace(u, k, v) == " " + Replace(k, k, v);
    assert Replace(t, k, v) == v + Replace(u, k, v);
  }
}
