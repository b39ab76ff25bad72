/** Where sentences end, told by the characters of the text alone. */
module SentenceLaws {
  import opened Wrappers
  import opened Text
  import opened Sentences

  // ------------------------------------------------------------------------- boundaries

  predicate EndMark(ch: Ch) { ch.Symbol? && ch.c in {'.', '!', '?', '\U{061F}', '\U{061B}'} }

  predicate CloseMark(ch: Ch)
  {
    ch.Symbol? && ch.c in {'"', '\'', ')', ']', '\U{2019}', '\U{201D}'}
  }

  /** A whole run of end marks from `b.start` to `b.punctEnd`, then closing marks up to `c`, then
      a whole run of whitespace up to `b.end`. */
  predicate StopsAt(s: Str, b: Boundary, c: nat)
  {
    b.start < b.punctEnd <= c < b.end <= |s| &&
    (forall k :: b.start <= k < b.punctEnd ==> EndMark(s[k])) &&
    (forall k :: b.punctEnd <= k < c ==> CloseMark(s[k])) &&
    (forall k :: c <= k < b.end ==> IsSpace(s[k])) &&
    (b.start == 0 || !EndMark(s[b.start - 1])) && (b.end == |s| || !IsSpace(s[b.end]))
  }

  ghost predicate IsStop(s: Str, b: Boundary) { exists c: nat :: StopsAt(s, b, c) }

  lemma {:induction false} RunAt(s: Str, i: nat, j: nat, p: Ch -> bool)
    requires i <= j <= |s| && (forall k :: i <= k < j ==> p(s[k])) && (j < |s| ==> !p(s[j]))
    ensures RunLen(s[i..], p) == j - i
  {
    RunLenUnique(s[i..], p, j - i);
  }

  lemma {:induction false} RunFrom(s: Str, i: nat, p: Ch -> bool)
    requires i <= |s|
    ensures var j := i + RunLen(s[i..], p);
      j <= |s| && (forall k :: i <= k < j ==> p(s[k])) && (j < |s| ==> !p(s[j]))
  {
    var r := s[i..];
    var n := RunLen(r, p);
    forall k | i <= k < i + n ensures p(s[k]) {
      assert s[k] == r[k - i];
    }
    assert i + n < |s| ==> s[i + n] == r[n];
  }

  lemma {:induction false} MarksDiffer(ch: Ch)
    ensures Ender(ch) <==> EndMark(ch)
    ensures Closer(ch) <==> CloseMark(ch)
    ensures !(EndMark(ch) && CloseMark(ch)) && (IsSpace(ch) ==> !EndMark(ch) && !CloseMark(ch))
  {
  }

  lemma {:induction false} AllMarksDiffer(s: Str)
    ensures forall k :: 0 <= k < |s| ==>
      (Ender(s[k]) <==> EndMark(s[k])) && (Closer(s[k]) <==> CloseMark(s[k])) &&
      !(EndMark(s[k]) && CloseMark(s[k])) && (IsSpace(s[k]) ==> !EndMark(s[k]) && !CloseMark(s[k]))
  {
    hide Ender, Closer, EndMark, CloseMark;
    forall k | 0 <= k < |s|
      ensures (Ender(s[k]) <==> EndMark(s[k])) && (Closer(s[k]) <==> CloseMark(s[k])) &&
        !(EndMark(s[k]) && CloseMark(s[k])) && (IsSpace(s[k]) ==> !EndMark(s[k]) && !CloseMark(s[k]))
    {
      MarksDiffer(s[k]);
    }
  }

  /** At the start of a run of end marks, the pattern matches exactly what stops there. */
  lemma {:induction false} MatchIsStop(s: Str, i: nat)
    requires i < |s| && (i == 0 || !EndMark(s[i - 1]))
    ensures MatchAt(s, i).Some? ==> IsStop(s, MatchAt(s, i).value)
  {
    hide Ender, Closer, EndMark, CloseMark, RunLen;
    AllMarksDiffer(s);
    if MatchAt(s, i).Some? {
      var p := i + RunLen(s[i..], Ender);
      RunFrom(s, i, Ender);
      RunFrom(s, p, Closer);
      var c := p + RunLen(s[p..], Closer);
      RunFrom(s, c, IsSpace);
      assert StopsAt(s, MatchAt(s, i).value, c);
    }
  }

  lemma {:induction false} StopIsMatch(s: Str, b: Boundary)
    requires IsStop(s, b)
    ensures MatchAt(s, b.start) == Some(b)
  {
    hide Ender, Closer, EndMark, CloseMark, RunLen;
    AllMarksDiffer(s);
    var c: nat :| StopsAt(s, b, c);
    StopRuns(s, b, c);
    assert Ender(s[b.start]);
  }

  lemma {:induction false} StopRuns(s: Str, b: Boundary, c: nat)
    requires StopsAt(s, b, c)
    ensures RunLen(s[b.start..], Ender) == b.punctEnd - b.start
    ensures RunLen(s[b.punctEnd..], Closer) == c - b.punctEnd
    ensures RunLen(s[c..], IsSpace) == b.end - c
  {
    hide Ender, Closer, EndMark, CloseMark, RunLen;
    AllMarksDiffer(s);
    assert IsSpace(s[c]) && (b.punctEnd < c ==> CloseMark(s[b.punctEnd]));
    RunAt(s, b.start, b.punctEnd, Ender);
    RunAt(s, b.punctEnd, c, Closer);
    RunAt(s, c, b.end, IsSpace);
  }

  /** If the pattern fails at an end mark, it fails at the next one of the same run. */
  lemma {:induction false} FailureGoesOn(s: Str, i: nat)
    requires 0 < i < |s| && EndMark(s[i - 1]) && MatchAt(s, i - 1).None?
    ensures MatchAt(s, i).None?
  {
    hide Closer, RunLen;
    if Ender(s[i]) {
      RunFrom(s, i, Ender);
      RunAt(s, i - 1, i + RunLen(s[i..], Ender), Ender);
    }
  }

  /** No stop begins inside another. */
  lemma {:induction false} StopsApart(s: Str, a: Boundary, b: Boundary)
    requires IsStop(s, a) && IsStop(s, b) && a.start < b.start
    ensures a.end <= b.start
  {
    hide Ender, Closer, EndMark, CloseMark;
    AllMarksDiffer(s);
    var c: nat :| StopsAt(s, a, c);
    var d: nat :| StopsAt(s, b, d);
    assert EndMark(s[b.start]) && !EndMark(s[b.start - 1]);
  }

  lemma {:induction false} BoundariesFrom(s: Str, i: nat, b: Boundary)
    requires i <= |s| && (i == 0 || !EndMark(s[i - 1]) || MatchAt(s, i - 1).None?)
    ensures b in Boundaries(s, i) <==> IsStop(s, b) && i <= b.start
    decreases |s| - i
  {
    hide MatchAt, EndMark, IsStop;
    if i == |s| {
      StopInside(s, b);
    } else {
      if i > 0 && EndMark(s[i - 1]) {
        FailureGoesOn(s, i);
      } else {
        MatchIsStop(s, i);
      }
      if IsStop(s, b) {
        StopIsMatch(s, b);
      }
      match MatchAt(s, i)
      case None =>
        BoundariesFrom(s, i + 1, b);
      case Some(a) =>
        SpaceIsNoMark(s, a);
        BoundariesFrom(s, a.end, b);
        if IsStop(s, b) && i < b.start {
          StopsApart(s, a, b);
        }
    }
  }

  lemma {:induction false} SpaceIsNoMark(s: Str, a: Boundary)
    requires IsStop(s, a)
    ensures a.start < a.end <= |s| && !EndMark(s[a.end - 1])
  {
    var c: nat :| StopsAt(s, a, c);
    assert IsSpace(s[a.end - 1]);
  }

  lemma {:induction false} StopInside(s: Str, b: Boundary)
    ensures IsStop(s, b) ==> b.start < |s|
  {
  }

  /** The boundaries of a text are exactly the whole runs of end marks that are followed by any
      closing marks and then whitespace. */
  lemma {:induction false} BoundariesExactly(s: Str, b: Boundary)
    ensures b in Boundaries(s, 0) <==> IsStop(s, b)
  {
    hide Boundaries, IsStop;
    BoundariesFrom(s, 0, b);
  }

  // --------------------------------------------------------------------------- exceptions

  /** The last word of a text stands at `lo` up to `hi`. */
  predicate LastWord(s: Str, lo: nat, hi: nat)
  {
    lo < hi <= |s| && (forall k :: lo <= k < hi ==> !IsSpace(s[k])) &&
    (forall k :: hi <= k < |s| ==> IsSpace(s[k])) && (lo == 0 || IsSpace(s[lo - 1]))
  }

  const DOT: Str := [Symbol('.')]

  predicate DigitsOnly(s: Str)
  {
    forall k :: 0 <= k < |s| ==> s[k].Digit? || s[k].ArabicDigit? || s[k].Numeral?
  }

  /** What does not end a sentence: a single dot after an abbreviation, or after a number of at
      most three digits that is all the sentence has so far. */
  ghost predicate KeptOpen(segment: Str, marks: Str)
  {
    marks == DOT && exists lo: nat, hi: nat :: KeepsOpen(segment, lo, hi)
  }

  predicate KeepsOpen(segment: Str, lo: nat, hi: nat)
  {
    LastWord(segment, lo, hi) &&
    (Lowered(segment[lo..hi] + DOT) in ABBREVIATIONS ||
     (IsBlank(segment[..lo]) && hi - lo <= 3 && DigitsOnly(segment[lo..hi])))
  }

  lemma {:induction false} WordsSkip(blank: Str, s: Str)
    requires IsBlank(blank)
    ensures Words(blank + s) == Words(s)
  {
    if blank == [] {
      assert blank + s == s;
    } else {
      assert (blank + s)[1..] == blank[1..] + s;
      WordsSkip(blank[1..], s);
    }
  }

  lemma {:induction false} WordsOfWord(w: Str, rest: Str)
    requires w != [] && (forall k :: 0 <= k < |w| ==> !IsSpace(w[k])) && (rest == [] || IsSpace(rest[0]))
    ensures Words(w + rest) == [w] + Words(rest)
  {
    var s := w + rest;
    RunLenUnique(s, InkCh, |w|);
    assert s[..|w|] == w && s[|w|..] == rest;
  }

  lemma {:induction false} WordsNone(s: Str)
    ensures Words(s) == [] <==> IsBlank(s)
    decreases |s|
  {
    if s != [] {
      if IsSpace(s[0]) {
        WordsNone(s[1..]);
        assert IsBlank(s[1..]) ==> forall k :: 1 <= k < |s| ==> s[k] == s[1..][k - 1];
      } else {
        FirstWord(s);
      }
    }
  }

  lemma {:induction false} FirstWord(s: Str)
    requires s != [] && !IsSpace(s[0])
    ensures Words(s) != []
  {
    assert InkCh(s[0]);
  }

  lemma {:induction false} NoWords()
    ensures Words([]) == []
  {
  }

  lemma {:induction false} FirstIsInk(s: Str)
    requires s != [] && !IsSpace(s[0])
    ensures RunLen(s, InkCh) > 0
  {
  }

  /** Words are found piecewise wherever the right part is empty or starts with whitespace. */
  lemma {:induction false} WordsAppend(a: Str, b: Str)
    requires b == [] || IsSpace(b[0]) || a == [] || IsSpace(a[|a| - 1])
    ensures Words(a + b) == Words(a) + Words(b)
    decreases |a|
  {
    hide Words;
    NoWords();
    if a == [] {
      assert a + b == b;
    } else if IsSpace(a[0]) {
      assert a + b == a[..1] + (a[1..] + b) && a == a[..1] + a[1..];
      WordsSkip(a[..1], a[1..] + b);
      WordsSkip(a[..1], a[1..]);
      WordsAppend(a[1..], b);
    } else {
      var n := FirstWordEnds(a);
      var w, rest := a[..n], a[n..];
      assert a == w + rest;
      WordsOfWord(w, rest);
      WordsAppend(rest, b);
      WordThenRest(w, rest, b);
    }
  }

  /** Where the first word of a text ends. */
  lemma {:induction false} FirstWordEnds(a: Str) returns (n: nat)
    requires a != [] && !IsSpace(a[0])
    ensures 0 < n <= |a| && (forall k :: 0 <= k < n ==> !IsSpace(a[k])) && (n < |a| ==> IsSpace(a[n]))
  {
    hide RunLen;
    n := RunLen(a, InkCh);
    FirstIsInk(a);
  }

  lemma {:induction false} WordThenRest(w: Str, rest: Str, b: Str)
    requires w != [] && (forall k :: 0 <= k < |w| ==> !IsSpace(w[k])) && (rest == [] || IsSpace(rest[0]))
    requires rest == [] ==> b == [] || IsSpace(b[0])
    ensures Words(w + rest + b) == [w] + Words(rest + b)
  {
    hide Words;
    assert w + rest + b == w + (rest + b);
    assert rest == [] ==> rest + b == b;
    assert rest != [] ==> (rest + b)[0] == rest[0];
    WordsOfWord(w, rest + b);
  }

  lemma {:induction false} WordsStrip(s: Str)
    ensures Words(Strip(s)) == Words(s)
  {
    hide Strip, Words;
    var pre, post := StripSplits(s);
    var body := Strip(s);
    assert pre + body + post == pre + (body + post);
    WordsSkip(pre, body + post);
    WordsAppend(body, post);
    WordsNone(post);
  }

  /** The last word of the list of words, where it stands in the text. */
  lemma {:induction false} LastOfWords(s: Str, lo: nat, hi: nat)
    requires LastWord(s, lo, hi)
    ensures Words(s) == Words(s[..lo]) + [s[lo..hi]]
  {
    hide Words;
    assert s == s[..lo] + (s[lo..hi] + s[hi..]);
    WordsAppend(s[..lo], s[lo..hi] + s[hi..]);
    WordsOfWord(s[lo..hi], s[hi..]);
    WordsNone(s[hi..]);
  }

  lemma {:induction false} LastWordExists(s: Str) returns (lo: nat, hi: nat)
    requires !IsBlank(s)
    ensures LastWord(s, lo, hi)
    decreases |s|
  {
    var n := |s| - 1;
    if IsSpace(s[n]) {
      assert exists k :: 0 <= k < n && !IsSpace(s[k]);
      assert !IsBlank(s[..n]) by {
        var k :| 0 <= k < n && !IsSpace(s[k]);
        assert s[..n][k] == s[k];
      }
      lo, hi := LastWordExists(s[..n]);
    } else {
      hi := |s|;
      lo := n;
      while lo > 0 && !IsSpace(s[lo - 1])
        invariant lo < hi == |s| && forall k :: lo <= k < hi ==> !IsSpace(s[k])
      {
        lo := lo - 1;
      }
    }
  }

  lemma {:induction false} LastWordUnique(s: Str, lo: nat, hi: nat, lo': nat, hi': nat)
    requires LastWord(s, lo, hi) && LastWord(s, lo', hi')
    ensures lo == lo' && hi == hi'
  {
    assert !IsSpace(s[hi - 1]) && !IsSpace(s[hi' - 1]);
    if lo < lo' {
      assert false;
    }
  }

  /** A stripped word is as long as the text without its blanks. */
  lemma {:induction false} OnlyWord(s: Str, lo: nat, hi: nat)
    requires LastWord(s, lo, hi) && IsBlank(s[..lo])
    ensures Strip(s) == s[lo..hi]
  {
    hide Strip;
    assert s == s[..lo] + s[lo..hi] + s[hi..];
    StripUnique(s[..lo], s[lo..hi], s[hi..]);
  }

  lemma {:induction false} ProtectedByLast(before: Str, punct: Str, lo: nat, hi: nat)
    requires LastWord(before, lo, hi)
    ensures Protected(before, punct) <==> punct == DOT && KeepsOpen(before, lo, hi)
  {
    hide Strip, Words, Lowered, IsBlank;
    var w := before[lo..hi];
    WordsStrip(before);
    LastOfWords(before, lo, hi);
    WordsNone(before[..lo]);
    var words := Words(before);
    assert words[|words| - 1] == w;
    if IsBlank(before[..lo]) {
      OnlyWord(before, lo, hi);
    }
    assert DigitsOnly(w) <==> IsDigits(w);
  }

  /** The two exceptions, by the last word before the dot. */
  lemma {:induction false} ProtectedExactly(before: Str, punct: Str)
    ensures Protected(before, punct) <==> KeptOpen(before, punct)
  {
    hide Strip, Words, Lowered, IsBlank;
    WordsStrip(before);
    WordsNone(before);
    if !IsBlank(before) {
      var lo, hi := LastWordExists(before);
      ProtectedByLast(before, punct, lo, hi);
      if KeptOpen(before, punct) {
        var lo': nat, hi': nat :| KeepsOpen(before, lo', hi');
        LastWordUnique(before, lo, hi, lo', hi');
      }
    } else if KeptOpen(before, punct) {
      var lo: nat, hi: nat :| KeepsOpen(before, lo, hi);
      BlankHasNoWord(before, lo, hi);
      assert false;
    }
  }

  lemma {:induction false} BlankHasNoWord(s: Str, lo: nat, hi: nat)
    requires LastWord(s, lo, hi)
    ensures !IsBlank(s)
  {
    assert !IsSpace(s[lo]);
  }

  // ---------------------------------------------------------------------------- sentences

  /** A stop inside a span ends it, unless the dot keeps the sentence open; then it does not,
      except at the very end of the text. */
  ghost predicate StopEnds(s: Str, b: Boundary, span: Span)
  {
    IsStop(s, b) && span.from <= b.start && b.end <= span.to <= |s| ==>
      b.start < b.punctEnd <= b.end &&
      if KeptOpen(s[span.from..b.start], s[b.start..b.punctEnd]) then b.end < span.to || span.to == |s|
      else b.end == span.to
  }

  ghost predicate EndsAtStop(s: Str, span: Span) { exists b :: IsStop(s, b) && b.end == span.to }

  /** The sentences of a text, exactly: consecutive spans cover it whose stripped texts are the
      sentences; each span but the last ends at a stop, and a stop inside a span ends it unless
      an abbreviation or a short number keeps the sentence open. */
  lemma {:induction false} SentencesExactly(text: Str) returns (spans: seq<Span>)
    ensures Covers(Strip(text), spans, 0) && SentencesOf(text) == SpanTexts(Strip(text), spans, 0)
    ensures forall k :: 0 <= k < |spans| ==> spans[k].to == |Strip(text)| || EndsAtStop(Strip(text), spans[k])
    ensures forall b, k :: 0 <= k < |spans| ==> StopEnds(Strip(text), b, spans[k])
  {
    hide Strip, Boundaries, Protected, KeptOpen, IsStop, Covers, SpanTexts, SentencesOf;
    var s := Strip(text);
    var bounds := Boundaries(s, 0);
    spans := SentencesEndAtBoundaries(text);
    forall k | 0 <= k < |spans| && spans[k].to != |s| ensures EndsAtStop(s, spans[k]) {
      var i :| 0 <= i < |bounds| && bounds[i].end == spans[k].to;
      BoundariesExactly(s, bounds[i]);
    }
    forall b, k | 0 <= k < |spans| ensures StopEnds(s, b, spans[k]) {
      if IsStop(s, b) && spans[k].from <= b.start && b.end <= spans[k].to <= |s| {
        BoundariesExactly(s, b);
        var i :| 0 <= i < |bounds| && bounds[i] == b;
        assert EndsRightly(s, bounds[i], spans[k]);
        StopOrdered(s, b);
        ProtectedExactly(s[spans[k].from..b.start], s[b.start..b.punctEnd]);
      }
    }
  }

  lemma {:induction false} StopOrdered(s: Str, b: Boundary)
    requires IsStop(s, b)
    ensures b.start < b.punctEnd <= b.end <= |s|
  {
  }

  // -------------------------------------------------------------------------- one dot

  /** No end mark has whitespace after it. */
  ghost predicate NoStopInside(s: Str)
  {
    forall k, j :: 0 <= k < j < |s| && EndMark(s[k]) ==> !IsSpace(s[j])
  }

  lemma {:induction false} OnlyStop(a: Str, b: Str, d: Boundary)
    requires a != [] && b != [] && Stripped(b) && (forall k :: 0 <= k < |a| ==> !EndMark(a[k])) && NoStopInside(b)
    ensures IsStop(a + DOT + [BLANK] + b, d) <==> d == Boundary(|a|, |a| + 1, |a| + 2)
  {
    hide EndMark, CloseMark, NoStopInside;
    var s, n := a + DOT + [BLANK] + b, |a|;
    MarksDiffer(s[n]);
    MarksDiffer(BLANK);
    DotEnds();
    assert s[n] == Symbol('.') && s[n + 1] == BLANK && s[n + 2] == b[0];
    assert StopsAt(s, Boundary(n, n + 1, n + 2), n + 1);
    if IsStop(s, d) {
      var c: nat :| StopsAt(s, d, c);
      DotAround(a, b);
      StopsInDot(s, n, d, c);
    }
  }

  lemma {:induction false} DotEnds()
    ensures EndMark(Symbol('.')) && !EndMark(BLANK) && !CloseMark(BLANK)
  {
  }

  /** The characters around the dot. */
  ghost predicate DotAt(s: Str, n: nat)
  {
    n + 2 < |s| && EndMark(s[n]) && s[n + 1] == BLANK && !IsSpace(s[n + 2]) &&
    (forall k :: 0 <= k < n ==> !EndMark(s[k])) &&
    forall k, j :: n + 2 <= k < j < |s| && EndMark(s[k]) ==> !IsSpace(s[j])
  }

  lemma {:induction false} DotAround(a: Str, b: Str)
    requires b != [] && Stripped(b) && (forall k :: 0 <= k < |a| ==> !EndMark(a[k])) && NoStopInside(b)
    ensures DotAt(a + DOT + [BLANK] + b, |a|)
  {
    hide EndMark;
    var s, n := a + DOT + [BLANK] + b, |a|;
    DotEnds();
    forall k, j | n + 2 <= k < j < |s| && EndMark(s[k]) ensures !IsSpace(s[j]) {
      assert s[k] == b[k - n - 2] && s[j] == b[j - n - 2];
    }
  }

  lemma {:induction false} StopsInDot(s: Str, n: nat, d: Boundary, c: nat)
    requires DotAt(s, n) && StopsAt(s, d, c)
    ensures d == Boundary(n, n + 1, n + 2)
  {
    hide EndMark, CloseMark;
    DotEnds();
    assert EndMark(s[d.start]) && IsSpace(s[c]);
    assert d.start == n;
    assert !EndMark(s[n + 1]) && !CloseMark(s[n + 1]) && !IsSpace(s[n + 2]);
  }

  lemma {:induction false} OneBoundary(s: Str, bounds: seq<Boundary>, d: Boundary, from: nat)
    requires Ordered(s, bounds, from) && forall b :: b in bounds <==> b == d
    ensures bounds == [d]
  {
    OrderedPositions(s, bounds, from);
    assert d in bounds;
    assert bounds[0] in bounds;
    if |bounds| > 1 {
      FirstTwo(s, bounds, from);
      assert false;
    }
  }

  lemma {:induction false} FirstTwo(s: Str, bounds: seq<Boundary>, from: nat)
    requires Ordered(s, bounds, from) && |bounds| > 1
    ensures bounds[0] in bounds && bounds[1] in bounds && bounds[0].start < bounds[1].start
  {
    assert bounds[1] == bounds[1..][0];
  }

  lemma {:induction false} CutOnce(s: Str, d: Boundary)
    requires d.start < d.punctEnd < d.end <= |s| && IsSpace(s[d.end - 1])
    ensures Ordered(s, [d], 0)
    ensures Cut(s, [d], 0) ==
      if Protected(s[..d.start], s[d.start..d.punctEnd]) then NonEmpty(Strip(s))
      else NonEmpty(Strip(s[..d.end])) + NonEmpty(Strip(s[d.end..]))
  {
    hide Strip, Protected;
    assert [d][1..] == [] && [d][0..] == [d] && s[0..d.start] == s[..d.start] && s[0..d.end] == s[..d.end];
    assert s[0..] == s;
    CutStep(s, [d], 0, 0);
    CutEnd(s, 0);
    CutEnd(s, d.end);
  }

  /** A text with one dot in it, followed by a blank, is two sentences unless the dot belongs to an
      abbreviation or a short number. */
  lemma {:induction false} OneDot(a: Str, b: Str)
    requires a != [] && Stripped(a) && b != [] && Stripped(b)
    requires (forall k :: 0 <= k < |a| ==> !EndMark(a[k])) && NoStopInside(b)
    ensures SentencesOf(a + DOT + [BLANK] + b) ==
      if KeptOpen(a, DOT) then [a + DOT + [BLANK] + b] else [a + DOT, b]
  {
    hide Boundaries, Strip, Protected, KeptOpen, EndMark, NoStopInside, IsStop, Cut;
    var s, d := a + DOT + [BLANK] + b, Boundary(|a|, |a| + 1, |a| + 2);
    StripId(s);
    forall e ensures e in Boundaries(s, 0) <==> e == d {
      BoundariesExactly(s, e);
      OnlyStop(a, b, e);
    }
    BoundariesOrdered(s, 0, 0);
    OneBoundary(s, Boundaries(s, 0), d, 0);
    assert s[d.end - 1] == BLANK;
    CutOnce(s, d);
    NoBlankText(s);
    assert s[..|a|] == a && s[|a|..|a| + 1] == DOT && s[|a| + 2..] == b;
    ProtectedExactly(a, DOT);
    assert s[..|a| + 2] == [] + (a + DOT) + [BLANK];
    StripUnique([], a + DOT, [BLANK]);
    StripId(b);
  }

  // ------------------------------------------------------------------------------- samples

  /** The characters of an ordinary English text. */
  function Plain(text: string): (r: Str)
  {
    seq(|text|, i requires 0 <= i < |text| => PlainChar(text[i]))
  }

  function PlainChar(c: char): (ch: Ch)
  {
    if c == ' ' then BLANK
    else if '0' <= c <= '9' then Digit(c)
    else if 'a' <= c <= 'z' || 'A' <= c <= 'Z' then Letter(c)
    else Symbol(c)
  }

  lemma {:induction false} TwoSentences()
    ensures SentencesOf(Plain("Hello there. How are you?")) == [Plain("Hello there."), Plain("How are you?")]
  {
    hide SentencesOf, KeptOpen;
    var a, b := Plain("Hello there"), Plain("How are you?");
    assert Plain("Hello there. How are you?") == a + DOT + [BLANK] + b;
    assert Plain("Hello there.") == a + DOT;
    OneDot(a, b);
    ThereEnds();
  }

  lemma {:induction false} ThereEnds()
    ensures !KeptOpen(Plain("Hello there"), DOT)
  {
    hide Lowered, LastWord;
    var a := Plain("Hello there");
    ThereIsLast(a);
    if KeptOpen(a, DOT) {
      var lo: nat, hi: nat :| KeepsOpen(a, lo, hi);
      LastWordUnique(a, lo, hi, 6, 11);
      LoweredThere(a[6..11] + DOT);
      assert false;
    }
  }

  lemma {:induction false} ThereIsLast(a: Str)
    requires a == Plain("Hello there")
    ensures LastWord(a, 6, 11) && !DigitsOnly(a[6..11]) && a[6..11] + DOT == Plain("there.")
  {
    assert a[6..11] == Plain("there");
    assert a[6..11][0] == Letter('t');
  }

  lemma {:induction false} LoweredThere(w: Str)
    requires w == Plain("there.")
    ensures |Lowered(w)| == 6 && Lowered(w) !in ABBREVIATIONS
  {
    LoweredAt(w);
    assert Lowered(w)[1] == 'h' && Lowered(w)[0] == 't';
  }

  lemma {:induction false} LoweredAt(w: Str)
    ensures |Lowered(w)| == |w|
    ensures forall i :: 0 <= i < |w| ==> Lowered(w)[i] == if w[i].Underscore? then '_' else LowerChar(w[i].c)
  {
    if w != [] {
      LoweredAt(w[1..]);
    }
  }

  const CAPITALS := "ABCDEFGHIJKLMNOPQRSTUVWXYZ\U{C7}\U{D6}\U{DC}\U{11E}"
  const SMALL_LETTERS := "abcdefghijklmnopqrstuvwxyz\U{E7}\U{F6}\U{FC}\U{11F}"

  /** Lower case letter by letter, for the letters that abbreviations are made of. */
  lemma {:induction false} LowersLetters(c: char)
    ensures if exists i :: 0 <= i < |CAPITALS| && CAPITALS[i] == c
      then exists i :: 0 <= i < |CAPITALS| && CAPITALS[i] == c && LowerChar(c) == SMALL_LETTERS[i]
      else LowerChar(c) == c
  {
    assert |CAPITALS| == 30 == |SMALL_LETTERS|;
    if 'A' <= c <= 'Z' {
      var i := c as int - 'A' as int;
      assert CAPITALS[i] == c && SMALL_LETTERS[i] == LowerChar(c);
    } else {
      assert CAPITALS[26] == '\U{C7}' && CAPITALS[27] == '\U{D6}';
      assert CAPITALS[28] == '\U{DC}' && CAPITALS[29] == '\U{11E}';
      assert forall i :: 0 <= i < 26 ==> CAPITALS[i] == ('A' as int + i) as char;
    }
  }

  lemma {:induction false} AbbreviationKeepsOpen()
    ensures SentencesOf(Plain("Dr. Smith left.")) == [Plain("Dr. Smith left.")]
  {
    hide SentencesOf, Lowered;
    var a, b := Plain("Dr"), Plain("Smith left.");
    assert Plain("Dr. Smith left.") == a + DOT + [BLANK] + b;
    OneDot(a, b);
    LoweredAt(a + DOT);
    assert a[0..2] == a;
    assert Lowered(a + DOT) == "dr.";
    assert KeepsOpen(a, 0, 2);
  }
}
