/** The sentence splitter: terminal punctuation followed by whitespace ends a sentence,
    unless the word before it is a known abbreviation or a short leading number. */
module Sentences {
  import opened Wrappers
  import opened Text
  import opened Lexer
  import opened Underscores
  import opened Splitting

  predicate Ender(ch: Ch)
  {
    ch in {Symbol('.'), Symbol('!'), Symbol('?'), Symbol('\U{061F}'), Symbol('\U{061B}')}
  }

  predicate Closer(ch: Ch)
  {
    ch in {Symbol('"'), Symbol('\''), Symbol('\U{201D}'), Symbol('\U{2019}'), Symbol(']'), Symbol(')')}
  }

  const ABBREVIATIONS: set<string> := {
    "mr.", "mrs.", "ms.", "dr.", "prof.", "sr.", "jr.", "vs.", "etc.", "e.g.", "i.e.", "fig.",
    "corp.", "inc.", "ltd.", "co.", "dept.", "univ.",
    "vb.", "bkz.", "sf.", "av.", "do\U{E7}.", "\U{F6}\U{11F}r.", "g\U{F6}r.", "m\U{FC}h.", "mim.",
    "cad.", "sok.", "apt.", "no.", "tel.", "mad.", "tc."
  }

  /** One match of the boundary pattern: punctuation `start..punctEnd`, then closing marks
      and whitespace up to `end`. */
  datatype Boundary = Boundary(start: nat, punctEnd: nat, end: nat)

  /** The boundary match that starts at position `i`, if there is one. */
  function MatchAt(s: Str, i: nat): (r: Option<Boundary>)
    requires i < |s|
    ensures r.Some? ==>
      i == r.value.start < r.value.punctEnd < r.value.end <= |s| && IsSpace(s[r.value.end - 1])
  {
    if !Ender(s[i]) then None
    else
      var p := i + RunLen(s[i..], Ender);
      var c := p + RunLen(s[p..], Closer);
      var e := c + RunLen(s[c..], IsSpace);
      assert e > c ==> s[e - 1] == s[c..][e - 1 - c];
      if e > c && p > i then Some(Boundary(i, p, e)) else None
  }

  /** All boundary matches from position `i` on, left to right. */
  function Boundaries(s: Str, i: nat): (r: seq<Boundary>)
    requires i <= |s|
    decreases |s| - i
  {
    if i == |s| then []
    else
      match MatchAt(s, i)
      case None => Boundaries(s, i + 1)
      case Some(b) => [b] + Boundaries(s, b.end)
  }

  // ---------------------------------------------------------------------- exceptions

  predicate InkCh(ch: Ch) { !IsSpace(ch) }

  /** `str.split()`: the maximal runs of non-whitespace. */
  function Words(s: Str): (r: seq<Str>)
    decreases |s|
  {
    if s == [] then []
    else if IsSpace(s[0]) then Words(s[1..])
    else
      var n := RunLen(s, InkCh);
      if n == 0 then [] else [s[..n]] + Words(s[n..])
  }

  /** Lower case, for the letters that abbreviations are made of. */
  function LowerChar(c: char): char
  {
    if 'A' <= c <= 'Z' then (c as int + 32) as char
    else if c == '\U{C7}' then '\U{E7}'
    else if c == '\U{D6}' then '\U{F6}'
    else if c == '\U{DC}' then '\U{FC}'
    else if c == '\U{11E}' then '\U{11F}'
    else c
  }

  function Lowered(s: Str): string
  {
    if s == [] then ""
    else [if s[0].Underscore? then '_' else LowerChar(s[0].c)] + Lowered(s[1..])
  }

  /** `str.isdigit`. */
  predicate IsDigits(s: Str)
  {
    s != [] && forall i :: 0 <= i < |s| ==> s[i].Digit? || s[i].ArabicDigit? || s[i].Numeral?
  }

  /** The boundary after `before` with punctuation `punct` does not end a sentence. */
  predicate Protected(before: Str, punct: Str)
  {
    var words := Words(Strip(before));
    punct == [Symbol('.')] && words != [] &&
    (Lowered(words[|words| - 1] + punct) in ABBREVIATIONS ||
     (IsDigits(words[|words| - 1]) && |words| == 1 && |Strip(before)| <= 3))
  }

  // ------------------------------------------------------------------------- cutting

  function NonEmpty(s: Str): (r: seq<Str>) { if s == [] then [] else [s] }

  /** The sentences of `s[last..]`, given the boundaries in it. */
  function Cut(s: Str, bounds: seq<Boundary>, last: nat): (r: seq<Str>)
    requires last <= |s| && Ordered(s, bounds, last)
    decreases |bounds|
  {
    if bounds == [] then NonEmpty(Strip(s[last..]))
    else
      var b := bounds[0];
      OrderedFrom(s, bounds[1..], last, b.end);
      if Protected(s[last..b.start], s[b.start..b.punctEnd]) then Cut(s, bounds[1..], last)
      else NonEmpty(Strip(s[last..b.end])) + Cut(s, bounds[1..], b.end)
  }

  /** Boundaries lie one after the other from `from` on, and each ends in whitespace. */
  predicate Ordered(s: Str, bounds: seq<Boundary>, from: nat)
    decreases |bounds|
  {
    bounds == [] ||
    (from <= bounds[0].start < bounds[0].punctEnd < bounds[0].end <= |s| &&
     IsSpace(s[bounds[0].end - 1]) &&
     Ordered(s, bounds[1..], bounds[0].end))
  }

  lemma OrderedFrom(s: Str, bounds: seq<Boundary>, from: nat, later: nat)
    requires Ordered(s, bounds, later) && from <= later
    ensures Ordered(s, bounds, from)
  {
  }

  lemma {:induction false} BoundariesOrdered(s: Str, i: nat, from: nat)
    requires from <= i <= |s|
    ensures Ordered(s, Boundaries(s, i), from)
    decreases |s| - i
  {
    hide MatchAt;
    if i < |s| {
      match MatchAt(s, i)
      case None =>
        BoundariesOrdered(s, i + 1, from);
      case Some(b) =>
        var rest := Boundaries(s, b.end);
        BoundariesOrdered(s, b.end, b.end);
        assert ([b] + rest)[1..] == rest;
    }
  }

  function SentencesOf(text: Str): (r: seq<Str>)
  {
    var s := Strip(text);
    BoundariesOrdered(s, 0, 0);
    var cut := Cut(s, Boundaries(s, 0), 0);
    if s == [] then [] else if cut != [] then cut else [s]
  }

  /** One step of cutting, seen from inside a loop over the boundaries. */
  lemma CutStep(s: Str, bounds: seq<Boundary>, i: nat, last: nat)
    requires i < |bounds| && last <= |s| && Ordered(s, bounds[i..], last)
    ensures var b := bounds[i];
      last <= b.start <= b.punctEnd <= b.end <= |s| &&
      Ordered(s, bounds[i + 1..], last) && Ordered(s, bounds[i + 1..], b.end) &&
      Cut(s, bounds[i..], last) ==
        if Protected(s[last..b.start], s[b.start..b.punctEnd]) then Cut(s, bounds[i + 1..], last)
        else NonEmpty(Strip(s[last..b.end])) + Cut(s, bounds[i + 1..], b.end)
  {
    hide Strip, Protected;
    assert bounds[i..][0] == bounds[i] && bounds[i..][1..] == bounds[i + 1..];
    OrderedFrom(s, bounds[i + 1..], last, bounds[i].end);
  }

  lemma CutEnd(s: Str, last: nat)
    requires last <= |s|
    ensures Ordered(s, [], last) && Cut(s, [], last) == NonEmpty(Strip(s[last..]))
  {
  }

  method Split(text: Str) returns (sentences: seq<Str>)
    ensures sentences == SentencesOf(text)
  {
    hide Strip, Boundaries, Protected, Cut, Ordered;
    var s := Strip(text);
    if s == [] {
      return [];
    }
    BoundariesOrdered(s, 0, 0);
    var bounds := Boundaries(s, 0);
    sentences := [];
    var last: nat := 0;
    assert bounds[0..] == bounds;
    for i := 0 to |bounds|
      invariant last <= |s| && Ordered(s, bounds[i..], last)
      invariant sentences + Cut(s, bounds[i..], last) == Cut(s, bounds, 0)
    {
      var b := bounds[i];
      CutStep(s, bounds, i, last);
      if Protected(s[last..b.start], s[b.start..b.punctEnd]) {
        continue;
      }
      var sentence := Strip(s[last..b.end]);
      if sentence != [] {
        sentences := sentences + [sentence];
      }
      last := b.end;
    }
    assert bounds[|bounds|..] == [];
    CutEnd(s, last);
    var remaining := Strip(s[last..]);
    if remaining != [] {
      sentences := sentences + [remaining];
    }
    if sentences == [] {
      sentences := [s];
    }
  }

  // --------------------------------------------------------------------- conservation

  lemma ContentAfterSpace(a: Str, b: Str)
    requires a != [] && IsSpace(a[|a| - 1])
    ensures Content(a + b) == Content(a) + Content(b)
  {
    var front, last := a[..|a| - 1], a[|a| - 1..];
    assert a == front + last == [] + front + last;
    ContentAround(front, last, b);
    ContentTrim([], front, last);
    assert [] + front == front;
  }

  lemma ContentsNonEmpty(s: Str)
    ensures Contents(NonEmpty(s)) == Content(s)
    ensures Inks(NonEmpty(s)) == Ink(s)
  {
    if s != [] {
      assert Contents([s]) == Content(s) + Contents([]);
      assert Inks([s]) == Ink(s) + Inks([]);
    }
  }

  lemma {:induction false} CutConserves(s: Str, bounds: seq<Boundary>, last: nat)
    requires last <= |s| && Ordered(s, bounds, last)
    ensures Contents(Cut(s, bounds, last)) == Content(s[last..])
    ensures Inks(Cut(s, bounds, last)) == Ink(s[last..])
    decreases |bounds|
  {
    hide Strip, Protected, Content;
    if bounds == [] {
      ContentsNonEmpty(Strip(s[last..]));
      ContentStrip(s[last..]);
      InkStrip(s[last..]);
    } else {
      var b := bounds[0];
      OrderedFrom(s, bounds[1..], last, b.end);
      if Protected(s[last..b.start], s[b.start..b.punctEnd]) {
        CutConserves(s, bounds[1..], last);
      } else {
        CutConserves(s, bounds[1..], b.end);
        var piece := s[last..b.end];
        assert s[last..] == piece + s[b.end..];
        ContentAfterSpace(piece, s[b.end..]);
        InkAppend(piece, s[b.end..]);
        ContentsNonEmpty(Strip(piece));
        ContentStrip(piece);
        InkStrip(piece);
        ContentsAppend(NonEmpty(Strip(piece)), Cut(s, bounds[1..], b.end));
        InksAppend(NonEmpty(Strip(piece)), Cut(s, bounds[1..], b.end));
      }
    }
  }

  lemma {:induction false} FusesAfterSpace(a: Str, b: Str)
    requires a != [] && IsSpace(a[|a| - 1])
    ensures FusesNothing(a + b) <==> FusesNothing(a) && FusesNothing(b)
  {
    hide FusesNothing;
    var front, last := a[..|a| - 1], a[|a| - 1..];
    assert a == front + last == [] + front + last;
    FusesAround(front, last, b);
    FusesTrim([], front, last);
    assert [] + front == front;
  }

  lemma {:induction false} FusesNonEmpty(s: Str)
    requires FusesNothing(s)
    ensures NoneFuses(NonEmpty(Strip(s)))
  {
    hide FusesNothing, Strip;
    FusesStrip(s);
  }

  lemma {:induction false} CutFuses(s: Str, bounds: seq<Boundary>, last: nat)
    requires last <= |s| && Ordered(s, bounds, last) && FusesNothing(s[last..])
    ensures NoneFuses(Cut(s, bounds, last))
    decreases |bounds|
  {
    hide Strip, Protected, FusesNothing;
    if bounds == [] {
      FusesNonEmpty(s[last..]);
    } else {
      var b := bounds[0];
      OrderedFrom(s, bounds[1..], last, b.end);
      if Protected(s[last..b.start], s[b.start..b.punctEnd]) {
        CutFuses(s, bounds[1..], last);
      } else {
        var piece := s[last..b.end];
        assert s[last..] == piece + s[b.end..];
        FusesAfterSpace(piece, s[b.end..]);
        FusesNonEmpty(piece);
        CutFuses(s, bounds[1..], b.end);
      }
    }
  }

  /** Nothing fuses in the sentences of a text in which nothing fuses. */
  lemma {:induction false} SentencesFuse(text: Str)
    requires FusesNothing(text)
    ensures NoneFuses(SentencesOf(text))
  {
    hide Strip, FusesNothing, Boundaries;
    var s := Strip(text);
    FusesStrip(text);
    BoundariesOrdered(s, 0, 0);
    assert s[0..] == s;
    CutFuses(s, Boundaries(s, 0), 0);
  }

  /** A non-empty stripped text made of characters of `s` and no longer than `s`. */
  ghost predicate PartOf(p: Str, s: Str)
  {
    p != [] && Stripped(p) && |p| <= |s| && forall i :: 0 <= i < |p| ==> p[i] in s
  }

  lemma StripPart(s: Str, lo: nat, hi: nat)
    requires lo <= hi <= |s|
    ensures forall p :: p in NonEmpty(Strip(s[lo..hi])) ==> PartOf(p, s)
  {
    hide Strip;
    var t := s[lo..hi];
    var pre, post := StripSplits(t);
    assert forall i :: 0 <= i < |Strip(t)| ==> Strip(t)[i] == t[|pre| + i] == s[lo + |pre| + i];
  }

  lemma {:induction false} CutParts(s: Str, bounds: seq<Boundary>, last: nat)
    requires last <= |s| && Ordered(s, bounds, last)
    ensures forall p :: p in Cut(s, bounds, last) ==> PartOf(p, s)
    decreases |bounds|
  {
    hide Strip, Protected;
    if bounds == [] {
      StripPart(s, last, |s|);
      assert s[last..] == s[last..|s|];
    } else {
      var b := bounds[0];
      OrderedFrom(s, bounds[1..], last, b.end);
      if Protected(s[last..b.start], s[b.start..b.punctEnd]) {
        CutParts(s, bounds[1..], last);
      } else {
        CutParts(s, bounds[1..], b.end);
        StripPart(s, last, b.end);
      }
    }
  }

  /** Splitting into sentences loses no token and no character: read one after the other, the
      sentences carry exactly the text's tokens; each is a non-empty, stripped part of it. */
  lemma SentencesConserve(text: Str)
    ensures Contents(SentencesOf(text)) == Content(text)
    ensures Inks(SentencesOf(text)) == Ink(text)
    ensures forall p :: p in SentencesOf(text) ==> PartOf(p, text)
    ensures SentencesOf(text) == [] <==> IsBlank(text)
  {
    hide Strip, Content, Boundaries;
    var s := Strip(text);
    var pre, post := StripSplits(text);
    ContentStrip(text);
    InkStrip(text);
    assert text[0..|text|] == text;
    StripPart(text, 0, |text|);
    BoundariesOrdered(s, 0, 0);
    var cut := Cut(s, Boundaries(s, 0), 0);
    CutConserves(s, Boundaries(s, 0), 0);
    CutParts(s, Boundaries(s, 0), 0);
    assert s[0..] == s;
    ContentsNonEmpty(s);
    if s == [] {
      ContentOfBlank(s);
    } else {
      assert s in NonEmpty(s);
      forall p | p in SentencesOf(text) ensures PartOf(p, text) {
        assert PartOf(p, s);
      }
    }
  }

  // --------------------------------------------------------------- where sentences end

  datatype Span = Span(from: nat, to: nat)

  /** The spans cover `s` from position `from` to its end, one after the other. */
  predicate Covers(s: Str, spans: seq<Span>, from: nat)
  {
    if spans == [] then from == |s|
    else spans[0].from == from <= spans[0].to <= |s| && Covers(s, spans[1..], spans[0].to)
  }

  /** The stripped texts of the spans, without the blank ones. */
  function SpanTexts(s: Str, spans: seq<Span>, from: nat): (r: seq<Str>)
    requires Covers(s, spans, from)
    decreases |spans|
  {
    if spans == [] then []
    else NonEmpty(Strip(s[spans[0].from..spans[0].to])) + SpanTexts(s, spans[1..], spans[0].to)
  }

  predicate Inside(b: Boundary, span: Span) { span.from <= b.start && b.end <= span.to }

  /** Boundary `b`, if it lies in the span, ends it unless it is protected there; and a
      protected boundary does not end a span, other than the last one of the text. */
  predicate EndsRightly(s: Str, b: Boundary, span: Span)
    requires b.start <= b.punctEnd <= b.end <= |s|
  {
    Inside(b, span) ==>
      if Protected(s[span.from..b.start], s[b.start..b.punctEnd]) then b.end < span.to || span.to == |s|
      else b.end == span.to
  }

  ghost predicate CutRightly(s: Str, bounds: seq<Boundary>, spans: seq<Span>)
  {
    (forall i :: 0 <= i < |bounds| ==> bounds[i].start <= bounds[i].punctEnd <= bounds[i].end <= |s|) &&
    (forall i, k :: 0 <= i < |bounds| && 0 <= k < |spans| ==> EndsRightly(s, bounds[i], spans[k])) &&
    forall k :: 0 <= k < |spans| ==>
      spans[k].to == |s| || exists i :: 0 <= i < |bounds| && bounds[i].end == spans[k].to
  }

  lemma {:induction false} OrderedPositions(s: Str, bounds: seq<Boundary>, from: nat)
    requires Ordered(s, bounds, from)
    ensures forall i :: 0 <= i < |bounds| ==>
              from <= bounds[i].start < bounds[i].punctEnd < bounds[i].end <= |s|
    decreases |bounds|
  {
    if bounds != [] {
      OrderedPositions(s, bounds[1..], bounds[0].end);
      assert forall i :: 1 <= i < |bounds| ==> bounds[i] == bounds[1..][i - 1];
    }
  }

  lemma {:induction false} CoverPositions(s: Str, spans: seq<Span>, from: nat)
    requires Covers(s, spans, from)
    ensures from <= |s| && forall k :: 0 <= k < |spans| ==> from <= spans[k].from
    ensures forall k :: 1 <= k < |spans| ==> spans[0].to <= spans[k].from
  {
    if spans != [] {
      CoverPositions(s, spans[1..], spans[0].to);
      assert forall k :: 1 <= k < |spans| ==> spans[k] == spans[1..][k - 1];
    }
  }

  /** A protected first boundary changes nothing about where the spans end. */
  lemma {:induction false} ProtectedEndsNothing(s: Str, bounds: seq<Boundary>, last: nat, spans: seq<Span>)
    requires bounds != [] && last <= |s| && Ordered(s, bounds, last)
    requires Protected(s[last..bounds[0].start], s[bounds[0].start..bounds[0].punctEnd])
    requires spans != [] && Covers(s, spans, last) && CutRightly(s, bounds[1..], spans)
    ensures CutRightly(s, bounds, spans)
  {
    hide Protected, Covers;
    var later := bounds[1..];
    OrderedPositions(s, bounds, last);
    OrderedPositions(s, later, bounds[0].end);
    FirstSpan(s, spans, last);
    CoverPositions(s, spans, last);
    assert forall i :: 1 <= i < |bounds| ==> bounds[i] == later[i - 1];
    assert spans[0].to == |s| || bounds[0].end < spans[0].to;
    forall i, k | 0 <= i < |bounds| && 0 <= k < |spans| ensures EndsRightly(s, bounds[i], spans[k]) {
      if i > 0 {
        assert EndsRightly(s, later[i - 1], spans[k]);
      }
    }
    forall k | 0 <= k < |spans| && spans[k].to != |s|
      ensures exists i :: 0 <= i < |bounds| && bounds[i].end == spans[k].to
    {
      var i :| 0 <= i < |later| && later[i].end == spans[k].to;
      assert bounds[i + 1].end == spans[k].to;
    }
  }

  lemma FirstSpan(s: Str, spans: seq<Span>, from: nat)
    requires spans != [] && Covers(s, spans, from)
    ensures spans[0].from == from
  {
  }

  /** An unprotected first boundary ends the span before it. */
  lemma {:induction false} BoundaryEndsSpan(s: Str, bounds: seq<Boundary>, last: nat, rest: seq<Span>)
    requires bounds != [] && last <= |s| && Ordered(s, bounds, last)
    requires !Protected(s[last..bounds[0].start], s[bounds[0].start..bounds[0].punctEnd])
    requires Covers(s, rest, bounds[0].end) && CutRightly(s, bounds[1..], rest)
    ensures CutRightly(s, bounds, [Span(last, bounds[0].end)] + rest)
  {
    hide Protected, Covers;
    var later, spans := bounds[1..], [Span(last, bounds[0].end)] + rest;
    OrderedPositions(s, bounds, last);
    OrderedPositions(s, later, bounds[0].end);
    CoverPositions(s, rest, bounds[0].end);
    assert forall i :: 1 <= i < |bounds| ==> bounds[i] == later[i - 1];
    forall i, k | 0 <= i < |bounds| && 0 <= k < |spans| ensures EndsRightly(s, bounds[i], spans[k]) {
      if i > 0 && k > 0 {
        assert EndsRightly(s, later[i - 1], rest[k - 1]);
      }
    }
    forall k | 0 <= k < |spans| && spans[k].to != |s|
      ensures exists i :: 0 <= i < |bounds| && bounds[i].end == spans[k].to
    {
      if k == 0 {
        assert bounds[0].end == spans[0].to;
      } else {
        var i :| 0 <= i < |later| && later[i].end == rest[k - 1].to;
        assert bounds[i + 1].end == spans[k].to;
      }
    }
  }

  lemma LastSpan(s: Str, last: nat)
    requires last <= |s|
    ensures var spans := [Span(last, |s|)];
      Covers(s, spans, last) && SpanTexts(s, spans, last) == NonEmpty(Strip(s[last..])) && CutRightly(s, [], spans)
  {
    hide Strip;
    assert [Span(last, |s|)][1..] == [] && s[last..|s|] == s[last..];
  }

  lemma {:induction false} CutSpans(s: Str, bounds: seq<Boundary>, last: nat) returns (spans: seq<Span>)
    requires last <= |s| && Ordered(s, bounds, last)
    ensures spans != [] && Covers(s, spans, last)
    ensures SpanTexts(s, spans, last) == Cut(s, bounds, last)
    ensures CutRightly(s, bounds, spans)
    decreases |bounds|
  {
    hide Strip, Protected, CutRightly;
    if bounds == [] {
      LastSpan(s, last);
      spans := [Span(last, |s|)];
    } else {
      var b := bounds[0];
      OrderedFrom(s, bounds[1..], last, b.end);
      if Protected(s[last..b.start], s[b.start..b.punctEnd]) {
        spans := CutSpans(s, bounds[1..], last);
        ProtectedEndsNothing(s, bounds, last, spans);
      } else {
        var rest := CutSpans(s, bounds[1..], b.end);
        BoundaryEndsSpan(s, bounds, last, rest);
        spans := [Span(last, b.end)] + rest;
        assert spans[1..] == rest;
      }
    }
  }

  /** Sentences end exactly where they should: the text is covered by consecutive spans whose
      stripped texts are the sentences; every boundary inside a span ends it unless an
      abbreviation or number protects it there, and spans end nowhere else. */
  lemma SentencesEndAtBoundaries(text: Str) returns (spans: seq<Span>)
    ensures Covers(Strip(text), spans, 0) && CutRightly(Strip(text), Boundaries(Strip(text), 0), spans)
    ensures SentencesOf(text) == SpanTexts(Strip(text), spans, 0)
  {
    hide Strip, Boundaries, Protected, CutRightly;
    var s := Strip(text);
    BoundariesOrdered(s, 0, 0);
    spans := CutSpans(s, Boundaries(s, 0), 0);
    NoBlankText(text);
  }

  /** The splitter's fall-back never applies, and blank text yields no sentence either way. */
  lemma NoBlankText(text: Str)
    ensures Ordered(Strip(text), Boundaries(Strip(text), 0), 0)
    ensures SentencesOf(text) == Cut(Strip(text), Boundaries(Strip(text), 0), 0)
  {
    hide Strip, Boundaries;
    var s := Strip(text);
    var pre, post := StripSplits(text);
    BoundariesOrdered(s, 0, 0);
    NothingToCut();
    if s != [] {
      CutNotEmpty(s, Boundaries(s, 0), 0, 0);
    }
  }

  lemma {:induction false} CutNotEmpty(s: Str, bounds: seq<Boundary>, last: nat, i: nat)
    requires last <= i < |s| && !IsSpace(s[i]) && Ordered(s, bounds, last)
    ensures Cut(s, bounds, last) != []
    decreases |bounds|
  {
    hide Strip, Protected;
    if bounds == [] {
      StripKeepsInk(s[last..], i - last);
    } else {
      var b := bounds[0];
      OrderedFrom(s, bounds[1..], last, b.end);
      if Protected(s[last..b.start], s[b.start..b.punctEnd]) {
        CutNotEmpty(s, bounds[1..], last, i);
      } else if i < b.end {
        StripKeepsInk(s[last..b.end], i - last);
      } else {
        CutNotEmpty(s, bounds[1..], b.end, i);
      }
    }
  }

  lemma NothingToCut()
    ensures Ordered([], Boundaries([], 0), 0) && Cut([], Boundaries([], 0), 0) == []
  {
  }

  lemma StripKeepsInk(s: Str, i: nat)
    requires i < |s| && !IsSpace(s[i])
    ensures Strip(s) != []
  {
    var _, _ := StripSplits(s);
  }
}
