/** Which texts are split without losing, adding or changing a token, exactly. */
module Conservation {
  import opened Text
  import opened Lexer
  import opened Underscores
  import opened Splitting
  import opened Sentences
  import opened Items
  import opened Blocks
  import opened BlockLaws
  import opened WindowTokens
  import MuteText

  // ---------------------------------------------------------------- sentences of a text

  function AllSentences(paragraphs: seq<Str>): (r: seq<Str>)
  {
    if paragraphs == [] then [] else SentencesOf(paragraphs[0]) + AllSentences(paragraphs[1..])
  }

  /** The sentences of a text, paragraph by paragraph. */
  function TextSentences(text: Str): (r: seq<Str>) { AllSentences(Paragraphs(Strip(text))) }

  /** A stripped text that is one paragraph. */
  predicate IsParagraph(p: Str) { p != [] && Stripped(p) && Paragraphs(p) == [p] }

  ghost predicate AllParagraphs(ps: seq<Str>) { forall i :: 0 <= i < |ps| ==> IsParagraph(ps[i]) }

  lemma {:induction false} ParagraphsAre(t: Str)
    ensures AllParagraphs(Paragraphs(t))
  {
    hide Paragraphs;
    forall i | 0 <= i < |Paragraphs(t)| ensures IsParagraph(Paragraphs(t)[i]) {
      MuteText.ParagraphsOnce(t, Paragraphs(t)[i]);
    }
  }

  lemma {:induction false} AllSentencesConserve(paragraphs: seq<Str>)
    ensures Contents(AllSentences(paragraphs)) == Contents(paragraphs)
  {
    hide SentencesOf, Content;
    if paragraphs != [] {
      SentencesConserve(paragraphs[0]);
      AllSentencesConserve(paragraphs[1..]);
      ContentsAppend(SentencesOf(paragraphs[0]), AllSentences(paragraphs[1..]));
    }
  }

  /** The sentences carry the text's tokens, in order. */
  lemma {:induction false} TextSentencesConserve(text: Str)
    ensures Contents(TextSentences(text)) == Content(text)
  {
    hide Strip, Paragraphs, Content, Contents;
    ContentStrip(text);
    ParagraphsConserve(Strip(text));
    AllSentencesConserve(Paragraphs(Strip(text)));
  }

  lemma {:induction false} AllSentencesFuse(paragraphs: seq<Str>)
    requires NoneFuses(paragraphs)
    ensures NoneFuses(AllSentences(paragraphs))
  {
    hide SentencesOf, FusesNothing;
    if paragraphs != [] {
      SentencesFuse(paragraphs[0]);
      AllSentencesFuse(paragraphs[1..]);
    }
  }

  lemma {:induction false} TextSentencesFuse(text: Str)
    requires FusesNothing(text)
    ensures NoneFuses(TextSentences(text))
  {
    hide Strip, Paragraphs, FusesNothing, NoneFuses;
    FusesStrip(text);
    ParagraphsConserve(Strip(text));
    AllSentencesFuse(Paragraphs(Strip(text)));
  }

  // --------------------------------------------------------------------- oversized parts

  lemma {:induction false} TotalOfContents(parts: seq<Str>)
    ensures SumCost(Contents(parts)) == TotalCount(parts)
  {
    hide Content;
    if parts != [] {
      TotalOfContents(parts[1..]);
      SumCostAppend(Content(parts[0]), Contents(parts[1..]));
    }
  }

  /** No part of a text costs more than the text. */
  lemma {:induction false} PartCount(parts: seq<Str>, text: Str, i: nat)
    requires Contents(parts) == Content(text) && i < |parts|
    ensures Count(parts[i]) <= Count(text)
  {
    hide Content, Contents;
    TotalOfContents(parts);
    CountMember(parts, i);
  }

  ghost predicate AnyHuge(cfg: ChunkingConfig, parts: seq<Str>)
  {
    exists i :: 0 <= i < |parts| && Huge(cfg, parts[i])
  }

  lemma {:induction false} HugeSentence(cfg: ChunkingConfig, p: Str)
    requires AnyHuge(cfg, SentencesOf(p))
    ensures Huge(cfg, p)
  {
    hide SentencesOf, Content, Contents, SumCost, Ink, Inks;
    var i :| 0 <= i < |SentencesOf(p)| && Huge(cfg, SentencesOf(p)[i]);
    SentencesConserve(p);
    PartCount(SentencesOf(p), p, i);
    assert PartOf(SentencesOf(p)[i], p);
  }

  lemma {:induction false} HugeAmong(cfg: ChunkingConfig, paragraphs: seq<Str>)
    requires AnyHuge(cfg, AllSentences(paragraphs))
    ensures AnyHuge(cfg, paragraphs)
  {
    hide SentencesOf, Huge;
    var first, rest := SentencesOf(paragraphs[0]), AllSentences(paragraphs[1..]);
    var i :| 0 <= i < |first + rest| && Huge(cfg, (first + rest)[i]);
    if i < |first| {
      HugeSentence(cfg, paragraphs[0]);
    } else {
      assert Huge(cfg, rest[i - |first|]);
      HugeAmong(cfg, paragraphs[1..]);
      var k :| 0 <= k < |paragraphs[1..]| && Huge(cfg, paragraphs[1..][k]);
      assert paragraphs[k + 1] == paragraphs[1..][k];
    }
  }

  /** A text with an oversized sentence is oversized itself. */
  lemma {:induction false} HugeText(cfg: ChunkingConfig, text: Str)
    requires AnyHuge(cfg, TextSentences(text))
    ensures Huge(cfg, Strip(text))
  {
    hide Strip, Paragraphs, AllSentences, Content, Contents, SumCost, Ink, Inks;
    var t := Strip(text);
    HugeAmong(cfg, Paragraphs(t));
    var i :| 0 <= i < |Paragraphs(t)| && Huge(cfg, Paragraphs(t)[i]);
    ParagraphsConserve(t);
    PartCount(Paragraphs(t), t, i);
    MuteText.ParagraphsOnce(t, Paragraphs(t)[i]);
  }

  // ------------------------------------------------------------------ tokens, exactly

  /** Every oversized sentence keeps its tokens in its windows. */
  ghost predicate HugeSurvive(cfg: ChunkingConfig, sents: seq<Str>)
    requires cfg.maxChars > 0
  {
    forall i :: 0 <= i < |sents| && Huge(cfg, sents[i]) ==> Survives(cfg, sents[i])
  }

  lemma {:induction false} HugeSurviveAppend(cfg: ChunkingConfig, a: seq<Str>, b: seq<Str>)
    requires cfg.maxChars > 0
    ensures HugeSurvive(cfg, a + b) <==> HugeSurvive(cfg, a) && HugeSurvive(cfg, b)
  {
    hide Huge, Survives;
    if HugeSurvive(cfg, a + b) {
      assert forall i :: 0 <= i < |a| ==> a[i] == (a + b)[i];
      assert forall i :: 0 <= i < |b| ==> b[i] == (a + b)[|a| + i];
    }
  }

  lemma {:induction false} HugeSurviveOne(cfg: ChunkingConfig, s: Str)
    requires cfg.maxChars > 0
    ensures HugeSurvive(cfg, [s]) <==> (Huge(cfg, s) ==> Survives(cfg, s))
    ensures HugeSurvive(cfg, [])
  {
    hide Huge, Survives;
    assert HugeSurvive(cfg, [s]) ==> (Huge(cfg, [s][0]) ==> Survives(cfg, [s][0]));
  }

  /** Replacing one part of a token list by another that spells the same. */
  lemma {:induction false} PartKept(a: seq<Str>, x: seq<Str>, b: seq<Str>, y: seq<Str>)
    requires Inks(a) == Inks(b)
    ensures Contents(a + x) == Contents(b + y) <==> Contents(a) == Contents(b) && Contents(x) == Contents(y)
  {
    hide Contents, Inks, NoneEmpty;
    ContentsAppend(a, x);
    ContentsAppend(b, y);
    AllTokensSpell(a);
    AllTokensSpell(b);
    SameSpelling(Contents(a), Contents(x), Contents(b), Contents(y));
  }

  lemma {:induction false} PackKeepsExactly(cfg: ChunkingConfig, sents: seq<Str>, open: seq<Str>)
    requires cfg.maxChars > 0
    ensures Contents(PackSentences(cfg, sents, open)) == Contents(open + sents) <==> HugeSurvive(cfg, sents)
    decreases |sents|
  {
    hide SplitHuge, Emit, Huge, FitsSentences, Contents, Survives, HugeSurvive, Inks;
    EmitConserves(open);
    if sents == [] {
      HugeSurviveOne(cfg, []);
      assert open + sents == open;
    } else {
      var s, rest := sents[0], sents[1..];
      assert sents == [s] + rest;
      HugeSurviveAppend(cfg, [s], rest);
      HugeSurviveOne(cfg, s);
      if Huge(cfg, s) {
        var windows, later := SplitHuge(cfg, s), PackSentences(cfg, rest, []);
        assert [] + rest == rest;
        SplitHugeBounded(cfg, s);
        OneSentence(s);
        WindowingKeepsExactly(cfg, s);
        PackKeepsExactly(cfg, rest, []);
        PartKept(Emit(open), windows + later, open, [s] + rest);
        PartKept(windows, later, [s], rest);
      } else if open != [] && !FitsSentences(cfg, open + [s]) {
        PackKeepsExactly(cfg, rest, [s]);
        PartKept(Emit(open), PackSentences(cfg, rest, [s]), open, [s] + rest);
      } else {
        assert open + sents == (open + [s]) + rest;
        PackKeepsExactly(cfg, rest, open + [s]);
      }
    }
  }

  lemma {:induction false} ParagraphKeepsExactly(cfg: ChunkingConfig, p: Str)
    requires cfg.maxChars > 0 && IsParagraph(p)
    ensures Contents(BlockPieces(cfg, p)) == Content(p) <==> HugeSurvive(cfg, SentencesOf(p))
  {
    hide Strip, Paragraphs, SentencesOf, PackSentences, Content, Contents, Ink, Inks, Survives, Huge;
    StripId(p);
    if Huge(cfg, p) {
      SentencesConserve(p);
      assert [] + SentencesOf(p) == SentencesOf(p);
      PackKeepsExactly(cfg, SentencesOf(p), []);
    } else {
      OneSentence(p);
      if AnyHuge(cfg, SentencesOf(p)) {
        HugeSentence(cfg, p);
        assert false;
      }
    }
  }

  lemma {:induction false} AllPiecesKeepExactly(cfg: ChunkingConfig, paragraphs: seq<Str>, bound: nat)
    requires cfg.maxChars > 0 && AllParagraphs(paragraphs) && forall p :: p in paragraphs ==> |p| < bound
    ensures Contents(AllPieces(cfg, paragraphs, bound)) == Contents(paragraphs) <==>
            HugeSurvive(cfg, AllSentences(paragraphs))
  {
    hide BlockPieces, SentencesOf, Content, Contents, Ink, Inks, HugeSurvive, IsParagraph;
    if paragraphs == [] {
      HugeSurviveOne(cfg, []);
    } else {
      var p, rest := paragraphs[0], paragraphs[1..];
      ParagraphKeepsExactly(cfg, p);
      AllPiecesKeepExactly(cfg, rest, bound);
      HugeSurviveAppend(cfg, SentencesOf(p), AllSentences(rest));
      PiecesBounded(cfg, p);
      OneSentence(p);
      PartKept(BlockPieces(cfg, p), AllPieces(cfg, rest, bound), [p], rest);
      assert paragraphs == [p] + rest;
    }
  }

  /** Splitting conserves the tokens of a text, whatever the text, if and only if each of its
      oversized sentences survives windowing: no token is longer than the character limit and no
      window fuses two. */
  lemma {:induction false} ConservedExactly(cfg: ChunkingConfig, text: Str)
    requires cfg.maxChars > 0
    ensures Contents(BlockPieces(cfg, text)) == Content(text) <==> HugeSurvive(cfg, TextSentences(text))
  {
    hide Strip, Paragraphs, SentencesOf, PackSentences, Content, Contents, HugeSurvive, Huge, AllPieces;
    var t := Strip(text);
    MuteText.StripBlankness(text);
    StripLength(text);
    ContentStrip(text);
    if t == [] {
      BlankSentences(cfg, text);
    } else if !Huge(cfg, t) {
      OneSentence(t);
      NoneHugeSurvive(cfg, text);
    } else if |Paragraphs(t)| > 1 {
      ParagraphsShorter(t);
      ParagraphsAre(t);
      ParagraphsConserve(t);
      AllPiecesKeepExactly(cfg, Paragraphs(t), |text|);
    } else {
      MuteText.SingleParagraph(t);
      SentencesOfOne(t);
      ParagraphKeepsExactly(cfg, t);
      MuteText.SameAsStripped(cfg, text);
    }
  }

  lemma {:induction false} SentencesOfOne(t: Str)
    ensures AllSentences([t]) == SentencesOf(t)
  {
    hide SentencesOf;
    assert [t][1..] == [];
  }

  lemma {:induction false} BlankSentences(cfg: ChunkingConfig, text: Str)
    requires cfg.maxChars > 0 && Strip(text) == []
    ensures HugeSurvive(cfg, TextSentences(text)) && Contents([]) == Content(text)
  {
    hide Strip, Huge, Survives;
    MuteText.StripBlankness(text);
    ContentOfBlank(text);
    NoParagraphs();
  }

  lemma {:induction false} NoParagraphs()
    ensures Paragraphs([]) == []
  {
    var parts := SplitOn(PARAGRAPH_SEP, []);
    var empty: Str := [];
    assert parts == [empty] && IsBlank(parts[0]) && parts[1..] == [];
    assert NonBlank(parts) == [] + NonBlank(parts[1..]);
  }

  lemma {:induction false} NoneHugeSurvive(cfg: ChunkingConfig, text: Str)
    requires cfg.maxChars > 0 && !Huge(cfg, Strip(text))
    ensures HugeSurvive(cfg, TextSentences(text))
  {
    hide Huge, Survives, TextSentences, Strip;
    if AnyHuge(cfg, TextSentences(text)) {
      HugeText(cfg, text);
      assert false;
    }
  }

  // ------------------------------------------------------------------- in simpler terms

  /** No window of an oversized sentence fuses tokens. */
  ghost predicate WindowsFuseNothing(cfg: ChunkingConfig, sents: seq<Str>)
    requires cfg.maxChars > 0
  {
    forall i :: 0 <= i < |sents| && Huge(cfg, sents[i]) ==> FusesInNoWindow(cfg, sents[i])
  }

  /** In particular if nothing fuses in the text. */
  lemma {:induction false} PlainTextFusesNothing(cfg: ChunkingConfig, text: Str)
    requires cfg.maxChars > 0 && FusesNothing(text)
    ensures WindowsFuseNothing(cfg, TextSentences(text))
  {
    hide TextSentences, FusesNothing, FusesInNoWindow, Huge;
    TextSentencesFuse(text);
    forall i | 0 <= i < |TextSentences(text)| ensures FusesInNoWindow(cfg, TextSentences(text)[i]) {
      NothingFusedInWindows(cfg, TextSentences(text)[i]);
    }
  }

  /** Where no window fuses tokens, they are conserved if and only if none is longer than the
      character limit. */
  lemma {:induction false} LengthDecides(cfg: ChunkingConfig, text: Str)
    requires cfg.maxChars > 0 && WindowsFuseNothing(cfg, TextSentences(text))
    ensures Contents(BlockPieces(cfg, text)) == Content(text) <==> ShortTokens(text, cfg.maxChars)
  {
    hide TextSentences, Content, Contents, BlockPieces, AllIntact, Bounded, Inks, Ink;
    var sents := TextSentences(text);
    ConservedExactly(cfg, text);
    TextSentencesConserve(text);
    if Contents(BlockPieces(cfg, text)) == Content(text) {
      PiecesBounded(cfg, text);
      BoundedTokens(cfg, BlockPieces(cfg, text), text);
    }
    if ShortTokens(text, cfg.maxChars) {
      forall i | 0 <= i < |sents| && Huge(cfg, sents[i]) ensures Survives(cfg, sents[i]) {
        ContentsMember(sents, i);
      }
    }
  }
}
