/** What the block cascade guarantees: bounded pieces, nothing lost. */
module BlockLaws {
  import opened Text
  import opened Lexer
  import opened Underscores
  import opened Splitting
  import opened Sentences
  import opened Items
  import opened Packing
  import opened Blocks

  /** Non-empty, stripped and within the character limit. */
  ghost predicate Bounded(cfg: ChunkingConfig, p: Str)
  {
    p != [] && Stripped(p) && |p| <= cfg.maxChars
  }

  ghost predicate AllBounded(cfg: ChunkingConfig, ps: seq<Str>) { forall p :: p in ps ==> Bounded(cfg, p) }

  /** No token of the text is longer than `n` characters. */
  ghost predicate ShortTokens(s: Str, n: nat) { forall t :: t in Content(s) ==> |t| <= n }

  /** No token of the text costs more than `c`. */
  ghost predicate CheapTokens(s: Str, c: nat) { forall t :: t in Content(s) ==> Cost(t) <= c }

  // ------------------------------------------------------------ windows: bounds and ink

  lemma {:induction false} SlicesBound(tok: Str, n: nat)
    requires n > 0
    ensures forall p :: p in Slices(tok, n) ==> |p| <= n
    ensures Concat(Slices(tok, n)) == tok
    decreases |tok|
  {
    if |tok| > n {
      SlicesBound(tok[n..], n);
      assert tok == tok[..n] + tok[n..];
    } else {
      assert Concat([tok]) == tok + Concat([]);
    }
  }

  lemma {:induction false} AllSlicesBound(frags: seq<Str>, n: nat)
    requires n > 0
    ensures forall p :: p in AllSlices(frags, n) ==> |p| <= n
    ensures Concat(AllSlices(frags, n)) == Concat(frags)
  {
    if frags != [] {
      SlicesBound(frags[0], n);
      AllSlicesBound(frags[1..], n);
      ConcatAppend(Slices(frags[0], n), AllSlices(frags[1..], n));
    }
  }

  lemma WindowBounded(cfg: ChunkingConfig, window: seq<Str>)
    requires Admissible(window, WindowFits(cfg))
    requires forall p :: p in window ==> |p| <= cfg.maxChars
    ensures AllBounded(cfg, NonEmpty(Strip(Concat(window))))
  {
    hide Strip, Inked, SumCost;
    var text := Concat(window);
    if |window| == 1 {
      assert text == window[0] + Concat(window[1..]) == window[0];
    }
    var pre, post := StripSplits(text);
  }

  lemma {:induction false} SegmentsBounded(cfg: ChunkingConfig, windows: seq<seq<Str>>)
    requires forall i :: 0 <= i < |windows| ==> Admissible(windows[i], WindowFits(cfg))
    requires forall p :: p in Flatten(windows) ==> |p| <= cfg.maxChars
    ensures AllBounded(cfg, Segments(windows))
    ensures Inks(Segments(windows)) == Ink(Concat(Flatten(windows)))
  {
    hide Strip, Concat, WindowFits, Bounded;
    if windows == [] {
      EmptyInk();
    } else {
      var text := Concat(windows[0]);
      WindowBounded(cfg, windows[0]);
      SegmentsBounded(cfg, windows[1..]);
      ConcatAppend(windows[0], Flatten(windows[1..]));
      InkAppend(text, Concat(Flatten(windows[1..])));
      InkStrip(text);
      ContentsNonEmpty(Strip(text));
      InksAppend(NonEmpty(Strip(text)), Segments(windows[1..]));
    }
  }

  lemma EmptyInk()
    ensures Ink(Concat([])) == []
  {
  }

  /** Whatever the sentence, its windows are bounded and keep all its characters other than
      whitespace and underscores. */
  lemma SplitHugeBounded(cfg: ChunkingConfig, s: Str)
    requires cfg.maxChars > 0
    ensures AllBounded(cfg, SplitHuge(cfg, s))
    ensures Inks(SplitHuge(cfg, s)) == Ink(s)
  {
    hide Concat, Segments, WindowFits, Bounded;
    var pieces := AllSlices(Fragments(s), cfg.maxChars);
    var windows := Greedy([], pieces, WindowFits(cfg));
    GreedyIsPartition([], pieces, WindowFits(cfg));
    assert [] + pieces == pieces;
    AllSlicesBound(Fragments(s), cfg.maxChars);
    FragmentsConcat(s);
    InkDropUnderscores(s);
    SegmentsBounded(cfg, windows);
  }

  // ------------------------------------------------------------------------- sentences

  ghost predicate Solid(parts: seq<Str>)
  {
    forall i :: 0 <= i < |parts| ==> parts[i] != [] && Stripped(parts[i])
  }

  lemma {:induction false} JoinStripped(sep: Str, parts: seq<Str>)
    requires parts != [] && Solid(parts)
    ensures var j := Join(sep, parts); j != [] && Stripped(j)
  {
    if |parts| > 1 {
      JoinStripped(sep, parts[1..]);
      var j, rest := Join(sep, parts), Join(sep, parts[1..]);
      assert j == parts[0] + sep + rest;
      assert j[0] == parts[0][0] && j[|j| - 1] == rest[|rest| - 1];
    }
  }

  ghost predicate OpenBounded(cfg: ChunkingConfig, open: seq<Str>)
  {
    Solid(open) &&
    (open != [] ==> |Join([BLANK], open)| <= cfg.maxChars)
  }

  lemma EmitBounded(cfg: ChunkingConfig, open: seq<Str>)
    requires OpenBounded(cfg, open)
    ensures AllBounded(cfg, Emit(open))
  {
    if open != [] {
      JoinStripped([BLANK], open);
    }
  }

  lemma EmitConserves(open: seq<Str>)
    ensures Inks(Emit(open)) == Inks(open)
    ensures Contents(Emit(open)) == Contents(open)
  {
    hide Join, Ink, Content;
    if open != [] {
      InkJoin([BLANK], open);
      ContentJoin([BLANK], open);
      var j := Join([BLANK], open);
      assert Inks([j]) == Ink(j) + Inks([]);
      assert Contents([j]) == Content(j) + Contents([]);
    }
  }

  lemma OneSentence(s: Str)
    ensures Join([BLANK], [s]) == s
    ensures Inks([s]) == Ink(s) && Contents([s]) == Content(s)
  {
    assert Inks([s]) == Ink(s) + Inks([]);
    assert Contents([s]) == Content(s) + Contents([]);
  }

  /** The open block stays within the limit when a sentence is added to it. */
  lemma OpenGrows(cfg: ChunkingConfig, open: seq<Str>, s: Str)
    requires OpenBounded(cfg, open) && s != [] && Stripped(s) && !Huge(cfg, s)
    requires open == [] || FitsSentences(cfg, open + [s])
    ensures OpenBounded(cfg, open + [s])
  {
    hide Count, Join;
    OneSentence(s);
    if open == [] {
      assert open + [s] == [s];
    }
  }

  lemma {:induction false} PackBounded(cfg: ChunkingConfig, sents: seq<Str>, open: seq<Str>)
    requires cfg.maxChars > 0 && OpenBounded(cfg, open) && Solid(sents)
    ensures AllBounded(cfg, PackSentences(cfg, sents, open))
    decreases |sents|
  {
    hide Bounded, SplitHuge, Emit, Huge, FitsSentences, OpenBounded;
    EmitBounded(cfg, open);
    if sents != [] {
      var s, rest := sents[0], sents[1..];
      NothingOpen(cfg);
      if Huge(cfg, s) {
        SplitHugeBounded(cfg, s);
        PackBounded(cfg, rest, []);
      } else if open != [] && !FitsSentences(cfg, open + [s]) {
        OpenGrows(cfg, [], s);
        assert [] + [s] == [s];
        PackBounded(cfg, rest, [s]);
      } else {
        OpenGrows(cfg, open, s);
        PackBounded(cfg, rest, open + [s]);
      }
    }
  }

  lemma NothingOpen(cfg: ChunkingConfig)
    ensures OpenBounded(cfg, [])
  {
  }

  lemma NoContents()
    ensures Contents([]) == [] && Inks([]) == []
  {
  }

  lemma {:induction false} PackInk(cfg: ChunkingConfig, sents: seq<Str>, open: seq<Str>)
    requires cfg.maxChars > 0
    ensures Inks(PackSentences(cfg, sents, open)) == Inks(open) + Inks(sents)
    decreases |sents|
  {
    hide SplitHuge, Emit, Huge, FitsSentences, Ink, Inks;
    EmitConserves(open);
    NoContents();
    if sents != [] {
      var s, rest := sents[0], sents[1..];
      assert sents == [s] + rest;
      InksAppend([s], rest);
      OneSentence(s);
      if Huge(cfg, s) {
        var windows, later := SplitHuge(cfg, s), PackSentences(cfg, rest, []);
        SplitHugeBounded(cfg, s);
        PackInk(cfg, rest, []);
        InksAppend(Emit(open), windows + later);
        InksAppend(windows, later);
      } else if open != [] && !FitsSentences(cfg, open + [s]) {
        PackInk(cfg, rest, [s]);
        InksAppend(Emit(open), PackSentences(cfg, rest, [s]));
      } else {
        PackInk(cfg, rest, open + [s]);
        InksAppend(open, [s]);
      }
    }
  }

  // ------------------------------------------------------------------------ paragraphs

  /** The paragraphs carry the text's tokens and characters, and nothing fuses in them if
      nothing fuses in the text. */
  lemma {:induction false} ParagraphsConserve(t: Str)
    ensures Contents(Paragraphs(t)) == Content(t)
    ensures Inks(Paragraphs(t)) == Ink(t)
    ensures FusesNothing(t) ==> NoneFuses(Paragraphs(t))
  {
    hide Strip, Content, Ink, FusesNothing;
    var parts := SplitOn(PARAGRAPH_SEP, t);
    ContentSplit(PARAGRAPH_SEP, t);
    InkSplit(PARAGRAPH_SEP, t);
    ContentsNonBlank(parts);
    InksNonBlank(parts);
    ContentsStripAll(NonBlank(parts));
    InksStripAll(NonBlank(parts));
    if FusesNothing(t) {
      SplitFuses(PARAGRAPH_SEP, t);
      NonBlankFuses(parts);
      StripAllFuses(NonBlank(parts));
    }
  }

  // ----------------------------------------------------------------- laws of the cascade

  /** For any text at all, every piece is non-empty, stripped and within the character limit,
      and the pieces keep, in order, every character that is neither whitespace nor an
      underscore. */
  lemma {:induction false} PiecesBounded(cfg: ChunkingConfig, text: Str)
    requires cfg.maxChars > 0
    ensures AllBounded(cfg, BlockPieces(cfg, text))
    ensures Inks(BlockPieces(cfg, text)) == Ink(text)
    decreases |text|
  {
    hide Strip, Paragraphs, SentencesOf, PackSentences, Ink, Inks, Content;
    var t := Strip(text);
    var pre, post := StripSplits(text);
    InkStrip(text);
    NoContents();
    if t == [] {
      InkBlank(t);
    } else if !Huge(cfg, t) {
      OneSentence(t);
    } else if |Paragraphs(t)| > 1 {
      ParagraphsShorter(t);
      ParagraphsConserve(t);
      AllPiecesBounded(cfg, Paragraphs(t), |text|);
    } else {
      SentencesConserve(t);
      SentencesSolid(t);
      NothingOpen(cfg);
      PackBounded(cfg, SentencesOf(t), []);
      PackInk(cfg, SentencesOf(t), []);
    }
  }

  lemma {:induction false} AllPiecesBounded(cfg: ChunkingConfig, paragraphs: seq<Str>, limit: nat)
    requires cfg.maxChars > 0
    requires forall p :: p in paragraphs ==> |p| < limit
    ensures AllBounded(cfg, AllPieces(cfg, paragraphs, limit))
    ensures Inks(AllPieces(cfg, paragraphs, limit)) == Inks(paragraphs)
    decreases limit, |paragraphs|
  {
    hide BlockPieces, Bounded, Ink;
    if paragraphs != [] {
      PiecesBounded(cfg, paragraphs[0]);
      AllPiecesBounded(cfg, paragraphs[1..], limit);
      InksAppend(BlockPieces(cfg, paragraphs[0]), AllPieces(cfg, paragraphs[1..], limit));
    }
  }

  lemma {:induction false} ContentsMember(parts: seq<Str>, i: nat)
    requires i < |parts|
    ensures forall t :: t in Content(parts[i]) ==> t in Contents(parts)
  {
    hide Content;
    if i > 0 {
      ContentsMember(parts[1..], i - 1);
    }
  }

  lemma SentencesSolid(t: Str)
    ensures Solid(SentencesOf(t))
  {
    hide SentencesOf, Content, Contents, Ink, Inks;
    SentencesConserve(t);
    forall i | 0 <= i < |SentencesOf(t)|
      ensures SentencesOf(t)[i] != [] && Stripped(SentencesOf(t)[i])
    {
      assert PartOf(SentencesOf(t)[i], t);
    }
  }

  lemma {:induction false} ContentTokensShort(s: Str)
    ensures forall t :: t in Content(s) ==> |t| <= |s|
    decreases |s|
  {
    hide MatchLen;
    if s != [] {
      if IsSpace(s[0]) || s[0].Underscore? {
        ContentTokensShort(s[1..]);
      } else {
        ContentTokensShort(s[MatchLen(s)..]);
      }
    }
  }

  lemma BoundedLength(cfg: ChunkingConfig, p: Str)
    requires Bounded(cfg, p)
    ensures |p| <= cfg.maxChars
  {
  }
}
