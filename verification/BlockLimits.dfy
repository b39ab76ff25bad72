/** Which texts are split into pieces within a token limit, exactly. */
module BlockLimits {
  import opened Text
  import opened Lexer
  import opened Splitting
  import opened Sentences
  import opened Items
  import opened Packing
  import opened Blocks
  import opened BlockLaws
  import opened WindowTokens
  import opened Conservation
  import MuteText

  // ------------------------------------------------------------------ slices of one token

  /** A token is found whole again when it is lexed on its own. */
  ghost predicate WholeMatch(t: Str)
  {
    t != [] && !IsSpace(t[0]) && !t[0].Underscore? && MatchLen(t) == |t|
  }

  lemma {:induction false} TokensAreWhole(s: Str)
    ensures forall t :: t in Content(s) ==> WholeMatch(t)
    decreases |s|
  {
    hide MatchLen;
    if s != [] {
      if IsSpace(s[0]) || s[0].Underscore? {
        TokensAreWhole(s[1..]);
      } else {
        MatchLenCut(s, MatchLen(s));
        TokensAreWhole(s[MatchLen(s)..]);
      }
    }
  }

  lemma {:induction false} NoMoreContent()
    ensures Content([]) == []
  {
  }

  lemma {:induction false} WholeContent(t: Str)
    requires WholeMatch(t)
    ensures Content(t) == [t] && Count(t) == Cost(t)
  {
    hide MatchLen;
    NoMoreContent();
    assert t[..|t|] == t && t[|t|..] == [];
    assert Content(t) == [t] + Content([]) == [t];
    assert [t][0] == t && [t][1..] == [] && SumCost([t]) == Cost(t) + SumCost([]);
  }

  /** The first slice of a number: a shorter number, perhaps followed by its separator. */
  lemma {:induction false} NumberSlice(t: Str, n: nat)
    requires WholeMatch(t) && DigitCh(t[0]) && !ArabicCh(t[0]) && 0 < n < |t|
    ensures WholeMatch(t[..n]) || (n > 1 && WholeMatch(t[..n - 1]) && t[n - 1].Symbol?)
  {
    var u, k := t[..n], RunLen(t, DigitCh);
    if k >= n {
      RunLenUnique(u, DigitCh, n);
    } else {
      RunLenUnique(u, DigitCh, k);
      if k + 1 < n {
        assert u[k + 1..] == t[k + 1..][..n - k - 1];
        RunLenUnique(u[k + 1..], DigitCh, n - k - 1);
      } else {
        RunLenUnique(t[..n - 1], DigitCh, n - 1);
      }
    }
  }

  /** The first slice of a word, exactly. */
  lemma {:induction false} WordSlice(t: Str, n: nat)
    requires WholeMatch(t) && (ArabicCh(t[0]) || WordCh(t[0])) && 0 < n < |t|
    ensures WholeMatch(t[..n])
  {
    if ArabicCh(t[0]) {
      RunLenUnique(t[..n], ArabicCh, n);
    } else {
      RunLenUnique(t[..n], WordCh, n);
    }
  }

  lemma {:induction false} SymbolAfter(t: Str, sep: Ch)
    requires WholeMatch(t) && WholeMatch(t + [sep]) == false && MatchLen(t + [sep]) == |t| && sep.Symbol?
    ensures Count(t + [sep]) == Cost(t) + 1
  {
    hide MatchLen;
    var s := t + [sep];
    assert s[..|t|] == t && s[|t|..] == [sep];
    SymbolWhole(sep);
    WholeContent([sep]);
    assert Content(s) == [t] + [[sep]];
    SumCostAppend([t], [[sep]]);
    assert [t][1..] == [] && [[sep]][1..] == [];
  }

  lemma {:induction false} SymbolWhole(sep: Ch)
    requires sep.Symbol?
    ensures WholeMatch([sep])
  {
  }

  /** A slice of a word as long as the character limit costs more than a limit well below it. */
  lemma {:induction false} SliceIsCostly(t: Str, n: nat, limit: nat)
    requires WholeMatch(t) && 4 * limit + 8 <= n < |t|
    ensures Count(t[..n]) > limit
  {
    hide Content;
    if ArabicCh(t[0]) || WordCh(t[0]) {
      WordSlice(t, n);
      WholeContent(t[..n]);
    } else if DigitCh(t[0]) {
      NumberSlice(t, n);
      if WholeMatch(t[..n]) {
        WholeContent(t[..n]);
      } else {
        var u := t[..n - 1];
        assert t[..n] == u + [t[n - 1]] && (u + [t[n - 1]])[..n - 1] == u;
        SliceStops(u, t[n - 1]);
        SymbolAfter(u, t[n - 1]);
      }
    }
  }

  lemma {:induction false} SliceStops(u: Str, sep: Ch)
    requires WholeMatch(u) && !WholeMatch(u + [sep]) && sep.Symbol?
    ensures MatchLen(u + [sep]) == |u|
  {
    var s := u + [sep];
    assert s[|u|] == sep;
    if MatchLen(s) <= |u| {
      MatchLenCut(s, |u|);
      assert s[..|u|] == u;
    }
  }

  // ------------------------------------------------------------------------ one sentence

  lemma {:induction false} InkedIn(f: seq<Str>, t: Str)
    requires t in Inked(f)
    ensures t in f && !IsSpaceTok(t)
  {
    if f != [] && t !in Inked(f[1..]) {
      assert t == f[0];
    } else {
      InkedIn(f[1..], t);
    }
  }

  lemma {:induction false} FirstSlice(frags: seq<Str>, n: nat, t: Str)
    requires n > 0 && t in frags && |t| > n
    ensures t[..n] in AllSlices(frags, n)
  {
    if frags[0] == t {
      assert Slices(t, n)[0] == t[..n];
    } else {
      FirstSlice(frags[1..], n, t);
    }
  }

  lemma {:induction false} FragmentsNotEmpty(s: Str)
    ensures forall f :: f in Fragments(s) ==> f != []
    decreases |s|
  {
    hide MatchLen;
    if s != [] {
      FragmentsNotEmpty(s[if MatchLen(s) == 0 then 1 else MatchLen(s)..]);
    }
  }

  lemma {:induction false} SlicesNotEmpty(tok: Str, n: nat)
    requires n > 0 && tok != []
    ensures forall p :: p in Slices(tok, n) ==> p != []
    decreases |tok|
  {
    if |tok| > n {
      SlicesNotEmpty(tok[n..], n);
    }
  }

  lemma {:induction false} AllSlicesNotEmpty(frags: seq<Str>, n: nat)
    requires n > 0 && forall f :: f in frags ==> f != []
    ensures forall p :: p in AllSlices(frags, n) ==> p != []
  {
    hide Slices;
    if frags != [] {
      assert frags[0] in frags && forall f :: f in frags[1..] ==> f in frags;
      SlicesNotEmpty(frags[0], n);
      AllSlicesNotEmpty(frags[1..], n);
    }
  }

  lemma {:induction false} ConcatHolds(parts: seq<Str>, i: nat)
    requires i < |parts|
    ensures |Concat(parts)| >= |parts[i]|
    ensures (forall p :: p in parts ==> p != []) && |parts| > 1 ==> |Concat(parts)| > |parts[i]|
  {
    if i > 0 {
      ConcatHolds(parts[1..], i - 1);
      assert parts[0] in parts;
    } else if |parts| > 1 {
      ConcatHolds(parts[1..], 0);
      assert parts[1] in parts;
    }
  }

  /** A full-length slice stands alone in its window. */
  lemma {:induction false} FullSliceAlone(cfg: ChunkingConfig, block: seq<Str>, u: Str)
    requires Admissible(block, WindowFits(cfg)) && u in block && |u| == cfg.maxChars
    requires forall p :: p in block ==> p != []
    ensures block == [u]
  {
    hide Concat, SumCost;
    var i :| 0 <= i < |block| && block[i] == u;
    ConcatHolds(block, i);
  }

  lemma {:induction false} SegmentIn(windows: seq<seq<Str>>, i: nat, p: Str)
    requires i < |windows| && p in NonEmpty(Strip(Concat(windows[i])))
    ensures p in Segments(windows)
  {
    hide Strip, Concat;
    if i > 0 {
      SegmentIn(windows[1..], i - 1, p);
    }
  }

  lemma {:induction false} SliceStripped(t: Str, n: nat)
    requires WholeMatch(t) && 0 < n <= |t|
    ensures Stripped(t[..n])
  {
  }

  /** An over-long token leaves a window that is over the limit. */
  lemma {:induction false} LongTokenWindow(cfg: ChunkingConfig, s: Str, t: Str, limit: nat)
    requires 4 * limit + 8 <= cfg.maxChars < |t| && t in Content(s)
    ensures exists p :: p in SplitHuge(cfg, s) && Count(p) > limit
  {
    hide Content, Fragments, WindowFits, Greedy, Segments, AllSlices, Strip, MatchLen, Count;
    var n := cfg.maxChars;
    var u := t[..n];
    var pieces := AllSlices(Fragments(s), n);
    var windows := Greedy([], pieces, WindowFits(cfg));
    TokensAreWhole(s);
    PatternsAgree(s);
    InkedIn(Fragments(s), t);
    FirstSlice(Fragments(s), n, t);
    FragmentsNotEmpty(s);
    AllSlicesNotEmpty(Fragments(s), n);
    GreedyIsPartition([], pieces, WindowFits(cfg));
    assert [] + pieces == pieces;
    BlockWith(windows, u);
    var i :| 0 <= i < |windows| && u in windows[i];
    assert Admissible(windows[i], WindowFits(cfg));
    FlattenMembers(windows, i);
    FullSliceAlone(cfg, windows[i], u);
    ConcatOne(u);
    SliceStripped(t, n);
    StripId(u);
    SegmentIn(windows, i, u);
    SliceIsCostly(t, n, limit);
  }

  // --------------------------------------------------------------------------- the cascade

  /** Limits that whole blocks and packed sentences keep by themselves. */
  predicate CoversLimits(cfg: ChunkingConfig, limit: nat) { cfg.targetTokens <= limit && cfg.maxTokens <= limit }

  ghost predicate OpenCheap(open: seq<Str>, limit: nat)
  {
    open != [] ==> Count(Join([BLANK], open)) <= limit
  }

  /** Every window of every oversized sentence is within the limit. */
  ghost predicate HugeWithin(cfg: ChunkingConfig, sents: seq<Str>, limit: nat)
    requires cfg.maxChars > 0
  {
    forall i :: 0 <= i < |sents| && Huge(cfg, sents[i]) ==> WindowsWithin(Windows(cfg, sents[i]), limit)
  }

  lemma {:induction false} HugeWithinAppend(cfg: ChunkingConfig, a: seq<Str>, b: seq<Str>, limit: nat)
    requires cfg.maxChars > 0
    ensures HugeWithin(cfg, a + b, limit) <==> HugeWithin(cfg, a, limit) && HugeWithin(cfg, b, limit)
  {
    hide Huge, Windows, WindowsWithin;
    if HugeWithin(cfg, a + b, limit) {
      assert forall i :: 0 <= i < |a| ==> a[i] == (a + b)[i];
      assert forall i :: 0 <= i < |b| ==> b[i] == (a + b)[|a| + i];
    }
  }

  lemma {:induction false} HugeWithinOne(cfg: ChunkingConfig, s: Str, limit: nat)
    requires cfg.maxChars > 0
    ensures HugeWithin(cfg, [s], limit) <==> (Huge(cfg, s) ==> AllWithin(SplitHuge(cfg, s), limit))
    ensures HugeWithin(cfg, [], limit)
  {
    hide Huge, Windows, WindowsWithin, AllWithin, Segments;
    SegmentsWithinExactly(Windows(cfg, s), limit);
    assert HugeWithin(cfg, [s], limit) ==> (Huge(cfg, [s][0]) ==> WindowsWithin(Windows(cfg, [s][0]), limit));
  }

  lemma {:induction false} EmitWithin(open: seq<Str>, limit: nat)
    requires OpenCheap(open, limit)
    ensures AllWithin(Emit(open), limit)
  {
    hide Count, Join;
  }

  lemma {:induction false} PackWithinExactly(cfg: ChunkingConfig, sents: seq<Str>, open: seq<Str>, limit: nat)
    requires cfg.maxChars > 0 && CoversLimits(cfg, limit) && OpenCheap(open, limit)
    ensures AllWithin(PackSentences(cfg, sents, open), limit) <==> HugeWithin(cfg, sents, limit)
    decreases |sents|
  {
    hide SplitHuge, Emit, Join, Count, AllWithin, HugeWithin;
    EmitWithin(open, limit);
    if sents == [] {
      HugeWithinOne(cfg, [], limit);
    } else {
      var s, rest := sents[0], sents[1..];
      OneSentence(s);
      assert sents == [s] + rest;
      HugeWithinAppend(cfg, [s], rest, limit);
      HugeWithinOne(cfg, s, limit);
      if Huge(cfg, s) {
        var windows, later := SplitHuge(cfg, s), PackSentences(cfg, rest, []);
        PackWithinExactly(cfg, rest, [], limit);
        WithinAppend(Emit(open), windows + later, limit);
        WithinAppend(windows, later, limit);
      } else if open != [] && !FitsSentences(cfg, open + [s]) {
        PackWithinExactly(cfg, rest, [s], limit);
        WithinAppend(Emit(open), PackSentences(cfg, rest, [s]), limit);
      } else {
        if open == [] {
          assert open + [s] == [s];
        }
        PackWithinExactly(cfg, rest, open + [s], limit);
      }
    }
  }

  lemma {:induction false} OneWithin(p: Str, limit: nat)
    ensures AllWithin([p], limit) <==> Count(p) <= limit
  {
    hide Count;
    assert p in [p];
  }

  lemma {:induction false} ParagraphWithinExactly(cfg: ChunkingConfig, p: Str, limit: nat)
    requires cfg.maxChars > 0 && CoversLimits(cfg, limit) && IsParagraph(p)
    ensures AllWithin(BlockPieces(cfg, p), limit) <==> HugeWithin(cfg, SentencesOf(p), limit)
  {
    hide Strip, Paragraphs, SentencesOf, PackSentences, Content, SumCost, AllWithin, Windows, WindowsWithin;
    StripId(p);
    if Huge(cfg, p) {
      PackWithinExactly(cfg, SentencesOf(p), [], limit);
    } else {
      OneWithin(p, limit);
      if AnyHuge(cfg, SentencesOf(p)) {
        HugeSentence(cfg, p);
        assert false;
      }
    }
  }

  lemma {:induction false} AllPiecesWithinExactly(
      cfg: ChunkingConfig, paragraphs: seq<Str>, bound: nat, limit: nat)
    requires cfg.maxChars > 0 && CoversLimits(cfg, limit) && AllParagraphs(paragraphs)
    requires forall p :: p in paragraphs ==> |p| < bound
    ensures AllWithin(AllPieces(cfg, paragraphs, bound), limit) <==>
            HugeWithin(cfg, AllSentences(paragraphs), limit)
  {
    hide BlockPieces, SentencesOf, HugeWithin, AllWithin, IsParagraph;
    if paragraphs == [] {
      HugeWithinOne(cfg, [], limit);
      NoneWithin(limit);
    } else {
      var p, rest := paragraphs[0], paragraphs[1..];
      ParagraphWithinExactly(cfg, p, limit);
      AllPiecesWithinExactly(cfg, rest, bound, limit);
      HugeWithinAppend(cfg, SentencesOf(p), AllSentences(rest), limit);
      WithinAppend(BlockPieces(cfg, p), AllPieces(cfg, rest, bound), limit);
    }
  }

  /** Any text is split into pieces within a token limit, one that whole blocks keep, if and only
      if every window of its oversized sentences is within it. */
  lemma {:induction false} PiecesWithinExactly(cfg: ChunkingConfig, text: Str, limit: nat)
    requires cfg.maxChars > 0 && CoversLimits(cfg, limit)
    ensures AllWithin(BlockPieces(cfg, text), limit) <==> HugeWithin(cfg, TextSentences(text), limit)
  {
    hide Strip, Paragraphs, SentencesOf, PackSentences, Content, SumCost, HugeWithin, AllPieces, AllWithin;
    var t := Strip(text);
    StripLength(text);
    if t == [] {
      NoParagraphs();
      HugeWithinOne(cfg, [], limit);
      NoneWithin(limit);
    } else if !Huge(cfg, t) {
      OneWithin(t, limit);
      NoneHugeWithin(cfg, text, limit);
    } else if |Paragraphs(t)| > 1 {
      ParagraphsShorter(t);
      ParagraphsAre(t);
      AllPiecesWithinExactly(cfg, Paragraphs(t), |text|, limit);
    } else {
      MuteText.StripBlankness(text);
      MuteText.SingleParagraph(t);
      SentencesOfOne(t);
      ParagraphWithinExactly(cfg, t, limit);
      MuteText.SameAsStripped(cfg, text);
    }
  }

  lemma {:induction false} NoneHugeWithin(cfg: ChunkingConfig, text: Str, limit: nat)
    requires cfg.maxChars > 0 && !Huge(cfg, Strip(text))
    ensures HugeWithin(cfg, TextSentences(text), limit)
  {
    hide Huge, Windows, WindowsWithin, TextSentences, Strip;
    if AnyHuge(cfg, TextSentences(text)) {
      HugeText(cfg, text);
      assert false;
    }
  }

  // -------------------------------------------------------------------- words that decide

  /** A token that costs little is short. */
  lemma {:induction false} CheapIsShort(text: Str, limit: nat, n: nat)
    requires CheapTokens(text, limit) && 4 * limit + 8 <= n
    ensures ShortTokens(text, n)
  {
    hide Content;
    forall t | t in Content(text) ensures |t| <= n {
      assert Cost(t) <= limit;
    }
  }

  /** Where no window fuses tokens, the windows of a sentence are within a limit that leaves
      over-long words no way to hide in slices exactly if its words are. */
  lemma {:induction false} WindowsWithinExactly(cfg: ChunkingConfig, s: Str, limit: nat)
    requires cfg.targetTokens <= limit && 4 * limit + 8 <= cfg.maxChars && FusesInNoWindow(cfg, s)
    ensures WindowsWithin(Windows(cfg, s), limit) <==> CheapTokens(s, limit)
  {
    hide Windows, Content, AllIntact, WindowsWithin, SumCost, Segments;
    if ShortTokens(s, cfg.maxChars) {
      SurvivorWithinExactly(cfg, s, limit);
    } else {
      if CheapTokens(s, limit) {
        CheapIsShort(s, limit, cfg.maxChars);
      }
      var t :| t in Content(s) && |t| > cfg.maxChars;
      LongTokenWindow(cfg, s, t, limit);
      SegmentsWithinExactly(Windows(cfg, s), limit);
    }
  }

  lemma {:induction false} OrdinaryIsCheap(cfg: ChunkingConfig, s: Str, limit: nat)
    requires !Huge(cfg, s) && cfg.maxTokens <= limit
    ensures CheapTokens(s, limit)
  {
    hide Content;
    forall t | t in Content(s) ensures Cost(t) <= limit {
      CostAtMostCount(Content(s), t);
    }
  }

  /** Where no window fuses tokens, a text is split into pieces within such a limit if and only
      if none of its words costs more. */
  lemma {:induction false} WordsDecide(cfg: ChunkingConfig, text: Str, limit: nat)
    requires CoversLimits(cfg, limit) && 4 * limit + 8 <= cfg.maxChars
    requires WindowsFuseNothing(cfg, TextSentences(text))
    ensures HugeWithin(cfg, TextSentences(text), limit) <==> CheapTokens(text, limit)
  {
    hide TextSentences, Content, Contents, FusesInNoWindow, Windows, WindowsWithin, Huge, Cost;
    var sents := TextSentences(text);
    TextSentencesConserve(text);
    forall i | 0 <= i < |sents| && Huge(cfg, sents[i])
      ensures WindowsWithin(Windows(cfg, sents[i]), limit) <==> CheapTokens(sents[i], limit)
    {
      WindowsWithinExactly(cfg, sents[i], limit);
    }
    if CheapTokens(text, limit) {
      forall i | 0 <= i < |sents| ensures CheapTokens(sents[i], limit) {
        ContentsMember(sents, i);
      }
    }
    if HugeWithin(cfg, sents, limit) {
      forall t | t in Content(text) ensures Cost(t) <= limit {
        ContentsOwner(sents, t);
        var i :| 0 <= i < |sents| && t in Content(sents[i]);
        if !Huge(cfg, sents[i]) {
          OrdinaryIsCheap(cfg, sents[i], limit);
        }
        assert CheapTokens(sents[i], limit);
      }
    }
  }
}
