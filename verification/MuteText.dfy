/** Which running text yields no pieces at all, exactly. */
module MuteText {
  import opened Wrappers
  import opened Text
  import opened Lexer
  import opened Splitting
  import opened Sentences
  import opened Items
  import opened Blocks
  import opened BlockLaws
  import CleanText

  /** Blank text, and text of nothing but underscores and whitespace every paragraph of which is
      longer than the character limit: its windows are empty. */
  predicate Mute(cfg: ChunkingConfig, text: Str)
  {
    IsBlank(text) ||
    (Ink(text) == [] && forall p :: p in Paragraphs(Strip(text)) ==> |p| > cfg.maxChars)
  }

  // --------------------------------------------------------------- splitting once is enough

  predicate Occurs(sep: Str, s: Str)
    decreases |s|
  {
    sep <= s || (s != [] && Occurs(sep, s[1..]))
  }

  lemma {:induction false} FirstPartPrefix(sep: Str, s: Str)
    requires sep != []
    ensures SplitOn(sep, s)[0] <= s
    decreases |s|
  {
    if s != [] && !(sep <= s) {
      FirstPartPrefix(sep, s[1..]);
    }
  }

  /** The separator occurs in no part. */
  lemma {:induction false} PartsFree(sep: Str, s: Str)
    requires sep != []
    ensures forall p :: p in SplitOn(sep, s) ==> !Occurs(sep, p)
    decreases |s|
  {
    if s == [] {
    } else if sep <= s {
      PartsFree(sep, s[|sep|..]);
    } else {
      var rest := SplitOn(sep, s[1..]);
      var first := [s[0]] + rest[0];
      PartsFree(sep, s[1..]);
      FirstPartPrefix(sep, s);
      assert first <= s && first[1..] == rest[0] && rest[0] in rest;
    }
  }

  lemma {:induction false} FreeSplit(sep: Str, s: Str)
    requires sep != [] && !Occurs(sep, s)
    ensures SplitOn(sep, s) == [s]
    decreases |s|
  {
    if s != [] {
      FreeSplit(sep, s[1..]);
      assert s == [s[0]] + s[1..];
    }
  }

  lemma {:induction false} FreePrefix(sep: Str, s: Str, hi: nat)
    requires hi <= |s| && !Occurs(sep, s)
    ensures !Occurs(sep, s[..hi])
    decreases |s|
  {
    if hi > 0 {
      FreePrefix(sep, s[1..], hi - 1);
      assert s[..hi][1..] == s[1..][..hi - 1];
    }
  }

  lemma {:induction false} FreeSuffix(sep: Str, s: Str, lo: nat)
    requires lo <= |s| && !Occurs(sep, s)
    ensures !Occurs(sep, s[lo..])
    decreases lo
  {
    if lo > 0 {
      FreeSuffix(sep, s[1..], lo - 1);
      assert s[1..][lo - 1..] == s[lo..];
    }
  }

  lemma {:induction false} OneParagraph(p: Str)
    requires p != [] && Stripped(p) && !Occurs(PARAGRAPH_SEP, p)
    ensures Paragraphs(p) == [p]
  {
    hide Strip, Occurs;
    FreeSplit(PARAGRAPH_SEP, p);
    var parts := [p];
    assert !IsBlank(p) by { assert !IsSpace(p[0]); }
    assert NonBlank(parts) == [p] + NonBlank(parts[1..]) || NonBlank(parts) == [p];
    StripId(p);
  }

  /** Paragraphs are split no further. */
  lemma {:induction false} ParagraphsOnce(t: Str, p: Str)
    requires p in Paragraphs(t)
    ensures p != [] && Stripped(p) && |p| <= |t| && Paragraphs(p) == [p]
  {
    hide Strip, Occurs;
    var parts := SplitOn(PARAGRAPH_SEP, t);
    var solid := NonBlank(parts);
    var i :| 0 <= i < |solid| && p == Strip(solid[i]);
    PartsFree(PARAGRAPH_SEP, t);
    var pre, post := StripSplits(solid[i]);
    FreeSuffix(PARAGRAPH_SEP, solid[i], |pre|);
    FreePrefix(PARAGRAPH_SEP, solid[i][|pre|..], |p|);
    assert p == solid[i][|pre|..][..|p|];
    JoinSplit(PARAGRAPH_SEP, t);
    JoinLength(PARAGRAPH_SEP, parts);
    MemberLength(parts, solid[i]);
    OneParagraph(p);
  }

  // ------------------------------------------------------------------ single paragraphs

  lemma {:induction false} LastPartSolid(sep: Str, s: Str)
    requires sep != [] && IsBlank(sep) && s != [] && !IsSpace(s[|s| - 1])
    ensures var parts := SplitOn(sep, s); !IsBlank(parts[|parts| - 1])
    decreases |s|
  {
    hide IsBlank, SplitOn;
    LastOfSplit(sep, s);
    if sep <= s {
      LastAfter(sep, s);
      LastPartSolid(sep, s[|sep|..]);
    } else if |s| > 1 {
      LastPartSolid(sep, s[1..]);
      SolidFront(s[0], SplitOn(sep, s[1..])[0]);
    } else {
      NothingToSplit(sep);
      assert s[1..] == [];
      var one := [s[0]] + SplitOn(sep, s[1..])[0];
      assert one == [s[0]];
      SolidAt(one, 0);
    }
  }

  lemma {:induction false} NothingToSplit(sep: Str)
    requires sep != []
    ensures SplitOn(sep, []) == [[]]
  {
  }

  lemma {:induction false} LastOfSplit(sep: Str, s: Str)
    requires sep != [] && s != []
    ensures var parts := SplitOn(sep, s);
      if sep <= s then var rest := SplitOn(sep, s[|sep|..]); parts[|parts| - 1] == rest[|rest| - 1]
      else
        var rest := SplitOn(sep, s[1..]);
        parts[|parts| - 1] == if |rest| == 1 then [s[0]] + rest[0] else rest[|rest| - 1]
  {
  }

  lemma {:induction false} LastAfter(sep: Str, s: Str)
    requires sep != [] && IsBlank(sep) && sep <= s && !IsSpace(s[|s| - 1])
    ensures |sep| < |s| && s[|sep|..][|s| - |sep| - 1] == s[|s| - 1]
  {
    assert s[|sep| - 1] == sep[|sep| - 1];
  }

  lemma {:induction false} SolidAt(p: Str, i: nat)
    requires i < |p| && !IsSpace(p[i])
    ensures !IsBlank(p)
  {
  }

  lemma {:induction false} SolidFront(ch: Ch, p: Str)
    ensures !IsBlank(p) ==> !IsBlank([ch] + p)
  {
    if !IsBlank(p) {
      var i :| 0 <= i < |p| && !IsSpace(p[i]);
      SolidAt([ch] + p, i + 1);
    }
  }

  lemma {:induction false} FirstPartSolid(sep: Str, s: Str)
    requires sep != [] && IsBlank(sep) && s != [] && !IsSpace(s[0])
    ensures !IsBlank(SplitOn(sep, s)[0])
  {
    assert !(sep <= s);
    assert SplitOn(sep, s)[0][0] == s[0];
  }

  lemma {:induction false} TwoSolid(parts: seq<Str>)
    requires |parts| >= 2 && !IsBlank(parts[0]) && !IsBlank(parts[|parts| - 1])
    ensures |NonBlank(parts)| >= 2
  {
    hide IsBlank;
    LastSolid(parts[1..]);
  }

  lemma {:induction false} LastSolid(parts: seq<Str>)
    requires parts != [] && !IsBlank(parts[|parts| - 1])
    ensures NonBlank(parts) != []
  {
    hide IsBlank;
    if |parts| > 1 {
      LastSolid(parts[1..]);
    }
  }

  /** A stripped text that is not split into several paragraphs is one. */
  lemma {:induction false} SingleParagraph(t: Str)
    requires t != [] && Stripped(t) && |Paragraphs(t)| <= 1
    ensures Paragraphs(t) == [t]
  {
    hide Strip;
    var parts := SplitOn(PARAGRAPH_SEP, t);
    FirstPartSolid(PARAGRAPH_SEP, t);
    LastPartSolid(PARAGRAPH_SEP, t);
    if |parts| >= 2 {
      TwoSolid(parts);
      assert false;
    }
    JoinSplit(PARAGRAPH_SEP, t);
    assert parts == [t];
    PartsFree(PARAGRAPH_SEP, t);
    assert t in parts;
    OneParagraph(t);
  }

  // ------------------------------------------------------------------------ mute windows

  lemma {:induction false} InkAt(s: Str, i: nat)
    requires i < |s| && !IsSpace(s[i]) && !s[i].Underscore?
    ensures Ink(s) != []
  {
    if i > 0 {
      InkAt(s[1..], i - 1);
    }
  }

  lemma {:induction false} NoBoundaries(s: Str, i: nat)
    requires i <= |s| && forall k :: 0 <= k < |s| ==> !Ender(s[k])
    ensures Boundaries(s, i) == []
    decreases |s| - i
  {
    hide MatchAt, Ender;
    if i < |s| {
      NoMatchAt(s, i);
      NoBoundaries(s, i + 1);
    }
  }

  lemma {:induction false} NoMatchAt(s: Str, i: nat)
    requires i < |s| && !Ender(s[i])
    ensures MatchAt(s, i) == None
  {
  }

  lemma {:induction false} OneSentenceOnly(t: Str)
    requires t != [] && Stripped(t) && forall k :: 0 <= k < |t| ==> !Ender(t[k])
    ensures SentencesOf(t) == [t]
  {
    hide Strip, Ender, Boundaries;
    StripId(t);
    NoBoundaries(t, 0);
    CutEnd(t, 0);
    assert t[0..] == t;
  }

  lemma {:induction false} MuteHasNoEnders(t: Str)
    requires Ink(t) == []
    ensures forall k :: 0 <= k < |t| ==> !Ender(t[k])
  {
    forall k | 0 <= k < |t| ensures !Ender(t[k]) {
      if Ender(t[k]) {
        InkAt(t, k);
        assert false;
      }
    }
  }

  lemma {:induction false} NoInk(parts: seq<Str>, i: nat)
    requires Inks(parts) == [] && i < |parts|
    ensures Ink(parts[i]) == []
  {
    hide Ink;
    if i > 0 {
      NoInk(parts[1..], i - 1);
    }
  }

  /** No window of an ink-free sentence holds anything. */
  lemma {:induction false} MuteWindows(cfg: ChunkingConfig, s: Str)
    requires cfg.maxChars > 0 && Ink(s) == []
    ensures SplitHuge(cfg, s) == []
  {
    hide Ink, Inks, SplitHuge;
    SplitHugeBounded(cfg, s);
    CleanText.SplitHugeUnderscoreFree(cfg, s);
    var segments := SplitHuge(cfg, s);
    if segments != [] {
      var p := segments[0];
      assert p in segments;
      NoInk(segments, 0);
      assert Bounded(cfg, p) && p[0] in p;
      InkAt(p, 0);
      assert false;
    }
  }

  lemma {:induction false} NoInkNoTokens(s: Str)
    requires Ink(s) == []
    ensures Content(s) == []
  {
    if s != [] {
      assert s == [s[0]] + s[1..];
      NoInkNoTokens(s[1..]);
    }
  }

  // ----------------------------------------------------------------------- the cascade

  lemma {:induction false} AllPiecesNone(cfg: ChunkingConfig, paragraphs: seq<Str>, limit: nat)
    requires cfg.maxChars > 0 && forall p :: p in paragraphs ==> |p| < limit
    ensures AllPieces(cfg, paragraphs, limit) == [] <==>
            forall p :: p in paragraphs ==> BlockPieces(cfg, p) == []
  {
    hide BlockPieces;
    if paragraphs != [] {
      var rest := paragraphs[1..];
      AllPiecesNone(cfg, rest, limit);
      assert paragraphs[0] in paragraphs && forall p :: p in rest ==> p in paragraphs;
      assert AllPieces(cfg, paragraphs, limit) == [] <==>
             BlockPieces(cfg, paragraphs[0]) == [] && AllPieces(cfg, rest, limit) == [];
    }
  }

  /** A single ink-free paragraph yields nothing exactly if it is over the character limit. */
  lemma {:induction false} MuteParagraph(cfg: ChunkingConfig, p: Str)
    requires cfg.maxChars > 0 && p != [] && Stripped(p) && Ink(p) == [] && Paragraphs(p) == [p]
    ensures BlockPieces(cfg, p) == [] <==> |p| > cfg.maxChars
  {
    hide Strip, Paragraphs, SentencesOf, SplitHuge, Content, Ink, Ender;
    StripId(p);
    NoInkNoTokens(p);
    if |p| > cfg.maxChars {
      MuteHasNoEnders(p);
      OneSentenceOnly(p);
      MuteWindows(cfg, p);
      PackOneHuge(cfg, p);
    }
  }

  lemma {:induction false} PackOneHuge(cfg: ChunkingConfig, s: Str)
    requires cfg.maxChars > 0 && Huge(cfg, s)
    ensures PackSentences(cfg, [s], []) == SplitHuge(cfg, s)
  {
    hide SplitHuge, Huge;
    assert [s][1..] == [];
    PackEnd(cfg, []);
  }

  /** Running text yields no pieces if and only if it is mute. */
  lemma {:induction false} NoPiecesExactly(cfg: ChunkingConfig, text: Str)
    requires cfg.maxChars > 0
    ensures BlockPieces(cfg, text) == [] <==> Mute(cfg, text)
  {
    hide Strip, Paragraphs, Content, Ink, Inks, IsBlank, PackSentences, AllPieces;
    var t := Strip(text);
    StripBlankness(text);
    if t != [] {
      PiecesBounded(cfg, text);
      InkStrip(text);
      if Ink(text) == [] {
        NoInkNoTokens(t);
        InklessPieces(cfg, text);
      } else {
        NoContents();
      }
    }
  }

  lemma {:induction false} StripBlankness(text: Str)
    ensures Stripped(Strip(text)) && (Strip(text) == [] <==> IsBlank(text))
  {
    var _, _ := StripSplits(text);
  }

  lemma {:induction false} InklessPieces(cfg: ChunkingConfig, text: Str)
    requires cfg.maxChars > 0 && Strip(text) != [] && Ink(Strip(text)) == [] && Content(Strip(text)) == []
    ensures BlockPieces(cfg, text) == [] <==>
            forall p :: p in Paragraphs(Strip(text)) ==> |p| > cfg.maxChars
  {
    hide Strip, Paragraphs, Content, Contents, Ink, Inks, PackSentences, AllPieces, SentencesOf;
    var t := Strip(text);
    StripBlankness(text);
    StripLength(text);
    if |Paragraphs(t)| > 1 {
      ParagraphsShorter(t);
      AllPiecesNone(cfg, Paragraphs(t), |text|);
      ParagraphsConserve(t);
      forall p | p in Paragraphs(t) ensures BlockPieces(cfg, p) == [] <==> |p| > cfg.maxChars {
        ParagraphsOnce(t, p);
        var i :| 0 <= i < |Paragraphs(t)| && Paragraphs(t)[i] == p;
        NoInk(Paragraphs(t), i);
        MuteParagraph(cfg, p);
      }
      if !Huge(cfg, t) {
        var p := Paragraphs(t)[0];
        assert p in Paragraphs(t) && |p| <= |t|;
      }
    } else {
      SingleParagraph(t);
      MuteParagraph(cfg, t);
      SameAsStripped(cfg, text);
    }
  }

  lemma {:induction false} SameAsStripped(cfg: ChunkingConfig, text: Str)
    requires cfg.maxChars > 0 && |Paragraphs(Strip(text))| <= 1
    ensures BlockPieces(cfg, Strip(text)) == BlockPieces(cfg, text)
  {
    hide Strip, Paragraphs, SentencesOf, PackSentences, Huge;
    StripBlankness(text);
    StripId(Strip(text));
  }
}
