/** What cutting one oversized sentence into windows does to its tokens, exactly. */
module WindowTokens {
  import opened Text
  import opened Lexer
  import opened Underscores
  import opened Splitting
  import opened Sentences
  import opened Items
  import opened Packing
  import opened Blocks
  import opened BlockLaws

  // ------------------------------------------------------- tokens spell out the characters

  ghost predicate NoneEmpty(toks: seq<Str>) { forall i :: 0 <= i < |toks| ==> toks[i] != [] }

  /** The tokens of a text, put together, are its characters other than whitespace and
      underscores. */
  lemma {:induction false} TokensSpell(s: Str)
    ensures Concat(Content(s)) == Ink(s) && NoneEmpty(Content(s))
    decreases |s|
  {
    hide MatchLen;
    if s == [] {
    } else if IsSpace(s[0]) || s[0].Underscore? {
      TokensSpell(s[1..]);
    } else {
      var m := MatchLen(s);
      TokensSpell(s[m..]);
      assert s == s[..m] + s[m..];
      InkAppend(s[..m], s[m..]);
      InkOfInk(s[..m]);
      ConcatAppend([s[..m]], Content(s[m..]));
      ConcatOne(s[..m]);
    }
  }

  lemma {:induction false} InkOfInk(s: Str)
    requires forall i :: 0 <= i < |s| ==> !IsSpace(s[i]) && !s[i].Underscore?
    ensures Ink(s) == s
  {
    if s != [] {
      InkOfInk(s[1..]);
    }
  }

  lemma {:induction false} ConcatOne(u: Str)
    ensures Concat([u]) == u
  {
    assert [u][1..] == [];
  }

  lemma {:induction false} AllTokensSpell(parts: seq<Str>)
    ensures Concat(Contents(parts)) == Inks(parts) && NoneEmpty(Contents(parts))
  {
    hide Content, Ink;
    if parts != [] {
      TokensSpell(parts[0]);
      AllTokensSpell(parts[1..]);
      ConcatAppend(Content(parts[0]), Contents(parts[1..]));
    }
  }

  lemma {:induction false} NothingSpelt(toks: seq<Str>)
    requires NoneEmpty(toks) && Concat(toks) == []
    ensures toks == []
  {
  }

  lemma {:induction false} LongerSpelling(a: seq<Str>, x: seq<Str>, b: seq<Str>, y: seq<Str>)
    requires NoneEmpty(b) && Concat(a) == Concat(b) && a + x == b + y && |a| <= |b|
    ensures a == b && x == y
  {
    var more := b[|a|..];
    assert b == a + more by {
      assert b == (b + y)[..|b|] == (a + x)[..|b|];
    }
    ConcatAppend(a, more);
    NothingSpelt(more);
    assert a == b;
    assert x == (a + x)[|a|..] == (b + y)[|b|..] == y;
  }

  /** Two lists of tokens that begin with spellings of the same characters agree exactly if they
      agree there and after it. */
  lemma {:induction false} SameSpelling(a: seq<Str>, x: seq<Str>, b: seq<Str>, y: seq<Str>)
    requires NoneEmpty(a) && NoneEmpty(b) && Concat(a) == Concat(b)
    ensures a + x == b + y <==> a == b && x == y
  {
    hide NoneEmpty, Concat;
    if a + x == b + y {
      if |a| <= |b| {
        LongerSpelling(a, x, b, y);
      } else {
        LongerSpelling(b, y, a, x);
      }
    }
  }

  // ------------------------------------------------------------------- pieces of fragments

  /** Whitespace, or ink without underscores. */
  predicate Pure(p: Str)
  {
    p != [] && (IsBlank(p) || forall i :: 0 <= i < |p| ==> !IsSpace(p[i]) && !p[i].Underscore?)
  }

  ghost predicate AllPure(parts: seq<Str>) { forall i :: 0 <= i < |parts| ==> Pure(parts[i]) }

  lemma {:induction false} FragmentsPure(s: Str)
    ensures AllPure(Fragments(s))
    decreases |s|
  {
    hide MatchLen;
    if s != [] {
      if MatchLen(s) == 0 {
        FragmentsPure(s[1..]);
      } else {
        FragmentsPure(s[MatchLen(s)..]);
      }
    }
  }

  lemma {:induction false} SlicesPure(tok: Str, n: nat)
    requires n > 0 && Pure(tok)
    ensures AllPure(Slices(tok, n))
    ensures IsBlank(tok) ==> Inked(Slices(tok, n)) == []
    decreases |tok|
  {
    if |tok| > n {
      SlicesPure(tok[n..], n);
      var rest := Slices(tok[n..], n);
      assert ([tok[..n]] + rest)[1..] == rest;
    } else {
      assert [tok][1..] == [];
    }
  }

  lemma {:induction false} SlicesWhole(tok: Str, n: nat)
    requires n > 0 && |tok| <= n
    ensures Slices(tok, n) == [tok]
  {
  }

  lemma {:induction false} PureAppend(a: seq<Str>, b: seq<Str>)
    ensures AllPure(a + b) <==> AllPure(a) && AllPure(b)
  {
    hide Pure;
    if AllPure(a + b) {
      assert forall i :: 0 <= i < |a| ==> a[i] == (a + b)[i];
      assert forall i :: 0 <= i < |b| ==> b[i] == (a + b)[|a| + i];
    }
  }

  /** Slicing changes no token unless one is over-long. */
  lemma {:induction false} AllSlicesInked(frags: seq<Str>, n: nat)
    requires n > 0 && AllPure(frags)
    ensures AllPure(AllSlices(frags, n))
    ensures (forall t :: t in Inked(frags) ==> |t| <= n) ==> Inked(AllSlices(frags, n)) == Inked(frags)
  {
    hide Slices, Pure;
    if frags != [] {
      var first, rest := Slices(frags[0], n), AllSlices(frags[1..], n);
      AllSlicesInked(frags[1..], n);
      SlicesPure(frags[0], n);
      PureAppend(first, rest);
      InkedAppend(first, rest);
      InkedCons(frags);
      PureIsNotEmpty(frags[0]);
      if forall t :: t in Inked(frags) ==> |t| <= n {
        assert forall t :: t in Inked(frags[1..]) ==> t in Inked(frags);
        if !IsBlank(frags[0]) {
          assert frags[0] in Inked(frags);
          SlicesWhole(frags[0], n);
          InkedOne(frags[0]);
        }
      }
    }
  }

  lemma {:induction false} PureIsNotEmpty(p: Str)
    requires Pure(p)
    ensures IsSpaceTok(p) <==> IsBlank(p)
  {
  }

  lemma {:induction false} InkedCons(f: seq<Str>)
    requires f != []
    ensures Inked(f) == (if IsSpaceTok(f[0]) then [] else [f[0]]) + Inked(f[1..])
  {
  }

  lemma {:induction false} InkedOne(f: Str)
    ensures Inked([f]) == if IsSpaceTok(f) then [] else [f]
  {
    assert [f][1..] == [];
  }

  lemma {:induction false} PureSpell(p: Str)
    requires Pure(p)
    ensures Concat(Inked([p])) == Ink(p) && p != []
  {
    InkedOne(p);
    ConcatOne(p);
    if IsBlank(p) {
      InkBlank(p);
    } else {
      InkOfInk(p);
    }
  }

  /** The pieces that are not whitespace spell out the ink of the whole. */
  lemma {:induction false} InkedSpell(parts: seq<Str>)
    requires AllPure(parts)
    ensures Concat(Inked(parts)) == Ink(Concat(parts)) && NoneEmpty(Inked(parts))
  {
    hide Pure, IsBlank, IsSpaceTok, Ink;
    if parts == [] {
      EmptyInk();
    } else {
      var p := parts[0];
      InkedSpell(parts[1..]);
      InkAppend(p, Concat(parts[1..]));
      PureSpell(p);
      PureIsNotEmpty(p);
      ConcatAppend(Inked([p]), Inked(parts[1..]));
      InkedOne(p);
    }
  }

  // ---------------------------------------------------------------------- windows, exactly

  /** The text of the window lexes to the window's own tokens: no two were fused. */
  ghost predicate Intact(window: seq<Str>) { Content(Concat(window)) == Inked(window) }

  ghost predicate AllIntact(windows: seq<seq<Str>>)
  {
    forall i :: 0 <= i < |windows| ==> Intact(windows[i])
  }

  /** A sentence whose tokens survive windowing: none is longer than the character limit, and no
      window fuses two. */
  ghost predicate Survives(cfg: ChunkingConfig, s: Str)
    requires cfg.maxChars > 0
  {
    ShortTokens(s, cfg.maxChars) && AllIntact(Windows(cfg, s))
  }

  lemma {:induction false} SegmentContents(window: seq<Str>)
    ensures Contents(NonEmpty(Strip(Concat(window)))) == Content(Concat(window))
    ensures forall p :: p in NonEmpty(Strip(Concat(window))) ==> Count(p) == Count(Concat(window))
  {
    hide Strip, Concat, Content, Contents, SumCost;
    ContentStrip(Concat(window));
    ContentsNonEmpty(Strip(Concat(window)));
  }

  lemma {:induction false} SegmentsKeepExactly(windows: seq<seq<Str>>)
    requires AllPure(Flatten(windows))
    ensures Contents(Segments(windows)) == Inked(Flatten(windows)) <==> AllIntact(windows)
  {
    hide Strip, Concat, Content, AllPure, NonEmpty, NoneEmpty;
    if windows != [] {
      var w, rest := windows[0], windows[1..];
      PureAppend(w, Flatten(rest));
      SegmentsKeepExactly(rest);
      SegmentContents(w);
      ContentsAppend(NonEmpty(Strip(Concat(w))), Segments(rest));
      InkedAppend(w, Flatten(rest));
      TokensSpell(Concat(w));
      InkedSpell(w);
      SameSpelling(Content(Concat(w)), Contents(Segments(rest)), Inked(w), Inked(Flatten(rest)));
      AllIntactStep(windows);
    }
  }

  lemma {:induction false} AllIntactStep(windows: seq<seq<Str>>)
    requires windows != []
    ensures AllIntact(windows) <==> Intact(windows[0]) && AllIntact(windows[1..])
  {
    hide Intact;
    if Intact(windows[0]) && AllIntact(windows[1..]) {
      assert forall i :: 1 <= i < |windows| ==> windows[i] == windows[1..][i - 1];
    }
  }

  /** The windows are the sliced fragments, cut into admissible runs. */
  lemma {:induction false} WindowsPartition(cfg: ChunkingConfig, s: Str)
    requires cfg.maxChars > 0
    ensures Flatten(Windows(cfg, s)) == AllSlices(Fragments(s), cfg.maxChars)
    ensures AllPure(Flatten(Windows(cfg, s)))
    ensures forall i :: 0 <= i < |Windows(cfg, s)| ==> Admissible(Windows(cfg, s)[i], WindowFits(cfg))
    ensures ShortTokens(s, cfg.maxChars) ==> Inked(Flatten(Windows(cfg, s))) == Content(s)
  {
    hide Fragments, Content, AllSlices, Greedy, WindowFits, AllPure, Inked;
    var pieces := AllSlices(Fragments(s), cfg.maxChars);
    GreedyIsPartition([], pieces, WindowFits(cfg));
    assert [] + pieces == pieces;
    FragmentsPure(s);
    PatternsAgree(s);
    AllSlicesInked(Fragments(s), cfg.maxChars);
  }

  /** Pieces within the character limit carry no token beyond it. */
  lemma {:induction false} BoundedTokens(cfg: ChunkingConfig, pieces: seq<Str>, text: Str)
    requires AllBounded(cfg, pieces) && Contents(pieces) == Content(text)
    ensures ShortTokens(text, cfg.maxChars)
  {
    hide Content, Contents, Bounded;
    forall t | t in Content(text) ensures |t| <= cfg.maxChars {
      ContentsOwner(pieces, t);
      var i :| 0 <= i < |pieces| && t in Content(pieces[i]);
      ContentTokensShort(pieces[i]);
      BoundedLength(cfg, pieces[i]);
    }
  }

  /** Windowing keeps the tokens of a sentence, whatever the sentence, if and only if none is
      over-long and no window fuses two of them. */
  lemma {:induction false} WindowingKeepsExactly(cfg: ChunkingConfig, s: Str)
    requires cfg.maxChars > 0
    ensures Contents(SplitHuge(cfg, s)) == Content(s) <==> Survives(cfg, s)
  {
    hide Windows, Segments, Content, Contents, Inks, Ink, AllPure, AllIntact, AllBounded, ShortTokens, Inked;
    SplitHugeBounded(cfg, s);
    WindowsPartition(cfg, s);
    SegmentsKeepExactly(Windows(cfg, s));
    if Contents(SplitHuge(cfg, s)) == Content(s) {
      BoundedTokens(cfg, SplitHuge(cfg, s), s);
    }
  }

  // ---------------------------------------------------------------------- where nothing fuses

  /** Non-empty pieces of whitespace. */
  ghost predicate AllBlank(parts: seq<Str>)
  {
    forall i :: 0 <= i < |parts| ==> parts[i] != [] && IsBlank(parts[i])
  }

  lemma {:induction false} BlankFrontLexed(front: seq<Str>, rest: seq<Str>)
    requires Lexed(rest) && AllBlank(front)
    ensures Lexed(front + rest)
  {
    if front == [] {
      assert front + rest == rest;
    } else {
      assert (front + rest)[1..] == front[1..] + rest;
      BlankFrontLexed(front[1..], rest);
    }
  }

  lemma {:induction false} BlankSlices(tok: Str, n: nat)
    requires n > 0 && tok != [] && IsBlank(tok)
    ensures AllBlank(Slices(tok, n))
    decreases |tok|
  {
    if |tok| > n {
      BlankTail(tok, n);
      BlankSlices(tok[n..], n);
    }
  }

  lemma {:induction false} BlankTail(tok: Str, n: nat)
    requires IsBlank(tok) && n <= |tok|
    ensures IsBlank(tok[..n]) && IsBlank(tok[n..])
  {
  }

  /** Slicing only whitespace leaves a lexed list lexed. */
  lemma {:induction false} AllSlicesLexed(frags: seq<Str>, n: nat)
    requires n > 0 && Lexed(frags)
    requires forall t :: t in Inked(frags) ==> |t| <= n
    ensures Lexed(AllSlices(frags, n))
  {
    hide MatchLen, Slices;
    if frags != [] {
      var rest := AllSlices(frags[1..], n);
      assert forall t :: t in Inked(frags[1..]) ==> t in Inked(frags);
      AllSlicesLexed(frags[1..], n);
      AllSlicesBound(frags, n);
      if IsBlank(frags[0]) {
        BlankSlices(frags[0], n);
        BlankFrontLexed(Slices(frags[0], n), rest);
      } else {
        assert frags[0] in Inked(frags);
        SlicesWhole(frags[0], n);
        assert ([frags[0]] + rest)[1..] == rest;
      }
    }
  }

  lemma {:induction false} LexedWindows(windows: seq<seq<Str>>)
    requires Lexed(Flatten(windows))
    ensures AllIntact(windows)
  {
    hide Lexed, Concat, Content, Inked;
    if windows != [] {
      var w, rest := windows[0], Flatten(windows[1..]);
      LexedPrefix(w + rest, |w|);
      LexedSuffix(w + rest, |w|);
      assert (w + rest)[..|w|] == w && (w + rest)[|w|..] == rest;
      LexedContent(w);
      LexedWindows(windows[1..]);
      AllIntactStep(windows);
    }
  }

  /** No window fuses two tokens, or else the sentence has an over-long token. */
  ghost predicate FusesInNoWindow(cfg: ChunkingConfig, s: Str)
    requires cfg.maxChars > 0
  {
    ShortTokens(s, cfg.maxChars) ==> AllIntact(Windows(cfg, s))
  }

  /** In particular if nothing fuses in the sentence. */
  lemma {:induction false} NothingFusedInWindows(cfg: ChunkingConfig, s: Str)
    requires cfg.maxChars > 0 && FusesNothing(s)
    ensures FusesInNoWindow(cfg, s)
  {
    hide Content, Fragments, Lexed, AllPure, FusesNothing, Windows, AllSlices, AllIntact, WindowFits, Inked;
    if ShortTokens(s, cfg.maxChars) {
      LexedFragmentsExactly(s);
      PatternsAgree(s);
      AllSlicesLexed(Fragments(s), cfg.maxChars);
      WindowsPartition(cfg, s);
      LexedWindows(Windows(cfg, s));
    }
  }

  // ------------------------------------------------------------------------ window sizes

  ghost predicate WindowsWithin(windows: seq<seq<Str>>, limit: nat)
  {
    forall i :: 0 <= i < |windows| ==> Count(Concat(windows[i])) <= limit
  }

  ghost predicate AllWithin(ps: seq<Str>, limit: nat) { forall p :: p in ps ==> Count(p) <= limit }

  lemma {:induction false} WithinAppend(a: seq<Str>, b: seq<Str>, limit: nat)
    ensures AllWithin(a + b, limit) <==> AllWithin(a, limit) && AllWithin(b, limit)
  {
    hide Count;
    assert forall p :: p in a || p in b ==> p in a + b;
  }

  lemma {:induction false} BlankWindow(window: seq<Str>)
    requires NonEmpty(Strip(Concat(window))) == []
    ensures Count(Concat(window)) == 0
  {
    hide Strip, Concat;
    var _, _ := StripSplits(Concat(window));
    ContentOfBlank(Concat(window));
  }

  /** The pieces of a sentence are within a limit exactly if its windows are. */
  lemma {:induction false} SegmentsWithinExactly(windows: seq<seq<Str>>, limit: nat)
    ensures AllWithin(Segments(windows), limit) <==> WindowsWithin(windows, limit)
  {
    hide Strip, Concat, Count, AllWithin;
    if windows == [] {
      NoneWithin(limit);
    } else {
      var w, rest := windows[0], windows[1..];
      SegmentsWithinExactly(rest, limit);
      WithinAppend(NonEmpty(Strip(Concat(w))), Segments(rest), limit);
      WindowWithin(w, limit);
      WindowsWithinStep(windows, limit);
    }
  }

  lemma {:induction false} NoneWithin(limit: nat)
    ensures AllWithin([], limit)
  {
  }

  lemma {:induction false} WindowWithin(w: seq<Str>, limit: nat)
    ensures AllWithin(NonEmpty(Strip(Concat(w))), limit) <==> Count(Concat(w)) <= limit
  {
    hide Strip, Concat, Count;
    SegmentContents(w);
    var kept := NonEmpty(Strip(Concat(w)));
    if kept == [] {
      BlankWindow(w);
    } else {
      assert kept[0] in kept;
    }
  }

  lemma {:induction false} WindowsWithinStep(windows: seq<seq<Str>>, limit: nat)
    requires windows != []
    ensures WindowsWithin(windows, limit) <==>
            Count(Concat(windows[0])) <= limit && WindowsWithin(windows[1..], limit)
  {
    hide Count, Concat;
    if Count(Concat(windows[0])) <= limit && WindowsWithin(windows[1..], limit) {
      assert forall i :: 1 <= i < |windows| ==> windows[i] == windows[1..][i - 1];
    }
  }

  /** The cost of a window: within the target, or that of a single fragment. */
  lemma {:induction false} WindowCost(cfg: ChunkingConfig, window: seq<Str>, limit: nat)
    requires Admissible(window, WindowFits(cfg)) && cfg.targetTokens <= limit
    requires forall t :: t in Inked(window) ==> Cost(t) <= limit
    ensures SumCost(Inked(window)) <= limit
  {
    hide Cost, Concat;
    if |window| == 1 {
      assert window == [window[0]];
      OneCost(window[0]);
      InkedOne(window[0]);
    }
  }

  lemma {:induction false} InkedPart(windows: seq<seq<Str>>, i: nat)
    requires i < |windows|
    ensures forall t :: t in Inked(windows[i]) ==> t in Inked(Flatten(windows))
  {
    hide Inked;
    InkedAppend(windows[0], Flatten(windows[1..]));
    if i > 0 {
      InkedPart(windows[1..], i - 1);
    }
  }

  lemma {:induction false} InkedOwner(windows: seq<seq<Str>>, t: Str)
    requires t in Inked(Flatten(windows))
    ensures exists i :: 0 <= i < |windows| && t in Inked(windows[i])
  {
    if windows == [] {
      assert false;
    }
    hide Inked;
    InkedAppend(windows[0], Flatten(windows[1..]));
    if t !in Inked(windows[0]) {
      InkedOwner(windows[1..], t);
      var i :| 0 <= i < |windows[1..]| && t in Inked(windows[1..][i]);
      assert windows[i + 1] == windows[1..][i];
    }
  }

  /** Where no window fuses tokens, the windows of a sentence are within a limit, the code's own
      target or more, exactly if its tokens are. */
  lemma {:induction false} SurvivorWithinExactly(cfg: ChunkingConfig, s: Str, limit: nat)
    requires cfg.maxChars > 0 && Survives(cfg, s) && cfg.targetTokens <= limit
    ensures WindowsWithin(Windows(cfg, s), limit) <==> CheapTokens(s, limit)
  {
    hide Windows, Content, Concat, Inked, Cost, SumCost, WindowFits, AllPure;
    var windows := Windows(cfg, s);
    WindowsPartition(cfg, s);
    if CheapTokens(s, limit) {
      forall i | 0 <= i < |windows| ensures Count(Concat(windows[i])) <= limit {
        InkedPart(windows, i);
        assert Intact(windows[i]);
        WindowCost(cfg, windows[i], limit);
      }
    }
    if WindowsWithin(windows, limit) {
      forall t | t in Content(s) ensures Cost(t) <= limit {
        InkedOwner(windows, t);
        var i :| 0 <= i < |windows| && t in Inked(windows[i]);
        assert Intact(windows[i]) && Count(Concat(windows[i])) <= limit;
        CostAtMostCount(Inked(windows[i]), t);
      }
    }
  }
}
