/** Text blocks: the cascade from paragraphs to sentences to bounded token windows. */
module Blocks {
  import opened Text
  import opened Lexer
  import opened Tokenizer
  import opened Splitting
  import opened Sentences
  import opened Items
  import opened Packing

  // ------------------------------------------------------------- windows of one sentence

  /** A fragment cut into slices of at most `n` characters. */
  function Slices(tok: Str, n: nat): (r: seq<Str>)
    requires n > 0
    decreases |tok|
  {
    if |tok| <= n then [tok] else [tok[..n]] + Slices(tok[n..], n)
  }

  function AllSlices(frags: seq<Str>, n: nat): (r: seq<Str>)
    requires n > 0
  {
    if frags == [] then [] else Slices(frags[0], n) + AllSlices(frags[1..], n)
  }

  predicate FitsWindow(cfg: ChunkingConfig, pieces: seq<Str>)
  {
    SumCost(Inked(pieces)) <= cfg.targetTokens && |Concat(pieces)| <= cfg.maxChars
  }

  function WindowFits(cfg: ChunkingConfig): seq<Str> -> bool { pieces => FitsWindow(cfg, pieces) }

  /** The text of each window, stripped; windows of whitespace disappear. */
  function Segments(windows: seq<seq<Str>>): (r: seq<Str>)
  {
    if windows == [] then [] else NonEmpty(Strip(Concat(windows[0]))) + Segments(windows[1..])
  }

  /** The windows an oversized sentence is cut into. */
  function Windows(cfg: ChunkingConfig, sentence: Str): (r: seq<seq<Str>>)
    requires cfg.maxChars > 0
  {
    Greedy([], AllSlices(Fragments(sentence), cfg.maxChars), WindowFits(cfg))
  }

  function SplitHuge(cfg: ChunkingConfig, sentence: Str): (r: seq<Str>)
    requires cfg.maxChars > 0
  {
    Segments(Windows(cfg, sentence))
  }

  lemma SegmentsCons(window: seq<Str>, windows: seq<seq<Str>>)
    ensures Segments([window] + windows) == NonEmpty(Strip(Concat(window))) + Segments(windows)
  {
    hide Strip, Concat;
    assert ([window] + windows)[1..] == windows;
  }

  lemma SlicesStep(tok: Str, n: nat, i: nat)
    requires n > 0 && i < |tok|
    ensures Slices(tok[i..], n) ==
      if i + n < |tok| then [tok[i..i + n]] + Slices(tok[i + n..], n) else [tok[i..]]
  {
    if i + n < |tok| {
      assert tok[i..][..n] == tok[i..i + n] && tok[i..][n..] == tok[i + n..];
    }
  }

  method SliceFragment(tok: Str, n: nat) returns (pieces: seq<Str>)
    requires 0 < n < |tok|
    ensures pieces == Slices(tok, n)
  {
    hide Slices;
    pieces := [];
    var i := 0;
    assert tok[0..] == tok;
    while i < |tok|
      invariant pieces + (if i < |tok| then Slices(tok[i..], n) else []) == Slices(tok, n)
    {
      SlicesStep(tok, n, i);
      var end := if i + n < |tok| then i + n else |tok|;
      assert end == |tok| ==> tok[i..end] == tok[i..];
      pieces := pieces + [tok[i..end]];
      i := i + n;
    }
  }

  method SliceFragments(frags: seq<Str>, n: nat) returns (tokens: seq<Str>)
    requires n > 0
    ensures tokens == AllSlices(frags, n)
  {
    hide Slices, AllSlices;
    tokens := [];
    assert frags[0..] == frags;
    for k := 0 to |frags|
      invariant tokens + AllSlices(frags[k..], n) == AllSlices(frags, n)
    {
      AllSlicesStep(frags, n, k);
      if |frags[k]| > n {
        var pieces := SliceFragment(frags[k], n);
        tokens := tokens + pieces;
      } else {
        tokens := tokens + [frags[k]];
      }
    }
    NothingToSlice(n);
    assert frags[|frags|..] == [];
  }

  lemma {:induction false} AllSlicesStep(frags: seq<Str>, n: nat, k: nat)
    requires n > 0 && k < |frags|
    ensures AllSlices(frags[k..], n) ==
      (if |frags[k]| > n then Slices(frags[k], n) else [frags[k]]) + AllSlices(frags[k + 1..], n)
  {
    assert frags[k..][0] == frags[k] && frags[k..][1..] == frags[k + 1..];
  }

  lemma {:induction false} NothingToSlice(n: nat)
    requires n > 0
    ensures AllSlices([], n) == []
  {
  }

  /** The pieces still to come when `open` is the window being filled. */
  function WindowPieces(cfg: ChunkingConfig, toks: seq<Str>, open: seq<Str>): (r: seq<Str>)
  {
    Segments(Greedy(open, toks, WindowFits(cfg)))
  }

  lemma {:induction false} WindowPiecesStep(cfg: ChunkingConfig, toks: seq<Str>, i: nat, open: seq<Str>)
    requires i < |toks|
    ensures WindowPieces(cfg, toks[i..], open) ==
      if open != [] && !FitsWindow(cfg, open + [toks[i]])
      then NonEmpty(Strip(Concat(open))) + WindowPieces(cfg, toks[i + 1..], [toks[i]])
      else WindowPieces(cfg, toks[i + 1..], open + [toks[i]])
  {
    hide Strip, Concat, FitsWindow, Segments, Greedy;
    GreedyStep(open, toks, i, WindowFits(cfg));
    SegmentsCons(open, Greedy([toks[i]], toks[i + 1..], WindowFits(cfg)));
  }

  lemma {:induction false} WindowPiecesEnd(cfg: ChunkingConfig, open: seq<Str>)
    ensures WindowPieces(cfg, [], open) == if open == [] then [] else NonEmpty(Strip(Concat(open)))
  {
    hide Strip, Concat;
    SegmentsNone();
    if open != [] {
      SegmentsCons(open, []);
      assert [open] + [] == [open];
    }
  }

  method SplitHugeSentence(cfg: ChunkingConfig, sentence: Str) returns (segments: seq<Str>)
    requires cfg.maxChars > 0
    ensures segments == SplitHuge(cfg, sentence)
  {
    hide Strip, Concat, Greedy, Segments, Inked, SumCost, AllSlices, Fragments, NonEmpty, Cost;
    var tokens := SliceFragments(Fragments(sentence), cfg.maxChars);
    segments := [];
    var current: seq<Str> := [];
    var count := 0;
    assert tokens[0..] == tokens;
    assert WindowPieces(cfg, tokens, []) == SplitHuge(cfg, sentence);
    hide WindowPieces;
    assert SumCost(Inked(current)) == 0 by { EmptyCost(); }
    for i := 0 to |tokens|
      invariant count == SumCost(Inked(current))
      invariant segments + WindowPieces(cfg, tokens[i..], current) == SplitHuge(cfg, sentence)
    {
      hide SplitHuge;
      var sub := if !IsSpaceTok(tokens[i]) then Cost(tokens[i]) else 0;
      SumCostInkedSnoc(current, tokens[i]);
      WindowPiecesStep(cfg, tokens, i, current);
      var test := Concat(current + [tokens[i]]);
      if current != [] && (count + sub > cfg.targetTokens || |test| > cfg.maxChars) {
        segments := AddSegment(segments, current);
        OneCost(tokens[i]);
        current := [tokens[i]];
        count := sub;
      } else {
        current := current + [tokens[i]];
        count := count + sub;
      }
    }
    assert tokens[|tokens|..] == [];
    WindowPiecesEnd(cfg, current);
    if current != [] {
      segments := AddSegment(segments, current);
    }
  }

  method AddSegment(segments: seq<Str>, window: seq<Str>) returns (r: seq<Str>)
    ensures r == segments + NonEmpty(Strip(Concat(window)))
  {
    hide Strip, Concat;
    var seg := Strip(Concat(window));
    r := if seg != [] then segments + [seg] else segments;
  }

  lemma OneCost(tok: Str)
    ensures SumCost(Inked([tok])) == SubCount(tok)
  {
    hide Cost;
    SumCostInkedSnoc([], tok);
    assert [] + [tok] == [tok];
  }

  lemma EmptyCost()
    ensures SumCost(Inked([])) == 0
  {
  }

  lemma SegmentsNone()
    ensures Segments([]) == []
  {
  }

  // -------------------------------------------------------------------- packing sentences

  predicate Huge(cfg: ChunkingConfig, s: Str) { Count(s) > cfg.maxTokens || |s| > cfg.maxChars }

  predicate FitsSentences(cfg: ChunkingConfig, sents: seq<Str>)
  {
    Count(Join([BLANK], sents)) <= cfg.targetTokens && |Join([BLANK], sents)| <= cfg.maxChars
  }

  function Emit(open: seq<Str>): (r: seq<Str>)
  {
    if open == [] then [] else [Join([BLANK], open)]
  }

  /** The pieces made of `sents` when `open` is waiting to be emitted. */
  function PackSentences(cfg: ChunkingConfig, sents: seq<Str>, open: seq<Str>): (r: seq<Str>)
    requires cfg.maxChars > 0
    decreases |sents|
  {
    if sents == [] then Emit(open)
    else if Huge(cfg, sents[0]) then
      Emit(open) + (SplitHuge(cfg, sents[0]) + PackSentences(cfg, sents[1..], []))
    else if open != [] && !FitsSentences(cfg, open + [sents[0]]) then
      Emit(open) + PackSentences(cfg, sents[1..], [sents[0]])
    else PackSentences(cfg, sents[1..], open + [sents[0]])
  }

  lemma PackStep(cfg: ChunkingConfig, sents: seq<Str>, i: nat, open: seq<Str>)
    requires cfg.maxChars > 0 && i < |sents|
    ensures PackSentences(cfg, sents[i..], open) ==
      if Huge(cfg, sents[i]) then
        Emit(open) + (SplitHuge(cfg, sents[i]) + PackSentences(cfg, sents[i + 1..], []))
      else if open != [] && !FitsSentences(cfg, open + [sents[i]]) then
        Emit(open) + PackSentences(cfg, sents[i + 1..], [sents[i]])
      else PackSentences(cfg, sents[i + 1..], open + [sents[i]])
  {
    hide Huge, FitsSentences, Emit, SplitHuge;
    assert sents[i..][0] == sents[i] && sents[i..][1..] == sents[i + 1..];
  }

  // -------------------------------------------------------------------------- the cascade

  const PARAGRAPH_SEP: Str := [NEWLINE, NEWLINE]

  function Paragraphs(text: Str): (r: seq<Str>)
  {
    StripAll(NonBlank(SplitOn(PARAGRAPH_SEP, text)))
  }

  function BlockPieces(cfg: ChunkingConfig, text: Str): (r: seq<Str>)
    requires cfg.maxChars > 0
    decreases |text|
  {
    var t := Strip(text);
    if t == [] then []
    else if !Huge(cfg, t) then [t]
    else if |Paragraphs(t)| > 1 then
      ParagraphsShorter(t);
      AllPieces(cfg, Paragraphs(t), |text|)
    else PackSentences(cfg, SentencesOf(t), [])
  }

  function AllPieces(cfg: ChunkingConfig, paragraphs: seq<Str>, limit: nat): (r: seq<Str>)
    requires cfg.maxChars > 0
    requires forall p :: p in paragraphs ==> |p| < limit
    decreases limit, |paragraphs|
  {
    if paragraphs == [] then []
    else BlockPieces(cfg, paragraphs[0]) + AllPieces(cfg, paragraphs[1..], limit)
  }

  /** What makes the paragraph recursion end: several paragraphs are each shorter than the
      text they came from. */
  lemma ParagraphsShorter(t: Str)
    requires |Paragraphs(t)| > 1
    ensures forall p :: p in Paragraphs(t) ==> |p| < |t|
  {
    hide Strip, Join;
    var parts := SplitOn(PARAGRAPH_SEP, t);
    var solid := NonBlank(parts);
    JoinSplit(PARAGRAPH_SEP, t);
    JoinLength(PARAGRAPH_SEP, parts);
    NonBlankCount(parts);
    forall p | p in Paragraphs(t) ensures |p| < |t| {
      var i :| 0 <= i < |solid| && p == Strip(solid[i]);
      var pre, post := StripSplits(solid[i]);
      MemberLength(parts, solid[i]);
    }
  }

  lemma {:induction false} NonBlankCount(parts: seq<Str>)
    ensures |NonBlank(parts)| <= |parts|
  {
    if parts != [] {
      NonBlankCount(parts[1..]);
    }
  }

  lemma {:induction false} MemberLength(parts: seq<Str>, p: Str)
    requires p in parts
    ensures |p| <= SumLen(parts)
  {
    if parts[0] != p {
      MemberLength(parts[1..], p);
    }
  }

  method ChunkBlock(cfg: ChunkingConfig, text: Str, kind: ChunkType, origin: Origin)
    returns (chunks: seq<RawItem>)
    requires cfg.maxChars > 0
    ensures chunks == Wrap(BlockPieces(cfg, text), kind, origin)
    decreases |text|
  {
    hide Strip, Paragraphs, SentencesOf, Count, Wrap, NewItem, AllPieces, PackSentences;
    var t := Strip(text);
    if t == [] {
      WrapNone(kind, origin);
      return [];
    }
    var tokens := CountTokens(t);
    if tokens <= cfg.maxTokens && |t| <= cfg.maxChars {
      WrapOne(t, kind, origin);
      return [NewItem(t, kind, origin)];
    }
    var paragraphs := Paragraphs(t);
    if |paragraphs| > 1 {
      ParagraphsShorter(t);
      StripLength(text);
      chunks := ChunkParagraphs(cfg, paragraphs, kind, origin, |text|);
    } else {
      var sentences := Split(t);
      chunks := ChunkSentences(cfg, sentences, kind, origin);
    }
  }

  lemma StripLength(text: Str)
    ensures |Strip(text)| <= |text|
  {
    var _, _ := StripSplits(text);
  }

  method ChunkParagraphs(
      cfg: ChunkingConfig, paragraphs: seq<Str>, kind: ChunkType, origin: Origin, ghost limit: nat)
    returns (chunks: seq<RawItem>)
    requires cfg.maxChars > 0
    requires forall p :: p in paragraphs ==> |p| < limit
    ensures chunks == Wrap(AllPieces(cfg, paragraphs, limit), kind, origin)
    decreases limit, 0
  {
    hide Wrap, NewItem, BlockPieces;
    chunks := [];
    assert paragraphs[0..] == paragraphs;
    for i := 0 to |paragraphs|
      invariant chunks + Wrap(AllPieces(cfg, paragraphs[i..], limit), kind, origin)
             == Wrap(AllPieces(cfg, paragraphs, limit), kind, origin)
    {
      var items := ChunkBlock(cfg, paragraphs[i], kind, origin);
      assert paragraphs[i..][0] == paragraphs[i] && paragraphs[i..][1..] == paragraphs[i + 1..];
      WrapAppend(BlockPieces(cfg, paragraphs[i]), AllPieces(cfg, paragraphs[i + 1..], limit), kind, origin);
      chunks := chunks + items;
    }
    WrapNone(kind, origin);
  }

  lemma WrapNone(kind: ChunkType, origin: Origin)
    ensures Wrap([], kind, origin) == []
  {
  }

  function PackItems(cfg: ChunkingConfig, sents: seq<Str>, open: seq<Str>, kind: ChunkType, origin: Origin)
    : (r: seq<RawItem>)
    requires cfg.maxChars > 0
  {
    Wrap(PackSentences(cfg, sents, open), kind, origin)
  }

  /** One step of sentence packing, seen from inside a loop that collects items. */
  lemma PackItemsStep(
      cfg: ChunkingConfig, sents: seq<Str>, i: nat, open: seq<Str>, kind: ChunkType, origin: Origin)
    requires cfg.maxChars > 0 && i < |sents|
    ensures PackItems(cfg, sents[i..], open, kind, origin) ==
      if Huge(cfg, sents[i]) then
        Wrap(Emit(open), kind, origin) + Wrap(SplitHuge(cfg, sents[i]), kind, origin) +
        PackItems(cfg, sents[i + 1..], [], kind, origin)
      else if open != [] && !FitsSentences(cfg, open + [sents[i]]) then
        Wrap(Emit(open), kind, origin) + PackItems(cfg, sents[i + 1..], [sents[i]], kind, origin)
      else PackItems(cfg, sents[i + 1..], open + [sents[i]], kind, origin)
  {
    hide Wrap, PackSentences, Huge, FitsSentences, Emit, SplitHuge;
    PackStep(cfg, sents, i, open);
    if Huge(cfg, sents[i]) {
      var later := PackSentences(cfg, sents[i + 1..], []);
      WrapAppend(Emit(open), SplitHuge(cfg, sents[i]) + later, kind, origin);
      WrapAppend(SplitHuge(cfg, sents[i]), later, kind, origin);
    } else {
      WrapAppend(Emit(open), PackSentences(cfg, sents[i + 1..], [sents[i]]), kind, origin);
    }
  }

  method ChunkSentences(cfg: ChunkingConfig, sentences: seq<Str>, kind: ChunkType, origin: Origin)
    returns (chunks: seq<RawItem>)
    requires cfg.maxChars > 0
    ensures chunks == Wrap(PackSentences(cfg, sentences, []), kind, origin)
  {
    hide Wrap, NewItem, Count, Join, PackSentences, SplitHuge, Emit;
    chunks := [];
    var current: seq<Str> := [];
    ghost var all := PackItems(cfg, sentences, [], kind, origin);
    assert sentences[0..] == sentences;
    for i := 0 to |sentences|
      invariant chunks + PackItems(cfg, sentences[i..], current, kind, origin) == all
    {
      hide PackItems;
      var sent := sentences[i];
      var sentTokens := CountTokens(sent);
      PackItemsStep(cfg, sentences, i, current, kind, origin);
      if sentTokens > cfg.maxTokens || |sent| > cfg.maxChars {
        var flushed := FlushSentences(current, kind, origin);
        var segments := SplitHugeSentence(cfg, sent);
        var items := WrapSegments(segments, kind, origin);
        chunks := chunks + (flushed + items);
        current := [];
        continue;
      }
      var test := Join([BLANK], current + [sent]);
      var testTokens := CountTokens(test);
      if current != [] && (testTokens > cfg.targetTokens || |test| > cfg.maxChars) {
        var flushed := FlushSentences(current, kind, origin);
        chunks := chunks + flushed;
        current := [sent];
      } else {
        current := current + [sent];
      }
    }
    assert sentences[|sentences|..] == [];
    PackEnd(cfg, current);
    var flushed := FlushSentences(current, kind, origin);
    chunks := chunks + flushed;
  }

  lemma PackEnd(cfg: ChunkingConfig, open: seq<Str>)
    requires cfg.maxChars > 0
    ensures PackSentences(cfg, [], open) == Emit(open)
  {
  }

  method FlushSentences(current: seq<Str>, kind: ChunkType, origin: Origin) returns (items: seq<RawItem>)
    ensures items == Wrap(Emit(current), kind, origin)
  {
    hide NewItem, Join;
    items := [];
    if current != [] {
      items := [NewItem(Join([BLANK], current), kind, origin)];
    }
  }

  method WrapSegments(segments: seq<Str>, kind: ChunkType, origin: Origin) returns (items: seq<RawItem>)
    ensures items == Wrap(segments, kind, origin)
  {
    hide NewItem;
    items := [];
    for i := 0 to |segments|
      invariant items == Wrap(segments, kind, origin)[..i]
    {
      items := items + [NewItem(segments[i], kind, origin)];
    }
  }
}
