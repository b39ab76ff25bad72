/** Sentence runs and token windows are packed by the same greedy rule as tables and lists, and
    so no other packing makes fewer pieces. */
module BlockPacking {
  import opened Text
  import opened Lexer
  import opened Splitting
  import opened Items
  import opened Packing
  import opened Blocks

  // ---------------------------------------------------------------------------- windows

  lemma WindowPart(cfg: ChunkingConfig, pieces: seq<Str>, i: nat, j: nat)
    requires i <= j <= |pieces| && FitsWindow(cfg, pieces)
    ensures FitsWindow(cfg, pieces[i..j])
  {
    hide SumCost, Inked, Concat;
    var a, b, c := pieces[..i], pieces[i..j], pieces[j..];
    assert pieces == a + b + c;
    InkedAppend(a + b, c);
    InkedAppend(a, b);
    SumCostAppend(Inked(a) + Inked(b), Inked(c));
    SumCostAppend(Inked(a), Inked(b));
    ConcatAppend(a + b, c);
    ConcatAppend(a, b);
  }

  lemma WindowFitsHereditary(cfg: ChunkingConfig)
    ensures Hereditary(WindowFits(cfg))
  {
    hide FitsWindow;
    var fits := WindowFits(cfg);
    forall b: seq<Str>, i, j | 0 <= i < j <= |b| && fits(b) ensures fits(b[i..j]) {
      WindowPart(cfg, b, i, j);
    }
  }

  lemma {:induction false} SegmentsAtMost(windows: seq<seq<Str>>)
    ensures |Segments(windows)| <= |windows|
  {
    hide Strip, Concat;
    if windows != [] {
      SegmentsAtMost(windows[1..]);
    }
  }

  /** An oversized sentence is cut into at most as many windows as any order-preserving split of
      its fragments into single fragments and windows within the token and character limits. */
  lemma WindowingIsOptimal(cfg: ChunkingConfig, sentence: Str, rival: seq<seq<Str>>)
    requires cfg.maxChars > 0
    requires Partition(rival, AllSlices(Fragments(sentence), cfg.maxChars), WindowFits(cfg))
    ensures |SplitHuge(cfg, sentence)| <= |rival|
  {
    hide AllSlices, WindowFits, Greedy, Segments;
    var pieces := AllSlices(Fragments(sentence), cfg.maxChars);
    WindowFitsHereditary(cfg);
    GreedyIsOptimal(pieces, rival, WindowFits(cfg));
    SegmentsAtMost(Greedy([], pieces, WindowFits(cfg)));
  }

  // -------------------------------------------------------------------------- sentences

  /** Sentences that may share a piece: none is oversized, and together they fit. */
  predicate FitTogether(cfg: ChunkingConfig, sents: seq<Str>)
  {
    (forall i :: 0 <= i < |sents| ==> !Huge(cfg, sents[i])) && FitsSentences(cfg, sents)
  }

  function SentencesFit(cfg: ChunkingConfig): seq<Str> -> bool { sents => FitTogether(cfg, sents) }

  /** The pieces a block of sentences becomes. */
  function PiecesOf(cfg: ChunkingConfig, block: seq<Str>): (r: seq<Str>)
    requires cfg.maxChars > 0
  {
    if |block| == 1 && Huge(cfg, block[0]) then SplitHuge(cfg, block[0]) else Emit(block)
  }

  function AllPiecesOf(cfg: ChunkingConfig, blocks: seq<seq<Str>>): (r: seq<Str>)
    requires cfg.maxChars > 0
  {
    if blocks == [] then [] else PiecesOf(cfg, blocks[0]) + AllPiecesOf(cfg, blocks[1..])
  }

  lemma SentencePart(cfg: ChunkingConfig, sents: seq<Str>, i: nat, j: nat)
    requires i < j <= |sents| && FitTogether(cfg, sents)
    ensures FitTogether(cfg, sents[i..j])
  {
    hide Count, Join, TotalCount, SumLen, Huge;
    CountJoin([BLANK], sents);
    CountJoin([BLANK], sents[i..j]);
    JoinLength([BLANK], sents);
    JoinLength([BLANK], sents[i..j]);
    TotalsPart(sents, i, j);
    assert forall k :: 0 <= k < j - i ==> sents[i..j][k] == sents[i + k];
  }

  lemma SentencesFitHereditary(cfg: ChunkingConfig)
    ensures Hereditary(SentencesFit(cfg))
  {
    hide FitTogether;
    var fits := SentencesFit(cfg);
    forall b: seq<Str>, i, j | 0 <= i < j <= |b| && fits(b) ensures fits(b[i..j]) {
      SentencePart(cfg, b, i, j);
    }
  }

  lemma AllPiecesCons(cfg: ChunkingConfig, block: seq<Str>, blocks: seq<seq<Str>>)
    requires cfg.maxChars > 0
    ensures AllPiecesOf(cfg, [block] + blocks) == PiecesOf(cfg, block) + AllPiecesOf(cfg, blocks)
  {
    hide PiecesOf;
    assert ([block] + blocks)[1..] == blocks;
  }

  /** Nothing oversized waits in an open block. */
  ghost predicate NoneHuge(cfg: ChunkingConfig, sents: seq<Str>)
  {
    forall i :: 0 <= i < |sents| ==> !Huge(cfg, sents[i])
  }

  /** Adding a sentence to an open block of ordinary ones. */
  lemma TogetherSnoc(cfg: ChunkingConfig, open: seq<Str>, s: Str)
    requires NoneHuge(cfg, open)
    ensures FitTogether(cfg, open + [s]) <==> !Huge(cfg, s) && FitsSentences(cfg, open + [s])
    ensures !Huge(cfg, s) ==> NoneHuge(cfg, open + [s])
  {
    hide Huge, FitsSentences;
    assert (open + [s])[|open|] == s;
  }

  /** The code's packing loop and the greedy rule make the same pieces. */
  lemma {:induction false} PackIsGreedy(cfg: ChunkingConfig, sents: seq<Str>, open: seq<Str>)
    requires cfg.maxChars > 0 && NoneHuge(cfg, open)
    ensures PackSentences(cfg, sents, open) == AllPiecesOf(cfg, Greedy(open, sents, SentencesFit(cfg)))
    decreases |sents|, 1
  {
    hide Huge, FitTogether, FitsSentences, SplitHuge, Emit, NoneHuge;
    OpenPieces(cfg, open);
    if sents == [] {
      GreedyEnd(open, SentencesFit(cfg));
      if open != [] {
        AllPiecesCons(cfg, open, []);
        assert [open] + [] == [open];
      }
    } else {
      var s, rest := sents[0], sents[1..];
      TogetherSnoc(cfg, open, s);
      if Huge(cfg, s) {
        PackHuge(cfg, s, rest);
        if open != [] {
          AllPiecesCons(cfg, open, Greedy([s], rest, SentencesFit(cfg)));
        } else {
          assert open + [s] == [s];
        }
      } else if open != [] && !FitsSentences(cfg, open + [s]) {
        NoneHugeAtFirst(cfg);
        TogetherSnoc(cfg, [], s);
        assert [] + [s] == [s];
        PackIsGreedy(cfg, rest, [s]);
        AllPiecesCons(cfg, open, Greedy([s], rest, SentencesFit(cfg)));
      } else {
        PackIsGreedy(cfg, rest, open + [s]);
      }
    }
  }

  lemma NoneHugeAtFirst(cfg: ChunkingConfig)
    ensures NoneHuge(cfg, [])
  {
  }

  lemma OpenPieces(cfg: ChunkingConfig, open: seq<Str>)
    requires cfg.maxChars > 0 && NoneHuge(cfg, open)
    ensures PiecesOf(cfg, open) == Emit(open)
    ensures open == [] ==> Emit(open) == []
  {
    hide Huge, SplitHuge;
  }

  /** An oversized sentence is a block of its own: whatever comes next does not fit beside it. */
  lemma PackHuge(cfg: ChunkingConfig, s: Str, rest: seq<Str>)
    requires cfg.maxChars > 0 && Huge(cfg, s)
    ensures AllPiecesOf(cfg, Greedy([s], rest, SentencesFit(cfg))) ==
            SplitHuge(cfg, s) + PackSentences(cfg, rest, [])
    decreases |rest|, 2
  {
    hide Huge, FitsSentences, SplitHuge, Emit, NoneHuge;
    var fits := SentencesFit(cfg);
    NoneHugeAtFirst(cfg);
    if rest == [] {
      GreedyEnd([s], fits);
      AllPiecesCons(cfg, [s], []);
      assert [[s]] + [] == [[s]];
      PackEnd(cfg, []);
      OpenPieces(cfg, []);
    } else {
      assert ([s] + [rest[0]])[0] == s;
      assert !fits([s] + [rest[0]]);
      AllPiecesCons(cfg, [s], Greedy([rest[0]], rest[1..], fits));
      assert [] + [rest[0]] == [rest[0]];
      assert Greedy([], rest, fits) == Greedy([rest[0]], rest[1..], fits);
      PackIsGreedy(cfg, rest, []);
    }
  }

  // ---------------------------------------------------------------- fewest pieces in all

  /** What the oversized sentences add beyond one piece each. */
  function Extra(cfg: ChunkingConfig, sents: seq<Str>): (n: int)
    requires cfg.maxChars > 0
  {
    if sents == [] then 0
    else (if Huge(cfg, sents[0]) then |SplitHuge(cfg, sents[0])| - 1 else 0) + Extra(cfg, sents[1..])
  }

  lemma {:induction false} ExtraAppend(cfg: ChunkingConfig, a: seq<Str>, b: seq<Str>)
    requires cfg.maxChars > 0
    ensures Extra(cfg, a + b) == Extra(cfg, a) + Extra(cfg, b)
  {
    hide Huge, SplitHuge;
    if a == [] {
      assert a + b == b;
    } else {
      assert (a + b)[1..] == a[1..] + b;
      ExtraAppend(cfg, a[1..], b);
    }
  }

  lemma {:induction false} ExtraNone(cfg: ChunkingConfig, sents: seq<Str>)
    requires cfg.maxChars > 0 && NoneHuge(cfg, sents)
    ensures Extra(cfg, sents) == 0
  {
    hide Huge, SplitHuge;
    if sents != [] {
      ExtraNone(cfg, sents[1..]);
    }
  }

  lemma BlockPiecesCount(cfg: ChunkingConfig, block: seq<Str>)
    requires cfg.maxChars > 0 && Admissible(block, SentencesFit(cfg))
    ensures |PiecesOf(cfg, block)| == 1 + Extra(cfg, block)
  {
    hide Huge, SplitHuge, FitsSentences;
    if |block| == 1 {
      assert block == [block[0]] && block[1..] == [];
    } else {
      ExtraNone(cfg, block);
    }
  }

  lemma {:induction false} PiecesCount(cfg: ChunkingConfig, blocks: seq<seq<Str>>, sents: seq<Str>)
    requires cfg.maxChars > 0 && Partition(blocks, sents, SentencesFit(cfg))
    ensures |AllPiecesOf(cfg, blocks)| == |blocks| + Extra(cfg, sents)
    decreases |blocks|
  {
    hide PiecesOf, FitTogether;
    if blocks != [] {
      var rest := Flatten(blocks[1..]);
      BlockPiecesCount(cfg, blocks[0]);
      PiecesCount(cfg, blocks[1..], rest);
      ExtraAppend(cfg, blocks[0], rest);
    }
  }

  /** A paragraph's sentences are packed into the fewest pieces: no order-preserving split into
      single sentences and runs of ordinary sentences within the token and character limits
      makes fewer, oversized sentences being windowed alike. */
  lemma SentencePackingIsOptimal(cfg: ChunkingConfig, sents: seq<Str>, rival: seq<seq<Str>>)
    requires cfg.maxChars > 0 && Partition(rival, sents, SentencesFit(cfg))
    ensures |PackSentences(cfg, sents, [])| <= |AllPiecesOf(cfg, rival)|
  {
    hide FitTogether, PackSentences, AllPiecesOf, Greedy;
    var blocks := Greedy([], sents, SentencesFit(cfg));
    NoneHugeAtFirst(cfg);
    PackIsGreedy(cfg, sents, []);
    GreedyIsPartition([], sents, SentencesFit(cfg));
    assert [] + sents == sents;
    SentencesFitHereditary(cfg);
    GreedyIsOptimal(sents, rival, SentencesFit(cfg));
    PiecesCount(cfg, blocks, sents);
    PiecesCount(cfg, rival, sents);
  }
}
