/** The rules of the four splitters with every limit and separator written out: what is kept whole,
    where the cuts fall, and that no fewer pieces would do. */
module SplitRules {
  import opened Wrappers
  import opened Text
  import opened Lexer
  import opened Splitting
  import opened Sentences
  import opened Items
  import opened Packing
  import opened Blocks
  import BlockPacking
  import MuteText
  import Lists
  import Tables
  import TableSlicer

  // ------------------------------------------------------------------------ cutting rules

  /** An order-preserving cut of the items into single items and blocks that fit. */
  ghost predicate CutInto<T>(blocks: seq<seq<T>>, items: seq<T>, fits: seq<T> -> bool)
  {
    Flatten(blocks) == items &&
    forall i :: 0 <= i < |blocks| ==> |blocks[i]| == 1 || (blocks[i] != [] && fits(blocks[i]))
  }

  /** Such a cut in which a block is closed only because the next item does not fit beside it. */
  ghost predicate CutLate<T>(blocks: seq<seq<T>>, items: seq<T>, fits: seq<T> -> bool)
  {
    CutInto(blocks, items, fits) &&
    forall j :: 1 <= j < |blocks| ==> blocks[j] != [] && !fits(blocks[j - 1] + [blocks[j][0]])
  }

  lemma {:induction false} GreedyCutsLate<T>(items: seq<T>, used: seq<T> -> bool, fits: seq<T> -> bool)
    requires forall b :: used(b) == fits(b)
    ensures CutLate(Greedy([], items, used), items, fits)
  {
    hide Greedy, Flatten;
    var blocks := Greedy([], items, used);
    GreedyIsPartition([], items, used);
    GreedyIsMaximal([], items, used);
    assert [] + items == items;
    forall i | 0 <= i < |blocks| ensures |blocks[i]| == 1 || (blocks[i] != [] && fits(blocks[i])) {
      assert Admissible(blocks[i], used);
      assert used(blocks[i]) == fits(blocks[i]);
    }
    forall j | 1 <= j < |blocks| ensures blocks[j] != [] && !fits(blocks[j - 1] + [blocks[j][0]]) {
      assert ClosedBefore(blocks[j - 1], blocks[j], used);
      var b := blocks[j - 1] + [blocks[j][0]];
      assert used(b) == fits(b);
    }
  }

  lemma {:induction false} CutIsPartition<T>(
      blocks: seq<seq<T>>, items: seq<T>, used: seq<T> -> bool, fits: seq<T> -> bool)
    requires CutInto(blocks, items, fits) && forall b :: used(b) == fits(b)
    ensures Partition(blocks, items, used)
  {
  }

  /** Within the soft limits. */
  predicate Soft(cfg: ChunkingConfig, text: Str) { Count(text) <= cfg.targetTokens && |text| <= cfg.maxChars }

  /** Over one of the hard limits. */
  predicate Over(cfg: ChunkingConfig, text: Str) { Count(text) > cfg.maxTokens || |text| > cfg.maxChars }

  // -------------------------------------------------------------------------------- lists

  const LINE_BREAK: Str := [Space('\n')]

  function LinesFit(cfg: ChunkingConfig): seq<Str> -> bool { lines => Soft(cfg, Join(LINE_BREAK, lines)) }

  /** The lines of a list that hold anything. */
  function ListLines(text: Str): (r: seq<Str>) { NonBlank(SplitOn(LINE_BREAK, Strip(text))) }

  /** A list within the soft limits is one piece; otherwise its lines are cut late and each piece is
      the lines of a block. */
  lemma {:induction false} ListsAreCut(cfg: ChunkingConfig, text: Str) returns (blocks: seq<seq<Str>>)
    ensures
      if Strip(text) == [] then Lists.ListPieces(cfg, text) == []
      else if Soft(cfg, Strip(text)) then Lists.ListPieces(cfg, text) == [Strip(text)]
      else
        CutLate(blocks, ListLines(text), LinesFit(cfg)) && |Lists.ListPieces(cfg, text)| == |blocks| &&
        forall i :: 0 <= i < |blocks| ==> Lists.ListPieces(cfg, text)[i] == Join(LINE_BREAK, blocks[i])
  {
    hide Strip, Content, SumCost, Join, Greedy;
    blocks := Greedy([], ListLines(text), Lists.Fits(cfg));
    GreedyCutsLate(ListLines(text), Lists.Fits(cfg), LinesFit(cfg));
  }

  /** No other cut of the lines makes fewer pieces. */
  lemma {:induction false} ListsAreCutBest(cfg: ChunkingConfig, text: Str, rival: seq<seq<Str>>)
    requires ListLines(text) != [] && CutInto(rival, ListLines(text), LinesFit(cfg))
    ensures |Lists.ListPieces(cfg, text)| <= |rival|
  {
    hide Strip, Content, SumCost, Join, Greedy;
    CutIsPartition(rival, ListLines(text), Lists.Fits(cfg), LinesFit(cfg));
    Lists.SplittingIsOptimal(cfg, text, rival);
  }

  // ------------------------------------------------------------------------------- tables

  function RowsFit(cfg: ChunkingConfig, headers: Tables.Row): seq<Tables.Row> -> bool
  {
    rows => Soft(cfg, Tables.Render(headers, rows)) && |rows| <= cfg.maxTableRows
  }

  /** A table that fits is one slice; otherwise its rows are cut late, and each slice prints a block
      and names its rows. */
  lemma {:induction false} TablesAreCut(cfg: ChunkingConfig, t: Tables.Table, origin: Origin)
    returns (blocks: seq<seq<Tables.Row>>)
    requires t.rows != []
    ensures
      if RowsFit(cfg, t.headers)(t.rows) then blocks == [t.rows]
      else CutLate(blocks, t.rows, RowsFit(cfg, t.headers))
    ensures var items := TableSlicer.TableItems(cfg, t, origin);
      |items| == |blocks| && forall i :: 0 <= i < |blocks| ==>
        items[i].content == Strip(Tables.Render(t.headers, blocks[i])) &&
        items[i].rows == Some((|Flatten(blocks[..i])|, |Flatten(blocks[..i])| + |blocks[i]|))
  {
    hide Strip, Content, SumCost, Tables.Render, Greedy, Flatten;
    blocks := TableSlicer.Blocks(cfg, t);
    GreedyCutsLate(t.rows, TableSlicer.Fits(cfg, t.headers), RowsFit(cfg, t.headers));
    SlicesAt(t.headers, blocks, 0, origin);
  }

  lemma {:induction false} SlicesAt(headers: Tables.Row, blocks: seq<seq<Tables.Row>>, start: nat, origin: Origin)
    ensures var items := TableSlicer.SliceItems(headers, blocks, start, origin);
      |items| == |blocks| && forall i :: 0 <= i < |blocks| ==>
        items[i].content == Strip(Tables.Render(headers, blocks[i])) &&
        items[i].rows == Some((start + |Flatten(blocks[..i])|, start + |Flatten(blocks[..i])| + |blocks[i]|))
  {
    hide Strip, Tables.Render;
    if blocks != [] {
      var rest := TableSlicer.SliceItems(headers, blocks[1..], start + |blocks[0]|, origin);
      SlicesAt(headers, blocks[1..], start + |blocks[0]|, origin);
      assert blocks[..0] == [];
      forall i | 1 <= i < |blocks|
        ensures |Flatten(blocks[..i])| == |blocks[0]| + |Flatten(blocks[1..][..i - 1])|
      {
        assert blocks[..i][1..] == blocks[1..][..i - 1];
      }
    }
  }

  lemma {:induction false} TablesAreCutBest(
      cfg: ChunkingConfig, t: Tables.Table, origin: Origin, rival: seq<seq<Tables.Row>>)
    requires t.rows != [] && CutInto(rival, t.rows, RowsFit(cfg, t.headers))
    ensures |TableSlicer.TableItems(cfg, t, origin)| <= |rival|
  {
    hide Content, SumCost, Tables.Render, Greedy;
    CutIsPartition(rival, t.rows, TableSlicer.Fits(cfg, t.headers), RowsFit(cfg, t.headers));
    TableSlicer.SlicingIsOptimal(cfg, t, origin, rival);
  }

  // ------------------------------------------------------------------------------ windows

  function FragmentsFit(cfg: ChunkingConfig): seq<Str> -> bool
  {
    toks => SumCost(Inked(toks)) <= cfg.targetTokens && |Concat(toks)| <= cfg.maxChars
  }

  /** The fragments of an oversized sentence, over-long ones sliced, are cut late; each window's
      stripped text is a piece unless it is empty. */
  lemma {:induction false} SentencesAreWindowed(cfg: ChunkingConfig, s: Str) returns (windows: seq<seq<Str>>)
    requires cfg.maxChars > 0
    ensures CutLate(windows, AllSlices(Fragments(s), cfg.maxChars), FragmentsFit(cfg))
    ensures SplitHuge(cfg, s) == NonEmptyTexts(windows)
  {
    hide Inked, SumCost, Concat, Greedy, Fragments, AllSlices;
    windows := Windows(cfg, s);
    GreedyCutsLate(AllSlices(Fragments(s), cfg.maxChars), WindowFits(cfg), FragmentsFit(cfg));
    SegmentsAreTexts(windows);
  }

  function NonEmptyTexts(windows: seq<seq<Str>>): (r: seq<Str>)
  {
    if windows == [] then []
    else
      var text := Strip(Concat(windows[0]));
      (if text == [] then [] else [text]) + NonEmptyTexts(windows[1..])
  }

  lemma {:induction false} SegmentsAreTexts(windows: seq<seq<Str>>)
    ensures Segments(windows) == NonEmptyTexts(windows)
  {
    hide Strip, Concat;
    if windows != [] {
      SegmentsAreTexts(windows[1..]);
    }
  }

  lemma {:induction false} WindowsAreCutBest(cfg: ChunkingConfig, s: Str, rival: seq<seq<Str>>)
    requires cfg.maxChars > 0 && CutInto(rival, AllSlices(Fragments(s), cfg.maxChars), FragmentsFit(cfg))
    ensures |SplitHuge(cfg, s)| <= |rival|
  {
    hide Inked, SumCost, Concat, Greedy, Fragments, AllSlices, SplitHuge;
    CutIsPartition(rival, AllSlices(Fragments(s), cfg.maxChars), WindowFits(cfg), FragmentsFit(cfg));
    BlockPacking.WindowingIsOptimal(cfg, s, rival);
  }

  // ---------------------------------------------------------------------------- sentences

  const SPACE_BETWEEN: Str := [Space(' ')]

  /** Sentences that may share a piece: none is oversized, and together they are within the soft
      limits. */
  function SentencesMix(cfg: ChunkingConfig): seq<Str> -> bool
  {
    sents => (forall i :: 0 <= i < |sents| ==> !Over(cfg, sents[i])) && Soft(cfg, Join(SPACE_BETWEEN, sents))
  }

  /** The pieces of one block of sentences: an oversized one is windowed, others are joined. */
  function PiecesOfRun(cfg: ChunkingConfig, run: seq<Str>): (r: seq<Str>)
    requires cfg.maxChars > 0 && run != []
  {
    if |run| == 1 && Over(cfg, run[0]) then SplitHuge(cfg, run[0]) else [Join(SPACE_BETWEEN, run)]
  }

  ghost predicate AllRuns(runs: seq<seq<Str>>) { forall i :: 0 <= i < |runs| ==> runs[i] != [] }

  function PiecesOfRuns(cfg: ChunkingConfig, runs: seq<seq<Str>>): (r: seq<Str>)
    requires cfg.maxChars > 0 && AllRuns(runs)
  {
    if runs == [] then [] else PiecesOfRun(cfg, runs[0]) + PiecesOfRuns(cfg, runs[1..])
  }

  lemma {:induction false} RunsAreBlocks(cfg: ChunkingConfig, runs: seq<seq<Str>>)
    requires cfg.maxChars > 0 && AllRuns(runs)
    ensures BlockPacking.AllPiecesOf(cfg, runs) == PiecesOfRuns(cfg, runs)
  {
    hide SplitHuge, Join, Content, SumCost;
    if runs != [] {
      RunsAreBlocks(cfg, runs[1..]);
    }
  }

  /** The sentences of a paragraph are cut late, and the pieces are those of the runs. */
  lemma {:induction false} SentencesAreCut(cfg: ChunkingConfig, sents: seq<Str>) returns (runs: seq<seq<Str>>)
    requires cfg.maxChars > 0
    ensures CutLate(runs, sents, SentencesMix(cfg)) && AllRuns(runs)
    ensures PackSentences(cfg, sents, []) == PiecesOfRuns(cfg, runs)
  {
    hide Join, Content, SumCost, Greedy, PackSentences, PiecesOfRuns;
    runs := Greedy([], sents, BlockPacking.SentencesFit(cfg));
    SameMix(cfg);
    GreedyCutsLate(sents, BlockPacking.SentencesFit(cfg), SentencesMix(cfg));
    BlockPacking.NoneHugeAtFirst(cfg);
    BlockPacking.PackIsGreedy(cfg, sents, []);
    CutHasRuns(runs, sents, SentencesMix(cfg));
    RunsAreBlocks(cfg, runs);
  }

  lemma {:induction false} SameMix(cfg: ChunkingConfig)
    ensures forall b :: BlockPacking.SentencesFit(cfg)(b) == SentencesMix(cfg)(b)
  {
    hide Join, Content, SumCost;
    forall b ensures BlockPacking.SentencesFit(cfg)(b) == SentencesMix(cfg)(b) {
      assert BlockPacking.FitTogether(cfg, b) == SentencesMix(cfg)(b);
    }
  }

  lemma {:induction false} CutHasRuns(runs: seq<seq<Str>>, sents: seq<Str>, fits: seq<Str> -> bool)
    requires CutInto(runs, sents, fits)
    ensures AllRuns(runs)
  {
  }

  lemma {:induction false} SentencesAreCutBest(cfg: ChunkingConfig, sents: seq<Str>, rival: seq<seq<Str>>)
    requires cfg.maxChars > 0 && CutInto(rival, sents, SentencesMix(cfg)) && AllRuns(rival)
    ensures |PackSentences(cfg, sents, [])| <= |PiecesOfRuns(cfg, rival)|
  {
    hide Join, Content, SumCost, Greedy, PackSentences, PiecesOfRuns;
    SameMix(cfg);
    CutIsPartition(rival, sents, BlockPacking.SentencesFit(cfg), SentencesMix(cfg));
    BlockPacking.SentencePackingIsOptimal(cfg, sents, rival);
    RunsAreBlocks(cfg, rival);
  }

  // ---------------------------------------------------------------------------- paragraphs

  /** No blank line, that is no two newlines in a row. */
  predicate NoBlankLine(s: Str)
  {
    forall k :: 0 <= k < |s| - 1 ==> !(s[k] == Space('\n') && s[k + 1] == Space('\n'))
  }

  lemma {:induction false} TwoNewlines(s: Str)
    requires |s| >= 2
    ensures [Space('\n'), Space('\n')] <= s <==> s[0] == Space('\n') && s[1] == Space('\n')
  {
    if s[0] == Space('\n') && s[1] == Space('\n') {
      assert s[..2] == [Space('\n'), Space('\n')];
    }
  }

  lemma {:induction false} FreeOfBlankLines(s: Str)
    requires !MuteText.Occurs([Space('\n'), Space('\n')], s)
    ensures NoBlankLine(s)
  {
    if |s| >= 2 {
      FreeOfBlankLines(s[1..]);
      assert !([Space('\n'), Space('\n')] <= s);
      TwoNewlines(s);
      assert forall k :: 1 <= k < |s| - 1 ==> s[k] == s[1..][k - 1] && s[k + 1] == s[1..][k];
    }
  }

  /** The paragraphs are the stripped parts between blank lines that hold anything. */
  lemma {:induction false} ParagraphsExactly(t: Str) returns (parts: seq<Str>)
    ensures Join([Space('\n'), Space('\n')], parts) == t && forall i :: 0 <= i < |parts| ==> NoBlankLine(parts[i])
    ensures Paragraphs(t) == StripAll(NonBlank(parts))
  {
    hide MuteText.Occurs, SplitOn, Strip;
    parts := SplitOn([Space('\n'), Space('\n')], t);
    JoinSplit([Space('\n'), Space('\n')], t);
    MuteText.PartsFree([Space('\n'), Space('\n')], t);
    forall i | 0 <= i < |parts| ensures NoBlankLine(parts[i]) {
      assert parts[i] in parts;
      FreeOfBlankLines(parts[i]);
    }
  }

  /** A paragraph within the hard limits is one piece; otherwise its sentences are packed. */
  function ParagraphPieces(cfg: ChunkingConfig, p: Str): (r: seq<Str>)
    requires cfg.maxChars > 0
  {
    if !Over(cfg, p) then [p] else PackSentences(cfg, SentencesOf(p), [])
  }

  function PiecesOfEach(cfg: ChunkingConfig, paragraphs: seq<Str>): (r: seq<Str>)
    requires cfg.maxChars > 0
  {
    if paragraphs == [] then [] else ParagraphPieces(cfg, paragraphs[0]) + PiecesOfEach(cfg, paragraphs[1..])
  }

  lemma {:induction false} OneParagraphPieces(cfg: ChunkingConfig, p: Str)
    requires cfg.maxChars > 0 && p != [] && Stripped(p) && Paragraphs(p) == [p]
    ensures BlockPieces(cfg, p) == ParagraphPieces(cfg, p)
  {
    hide Strip, Paragraphs, SentencesOf, PackSentences, Content, SumCost;
    StripId(p);
  }

  lemma {:induction false} EachParagraph(cfg: ChunkingConfig, paragraphs: seq<Str>, limit: nat)
    requires cfg.maxChars > 0 && forall p :: p in paragraphs ==> |p| < limit
    requires forall p :: p in paragraphs ==> p != [] && Stripped(p) && Paragraphs(p) == [p]
    ensures AllPieces(cfg, paragraphs, limit) == PiecesOfEach(cfg, paragraphs)
  {
    hide BlockPieces, ParagraphPieces, Paragraphs, Stripped;
    if paragraphs != [] {
      assert paragraphs[0] in paragraphs && forall p :: p in paragraphs[1..] ==> p in paragraphs;
      OneParagraphPieces(cfg, paragraphs[0]);
      EachParagraph(cfg, paragraphs[1..], limit);
    }
  }

  /** The recursion, unrolled: a text within the hard limits stays whole, and any other is the pieces
      of its paragraphs, which are split no further into paragraphs. */
  lemma {:induction false} CascadeExactly(cfg: ChunkingConfig, text: Str)
    requires cfg.maxChars > 0
    ensures BlockPieces(cfg, text) ==
      if Strip(text) == [] then []
      else if !Over(cfg, Strip(text)) then [Strip(text)]
      else PiecesOfEach(cfg, Paragraphs(Strip(text)))
  {
    hide Strip, Paragraphs, SentencesOf, PackSentences, Content, SumCost, AllPieces, ParagraphPieces;
    var t := Strip(text);
    MuteText.StripBlankness(text);
    StripLength(text);
    if t != [] && Huge(cfg, t) {
      if |Paragraphs(t)| > 1 {
        ParagraphsShorter(t);
        forall p | p in Paragraphs(t) ensures p != [] && Stripped(p) && Paragraphs(p) == [p] {
          MuteText.ParagraphsOnce(t, p);
        }
        EachParagraph(cfg, Paragraphs(t), |text|);
      } else {
        MuteText.SingleParagraph(t);
        MuteText.SameAsStripped(cfg, text);
        OneParagraphPieces(cfg, t);
        OnePiece(cfg, t);
      }
    }
  }

  lemma {:induction false} OnePiece(cfg: ChunkingConfig, t: Str)
    requires cfg.maxChars > 0
    ensures PiecesOfEach(cfg, [t]) == ParagraphPieces(cfg, t)
  {
    hide ParagraphPieces;
    assert [t][1..] == [];
  }
}
