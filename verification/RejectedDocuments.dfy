/** Documents that the pipeline's own validator rejects under the default settings. */
module RejectedDocuments {
  import opened Wrappers
  import opened Text
  import opened Lexer
  import opened Underscores
  import opened Sentences
  import opened Items
  import opened Packing
  import opened Hierarchy
  import opened HierarchyLaws
  import opened Pipeline
  import opened Blocks
  import opened BlockLaws
  import opened WindowTokens
  import opened Conservation
  import opened DocumentParts
  import opened ExtractedItems
  import opened DocumentLaws
  import opened Tokenizer
  import opened PipelineLaws
  import opened Headings
  import BlockLimits
  import MuteText

  /** A document of one block on one page. */
  function OneBlockDocument(kind: BlockType, text: Str): (doc: Document)
  {
    Document(1, None, [], [Page(1, [Block(kind, text, 1)], [])], [])
  }

  lemma {:induction false} UsedByOneBlock(kind: BlockType, text: Str)
    ensures UsedBlocks(OneBlockDocument(kind, text)) == [Block(kind, text, 1)]
  {
    var page := Page(1, [Block(kind, text, 1)], []);
    assert [page][1..] == [];
    assert PagesBlocks([page]) == page.blocks + PagesBlocks([]);
  }

  lemma {:induction false} UnfitBlockRejected(kind: BlockType, text: Str, organization: int)
    requires !BlockFits(DEFAULT_CONFIG, Block(kind, text, 1))
    ensures var doc := OneBlockDocument(kind, text);
      !Acceptable(DEFAULT_CONFIG, DocumentChunks(DEFAULT_CONFIG, doc, organization), Some(1), Some(organization))
  {
    hide Acceptable, DocumentChunks, BlockFits, ParentsFit, KeptItems, UsedBlocks;
    var doc := OneBlockDocument(kind, text);
    UsedByOneBlock(kind, text);
    assert Block(kind, text, 1) in UsedBlocks(doc);
    DocumentAcceptedExactly(DEFAULT_CONFIG, doc, organization);
  }

  // ----------------------------------------------------------------------- a long heading

  lemma {:induction false} LongWordCount(n: nat)
    requires n > 8
    ensures Content(Repeat(Letter('a'), n)) == [Repeat(Letter('a'), n)]
    ensures Count(Repeat(Letter('a'), n)) == 1 + (n - 8) / 4
  {
    var w := Repeat(Letter('a'), n);
    LetterRunContent(w, []);
    assert w + [] == w && Content([]) == [];
    assert Content(w) == [w] && [w][1..] == [];
    assert SumCost([w]) == Cost(w) + SumCost([]);
  }

  /** Any document that is a heading of one word of 3408 letters or more is rejected: headings are
      never split, and the word counts more than 850. */
  lemma {:induction false} LongHeadingRejected(n: nat, organization: int)
    requires n >= 3408
    ensures var doc := OneBlockDocument(HeadingBlock, Repeat(Letter('a'), n));
      !Acceptable(DEFAULT_CONFIG, DocumentChunks(DEFAULT_CONFIG, doc, organization), Some(1), Some(organization))
  {
    hide Acceptable, DocumentChunks, Repeat, Content, SumCost;
    LongWordCount(n);
    UnfitBlockRejected(HeadingBlock, Repeat(Letter('a'), n), organization);
  }

  // ---------------------------------------------------------------- words and underscores

  function Copies(w: Str, n: nat): (r: seq<Str>)
    ensures |r| == n && forall i :: 0 <= i < n ==> r[i] == w
  {
    seq(n, _ => w)
  }

  /** `n` copies of a word, joined by underscores. */
  function Snake(w: Str, n: nat): (r: Str)
    requires n > 0
  {
    if n == 1 then w else w + ([Underscore] + Snake(w, n - 1))
  }

  lemma {:induction false} SnakeShape(w: Str, n: nat)
    requires n > 0 && w != [] && forall i :: 0 <= i < |w| ==> w[i].Letter?
    ensures |Snake(w, n)| == n * |w| + n - 1
    ensures forall i :: 0 <= i < |Snake(w, n)| ==> Snake(w, n)[i].Letter? || Snake(w, n)[i].Underscore?
    ensures Snake(w, n)[0] == w[0] && Snake(w, n)[|Snake(w, n)| - 1] == w[|w| - 1]
    decreases n
  {
    if n > 1 {
      SnakeShape(w, n - 1);
    }
  }

  lemma {:induction false} RunFragments(w: Str, rest: Str)
    requires w != [] && forall i :: 0 <= i < |w| ==> w[i].Letter?
    requires rest == [] || rest[0].Underscore? || IsSpace(rest[0])
    ensures Fragments(w + rest) == [w] + Fragments(rest)
  {
    var s := w + rest;
    RunLenUnique(s, WordCh, |w|);
    assert s[..|w|] == w && s[|w|..] == rest;
  }

  lemma {:induction false} CopiesCons(w: Str, n: nat)
    requires n > 0
    ensures Copies(w, n) == [w] + Copies(w, n - 1)
  {
  }

  /** The fragments of such a text in front of whitespace. */
  lemma {:induction false} SnakeFragments(w: Str, n: nat, rest: Str)
    requires n > 0 && w != [] && forall i :: 0 <= i < |w| ==> w[i].Letter?
    requires rest == [] || IsSpace(rest[0])
    ensures Fragments(Snake(w, n) + rest) == Copies(w, n) + Fragments(rest)
    decreases n
  {
    hide Fragments, Copies, Snake, DropUnderscores;
    CopiesCons(w, n);
    SnakeTail(w, n, rest);
    if n == 1 {
      assert Copies(w, 0) == [];
      RunFragments(w, rest);
    } else {
      var tail := [Underscore] + (Snake(w, n - 1) + rest);
      SnakeFragments(w, n - 1, rest);
      RunFragments(w, tail);
      UnderscoreStep(tail);
      assert tail[1..] == Snake(w, n - 1) + rest;
    }
  }

  lemma {:induction false} SnakeTail(w: Str, n: nat, rest: Str)
    requires n > 0
    ensures Snake(w, n) + rest == if n == 1 then w + rest else w + ([Underscore] + (Snake(w, n - 1) + rest))
  {
    if n > 1 {
      var s := Snake(w, n - 1);
      assert w + ([Underscore] + s) + rest == w + ([Underscore] + (s + rest));
    }
  }

  lemma {:induction false} SnakeTokens(w: Str, n: nat)
    requires n > 0 && w != [] && forall i :: 0 <= i < |w| ==> w[i].Letter?
    ensures Content(Snake(w, n)) == Copies(w, n) && Fragments(Snake(w, n)) == Copies(w, n)
  {
    hide Content, Fragments, Copies, Snake;
    SnakeFragments(w, n, []);
    assert Snake(w, n) + [] == Snake(w, n) && Copies(w, n) + [] == Copies(w, n);
    NoTokens();
    PatternsAgree(Snake(w, n));
    CopiesCost(w, n);
  }

  lemma {:induction false} NoTokens()
    ensures Content([]) == [] && Fragments([]) == []
  {
  }

  lemma {:induction false} CopiesCost(w: Str, n: nat)
    requires w != [] && !IsSpace(w[0])
    ensures Inked(Copies(w, n)) == Copies(w, n) && SumCost(Copies(w, n)) == n * Cost(w)
  {
    hide Cost, Copies;
    if n > 0 {
      CopiesCons(w, n);
      CopiesCost(w, n - 1);
      assert Copies(w, n)[1..] == Copies(w, n - 1);
    }
  }

  lemma {:induction false} CopiesLength(w: Str, n: nat)
    ensures |Concat(Copies(w, n))| == n * |w|
  {
    hide Copies;
    if n > 0 {
      CopiesCons(w, n);
      CopiesLength(w, n - 1);
      assert Copies(w, n)[1..] == Copies(w, n - 1);
    }
  }

  lemma {:induction false} CopiesLetters(c: Ch, k: nat, n: nat)
    ensures Concat(Copies(Repeat(c, k), n)) == Repeat(c, k * n)
  {
    if n > 0 {
      var w := Repeat(c, k);
      CopiesCons(w, n);
      CopiesLetters(c, k, n - 1);
      assert Copies(w, n)[1..] == Copies(w, n - 1);
      RepeatAdd(c, k, k * (n - 1));
      assert k + k * (n - 1) == k * n;
    }
  }

  lemma {:induction false} RepeatAdd(c: Ch, a: nat, b: nat)
    ensures Repeat(c, a) + Repeat(c, b) == Repeat(c, a + b)
  {
    if a > 0 {
      RepeatAdd(c, a - 1, b);
    }
  }

  // ----------------------------------------------------------------------- its windows

  lemma {:induction false} SlicesOfCopies(w: Str, n: nat, max: nat)
    requires max > 0 && |w| <= max
    ensures AllSlices(Copies(w, n), max) == Copies(w, n)
  {
    if n > 0 {
      CopiesCons(w, n);
      assert Copies(w, n)[1..] == Copies(w, n - 1);
      SlicesOfCopies(w, n - 1, max);
    }
  }

  /** Copies fill a window up to the last one that fits. */
  lemma {:induction false} GreedyFills(open: nat, room: nat, w: Str, fits: seq<Str> -> bool)
    requires forall k :: open < k <= open + room ==> fits(Copies(w, k))
    requires !fits(Copies(w, open + room + 1)) && open + room > 0
    ensures Greedy(Copies(w, open), Copies(w, room + 1), fits) == [Copies(w, open + room), [w]]
    decreases room
  {
    var items := Copies(w, room + 1);
    assert Copies(w, open) + [w] == Copies(w, open + 1);
    assert items[0] == w && items[1..] == Copies(w, room);
    if room == 0 {
      assert items[1..] == [];
      GreedyEnd([w], fits);
    } else {
      GreedyFills(open + 1, room - 1, w, fits);
    }
  }

  const WORD: Str := Repeat(Letter('a'), 11)

  lemma {:induction false} WordShape()
    ensures |WORD| == 11 && Cost(WORD) == 1 && forall i :: 0 <= i < |WORD| ==> WORD[i].Letter?
  {
  }

  lemma {:induction false} WindowOfCopies(k: nat)
    ensures FitsWindow(DEFAULT_CONFIG, Copies(WORD, k)) <==> k <= 363
  {
    hide Cost;
    WordShape();
    CopiesCost(WORD, k);
    CopiesLength(WORD, k);
  }

  lemma {:induction false} SnakeWindows()
    ensures Windows(DEFAULT_CONFIG, Snake(WORD, 364)) == [Copies(WORD, 363), [WORD]]
  {
    hide FitsWindow, Snake, Fragments, Content, Greedy, Repeat;
    var fits := WindowFits(DEFAULT_CONFIG);
    WordShape();
    SnakeTokens(WORD, 364);
    SlicesOfCopies(WORD, 364, 4000);
    forall k | 0 <= k <= 364 ensures fits(Copies(WORD, k)) <==> k <= 363 {
      WindowOfCopies(k);
    }
    GreedyFills(0, 363, WORD, fits);
    assert Copies(WORD, 0) == [];
  }

  lemma {:induction false} FirstOfPrefix(a: Str, s: Str)
    requires a != [] && a <= s
    ensures s != [] && s[0] == a[0]
  {
  }

  lemma {:induction false} NoSpaceNoOccurrence(s: Str)
    requires forall i :: 0 <= i < |s| ==> !IsSpace(s[i])
    ensures !MuteText.Occurs(PARAGRAPH_SEP, s)
    decreases |s|
  {
    if PARAGRAPH_SEP <= s {
      FirstOfPrefix(PARAGRAPH_SEP, s);
      assert false;
    }
    if s != [] {
      NoSpaceNoOccurrence(s[1..]);
    }
  }

  lemma {:induction false} NoEnderAmongLetters(s: Str)
    requires forall i :: 0 <= i < |s| ==> s[i].Letter? || s[i].Underscore?
    ensures forall i :: 0 <= i < |s| ==> !Ender(s[i])
  {
  }

  /** Such a text is a single sentence. */
  lemma {:induction false} SnakeIsOneSentence(n: nat)
    requires n > 0
    ensures TextSentences(Snake(WORD, n)) == [Snake(WORD, n)]
  {
    hide Snake, Strip, Paragraphs, SentencesOf, Repeat, MuteText.Occurs, Ender;
    var text := Snake(WORD, n);
    WordShape();
    SnakeShape(WORD, n);
    StripId(text);
    NoSpaceNoOccurrence(text);
    MuteText.OneParagraph(text);
    NoEnderAmongLetters(text);
    MuteText.OneSentenceOnly(text);
    SentencesOfOne(text);
  }

  lemma {:induction false} SnakeCounts(n: nat)
    requires n > 0
    ensures Count(Snake(WORD, n)) == n && CheapTokens(Snake(WORD, n), 1)
  {
    hide Snake, Cost, Content, Repeat;
    WordShape();
    SnakeTokens(WORD, n);
    CopiesCost(WORD, n);
  }

  /** The failure that underscores cause in windows: 364 eleven-letter words joined by underscores
      cost one token each, 364 in all, yet the document is rejected.  It is over the character
      limit, so it is windowed; that drops the underscores and fuses 363 words into one of 3993
      letters, which counts 997. */
  lemma {:induction false} UnderscoresReject(organization: int)
    ensures Count(Snake(WORD, 364)) == 364 && CheapTokens(Snake(WORD, 364), 1)
    ensures var doc := OneBlockDocument(ParagraphBlock, Snake(WORD, 364));
      !Acceptable(DEFAULT_CONFIG, DocumentChunks(DEFAULT_CONFIG, doc, organization), Some(1), Some(organization))
  {
    hide Acceptable, DocumentChunks, Snake, Repeat, CheapTokens, Content, SumCost, Windows, TextSentences, Concat;
    var text := Snake(WORD, 364);
    SnakeCounts(364);
    WordShape();
    SnakeShape(WORD, 364);
    SnakeIsOneSentence(364);
    SnakeWindows();
    CopiesLetters(Letter('a'), 11, 363);
    LongWordCount(3993);
    var windows := Windows(DEFAULT_CONFIG, text);
    assert Count(Concat(windows[0])) == 997;
    assert !WindowsWithin(windows, 850);
    assert Huge(DEFAULT_CONFIG, TextSentences(text)[0]);
    assert !BlockLimits.HugeWithin(DEFAULT_CONFIG, TextSentences(text), 850);
    UnfitBlockRejected(ParagraphBlock, text, organization);
  }

  // ------------------------------------------------------------- a parent that overruns

  const SECTION_TITLE: Str := [Letter('s')]

  /** A section of two headings. */
  function TwoHeadings(a: Str, b: Str): (doc: Document)
  {
    Document(1, None, [Section(SECTION_TITLE, 1, [Block(HeadingBlock, a, 1), Block(HeadingBlock, b, 1)])], [], [])
  }

  lemma {:induction false} HeadingItem(text: Str, stack: seq<Heading>)
    requires text != [] && Stripped(text)
    ensures var items := BlockItems(
        DEFAULT_CONFIG, Block(HeadingBlock, text, 1), stack, TitleAt(Fixed(SECTION_TITLE), stack), None);
      |items| == 1 && items[0].content == text && items[0].kind == HEADING &&
      SectionKey(items[0]) == SECTION_TITLE
  {
    hide Strip, StackAfter;
    StripId(text);
  }

  lemma {:induction false} TwoHeadingItems(a: Str, b: Str) returns (x: RawItem, y: RawItem)
    requires a != [] && Stripped(a) && b != [] && Stripped(b)
    ensures RawItems(DEFAULT_CONFIG, TwoHeadings(a, b)) == [x, y]
    ensures x.content == a && y.content == b && SectionKey(x) == SectionKey(y)
  {
    hide BlockItems, StackAfter, Push, SectionKey;
    var cfg := DEFAULT_CONFIG;
    var p, q := Block(HeadingBlock, a, 1), Block(HeadingBlock, b, 1);
    var blocks := [p, q];
    var section := Section(SECTION_TITLE, 1, blocks);
    var first := Push([], Heading(1, SECTION_TITLE));
    var second := StackAfter(p, first);
    HeadingItem(a, first);
    HeadingItem(b, second);
    x := BlockItems(cfg, p, first, TitleAt(Fixed(SECTION_TITLE), first), None)[0];
    y := BlockItems(cfg, q, second, TitleAt(Fixed(SECTION_TITLE), second), None)[0];
    assert blocks[1..] == [q] && [q][1..] == [];
    assert BlocksItems(cfg, [q], second, Fixed(SECTION_TITLE), None) == [y];
    assert BlocksItems(cfg, blocks, first, Fixed(SECTION_TITLE), None) == [x, y];
    assert [section][1..] == [];
    assert SectionsItems(cfg, [section], []) == [x, y];
  }

  /** Neither merged nor removed as a duplicate, and of one group. */
  lemma {:induction false} TwoItemsKept(x: RawItem, y: RawItem)
    requires Count(x.content) >= 40 && Count(x.content) != Count(y.content) && SectionKey(x) == SectionKey(y)
    ensures Firsts(Merged(DEFAULT_CONFIG, [x, y]), {}) == [x, y]
    ensures Groups([x, y]) == [[x, y]]
  {
    hide KeyOf, Count, Composite, MergedContent, SectionKey;
    assert [x, y][1..] == [y] && [y][1..] == [];
    assert Merged(DEFAULT_CONFIG, [y]) == [y];
    assert Merged(DEFAULT_CONFIG, [x, y]) == [x, y];
    if KeyOf(x) == KeyOf(y) {
      SameKeySameCount(x, y);
      assert false;
    }
    assert Firsts([y], {KeyOf(x)}) == [y];
    assert {} + {KeyOf(x)} == {KeyOf(x)};
    assert SameSection([x, y]);
    assert [] + [x] == [x] && [x] + [y] == [x, y];
    GreedyEnd([x, y], SameSection);
    assert Greedy([x], [y], SameSection) == Greedy([x, y], [], SameSection);
    assert Greedy([], [x, y], SameSection) == Greedy([x], [y], SameSection);
  }

  /** Truncation that keeps at least the first `n` of the words fuses them. */
  lemma {:induction false} TruncationFuses(n: nat, rest: Str, limit: nat)
    requires 0 < n <= limit && Count(Snake(WORD, n) + PARENT_SEP + rest) > limit
    requires rest != [] && !IsSpace(rest[0])
    ensures Count(Truncate(Snake(WORD, n) + PARENT_SEP + rest, limit)) >= 1 + (11 * n - 8) / 4
  {
    hide Content, Snake, Fragments, FitCount, Repeat, RStrip, SumCost, Inked, Copies, Concat;
    var text := Snake(WORD, n) + PARENT_SEP + rest;
    var f, front := Fragments(text), Copies(WORD, n) + [PARENT_SEP];
    var k := FitCount(f, limit);
    WordShape();
    assert text == Snake(WORD, n) + (PARENT_SEP + rest);
    SnakeFragments(WORD, n, PARENT_SEP + rest);
    SeparatorFragment(rest);
    assert f == front + Fragments(rest);
    FrontCost(n);
    FitCountExact(f, limit);
    assert f[..n + 1] == front;
    var more := f[n + 1..k];
    assert f[..k] == front + more;
    ConcatAppend(front, more);
    ConcatAppend(Copies(WORD, n), [PARENT_SEP]);
    ConcatOne(PARENT_SEP);
    CopiesLetters(Letter('a'), 11, n);
    var w := Repeat(Letter('a'), 11 * n);
    assert Concat(f[..k]) == w + PARENT_SEP + Concat(more);
    ContentAround(w, PARENT_SEP, Concat(more));
    ContentRStrip(Concat(f[..k]));
    LongWordCount(11 * n);
  }

  lemma {:induction false} SeparatorFragment(rest: Str)
    requires rest != [] && !IsSpace(rest[0])
    ensures Fragments(PARENT_SEP + rest) == [PARENT_SEP] + Fragments(rest)
  {
    var s := PARENT_SEP + rest;
    RunLenUnique(s, IsSpace, 2);
    assert s[..2] == PARENT_SEP && s[2..] == rest;
  }

  lemma {:induction false} FrontCost(n: nat)
    requires n > 0
    ensures SumCost(Inked(Copies(WORD, n) + [PARENT_SEP])) == n
  {
    hide Cost, Copies, Repeat;
    WordShape();
    CopiesCost(WORD, n);
    InkedAppend(Copies(WORD, n), [PARENT_SEP]);
    InkedOne(PARENT_SEP);
    SeparatorBlank();
    assert Copies(WORD, n) + [] == Copies(WORD, n);
  }

  lemma {:induction false} SnakeStripped(n: nat)
    requires n > 0
    ensures Snake(WORD, n) != [] && Stripped(Snake(WORD, n)) && !IsSpace(Snake(WORD, n)[0])
  {
    hide Snake, Repeat;
    WordShape();
    SnakeShape(WORD, n);
  }

  /** The failure that underscores cause in parents: every part of the document fits, yet it is
      rejected.  Two headings of 850 and 849 eleven-letter words joined by underscores are within
      the limit for chunks; their parent is truncated to 1600 tokens, which fuses the first 850
      words into one that alone counts 2336. */
  lemma {:induction false} ParentOverruns(organization: int)
    ensures var doc := TwoHeadings(Snake(WORD, 850), Snake(WORD, 849));
      DocumentFits(DEFAULT_CONFIG, doc) &&
      !Acceptable(DEFAULT_CONFIG, DocumentChunks(DEFAULT_CONFIG, doc, organization), Some(1), Some(organization))
  {
    hide Acceptable, DocumentChunks, Snake, Repeat, Content, SumCost, DocumentFits, RawItems, Merged, Firsts,
         Groups, Truncate;
    var cfg, a, b := DEFAULT_CONFIG, Snake(WORD, 850), Snake(WORD, 849);
    var doc := TwoHeadings(a, b);
    SnakeCounts(850);
    SnakeCounts(849);
    SnakeStripped(850);
    SnakeStripped(849);
    HeadingsFit(a, b);
    var x, y := TwoHeadingItems(a, b);
    TwoItemsKept(x, y);
    TwoParts(x, y);
    ContentAround(a, PARENT_SEP, b);
    TruncationFuses(850, b, 1600);
    assert ParentText(cfg, [x, y]) == Truncate(a + PARENT_SEP + b, 1600);
    assert Groups(KeptItems(cfg, doc)) == [[x, y]];
    assert [x, y] in Groups(KeptItems(cfg, doc));
    DocumentAcceptedExactly(cfg, doc, organization);
  }

  lemma {:induction false} TwoParts(x: RawItem, y: RawItem)
    ensures GroupText([x, y]) == x.content + PARENT_SEP + y.content
  {
    assert [x, y][1..] == [y] && [y][1..] == [];
    assert ContentsOf([x, y]) == [x.content, y.content];
    assert [x.content, y.content][1..] == [y.content];
    assert Join(PARENT_SEP, [y.content]) == y.content;
  }

  lemma {:induction false} HeadingsFit(a: Str, b: Str)
    requires Count(a) <= 850 && Count(b) <= 850
    ensures DocumentFits(DEFAULT_CONFIG, TwoHeadings(a, b))
  {
    hide Count;
    var blocks := [Block(HeadingBlock, a, 1), Block(HeadingBlock, b, 1)];
    var section := Section(SECTION_TITLE, 1, blocks);
    assert [section][1..] == [];
    assert SectionsBlocks([section]) == blocks + SectionsBlocks([]);
    assert UsedTables(TwoHeadings(a, b)) == [];
  }
}
