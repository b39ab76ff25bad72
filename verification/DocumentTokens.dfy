/** From the text of a document to its chunks: when no token is lost on the way, exactly. */
module DocumentTokens {
  import opened Wrappers
  import opened Text
  import opened Lexer
  import opened Splitting
  import opened Items
  import opened Packing
  import opened Headings
  import opened Hierarchy
  import opened HierarchyLaws
  import opened Pipeline
  import opened PipelineLaws
  import opened BlockLaws
  import opened WindowTokens
  import opened Conservation
  import opened DocumentParts
  import opened ExtractedItems
  import opened DocumentLaws
  import opened Duplicates
  import Tables
  import TableSlicer
  import Lists
  import Blocks
  import MuteText

  // ------------------------------------------------------------------ a document's tokens

  function BlocksTokens(blocks: seq<Block>): (r: seq<Str>)
  {
    if blocks == [] then [] else Content(blocks[0].text) + BlocksTokens(blocks[1..])
  }

  /** The tokens of a table as printed, slice by slice, each under the headers. */
  function SlicesTokens(headers: Tables.Row, blocks: seq<seq<Tables.Row>>): (r: seq<Str>)
  {
    if blocks == [] then [] else Content(Tables.Render(headers, blocks[0])) + SlicesTokens(headers, blocks[1..])
  }

  function TablesTokens(cfg: ChunkingConfig, tables: seq<SourceTable>): (r: seq<Str>)
  {
    if tables == [] then []
    else SlicesTokens(tables[0].table.headers, TableSlicer.Blocks(cfg, tables[0].table)) +
         TablesTokens(cfg, tables[1..])
  }

  function SectionsTokens(sections: seq<Section>): (r: seq<Str>)
  {
    if sections == [] then [] else BlocksTokens(sections[0].blocks) + SectionsTokens(sections[1..])
  }

  function PagesTokens(cfg: ChunkingConfig, pages: seq<Page>): (r: seq<Str>)
  {
    if pages == [] then []
    else BlocksTokens(pages[0].blocks) + TablesTokens(cfg, pages[0].tables) + PagesTokens(cfg, pages[1..])
  }

  /** The tokens of the texts that are used, in reading order. */
  ghost function DocumentContent(cfg: ChunkingConfig, doc: Document): (r: seq<Str>)
  {
    if NothingExtracted(cfg, doc) then (if doc.title.Some? then Content(doc.title.value) else [])
    else StructureTokens(cfg, doc)
  }

  /** Every oversized sentence of the running text survives windowing. */
  ghost predicate TextSurvives(cfg: ChunkingConfig, blocks: seq<Block>)
    requires cfg.maxChars > 0
  {
    forall b: Block :: b in blocks && RunningText(b) ==> HugeSurvive(cfg, TextSentences(b.text))
  }

  lemma {:induction false} TextSurvivesSplit(cfg: ChunkingConfig, a: seq<Block>, b: seq<Block>)
    requires cfg.maxChars > 0
    ensures TextSurvives(cfg, a + b) <==> TextSurvives(cfg, a) && TextSurvives(cfg, b)
  {
    hide HugeSurvive, TextSentences;
    assert forall x :: x in a || x in b ==> x in a + b;
  }

  // ------------------------------------------------------------------------- extraction

  /** The tokens the items carry. */
  function Carried(items: seq<RawItem>): (r: seq<Str>) { Contents(ContentsOf(items)) }

  lemma {:induction false} CarriedAppend(a: seq<RawItem>, b: seq<RawItem>)
    ensures Carried(a + b) == Carried(a) + Carried(b)
  {
    hide Contents;
    ContentsOfAppend(a, b);
    ContentsAppend(ContentsOf(a), ContentsOf(b));
  }

  lemma {:induction false} CarriedNone()
    ensures Carried([]) == []
  {
  }

  lemma {:induction false} CarriedOne(x: RawItem)
    ensures Carried([x]) == Content(x.content)
  {
    hide Content;
    OneContent(x.content);
    assert ContentsOf([x]) == [x.content];
  }

  lemma {:induction false} CarriedWrap(pieces: seq<Str>, kind: ChunkType, origin: Origin)
    ensures Carried(Wrap(pieces, kind, origin)) == Contents(pieces)
  {
    hide Strip, Contents;
    var items := Wrap(pieces, kind, origin);
    assert ContentsOf(items) == StripAll(pieces);
    ContentsStripAll(pieces);
  }

  /** The items spell out the same characters as the tokens, and carry these tokens exactly if
      `kept`. */
  ghost predicate Carries(items: seq<RawItem>, toks: seq<Str>, kept: bool)
  {
    NoneEmpty(Carried(items)) && NoneEmpty(toks) && Concat(Carried(items)) == Concat(toks) &&
    (Carried(items) == toks <==> kept)
  }

  lemma {:induction false} CarriesNone()
    ensures Carries([], [], true)
  {
    CarriedNone();
  }

  lemma {:induction false} CarriesAll(items: seq<RawItem>, s: Str)
    requires Carried(items) == Content(s)
    ensures Carries(items, Content(s), true)
  {
    hide Content, Carried;
    TokensSpell(s);
  }

  lemma {:induction false} CarriesAppend(
      a: seq<RawItem>, x: seq<Str>, keptA: bool, b: seq<RawItem>, y: seq<Str>, keptB: bool)
    requires Carries(a, x, keptA) && Carries(b, y, keptB)
    ensures Carries(a + b, x + y, keptA && keptB)
  {
    hide Carried, Concat;
    CarriedAppend(a, b);
    ConcatAppend(x, y);
    ConcatAppend(Carried(a), Carried(b));
    SameSpelling(Carried(a), Carried(b), x, y);
  }

  lemma {:induction false} TextCarries(cfg: ChunkingConfig, text: Str, kind: ChunkType, origin: Origin)
    requires cfg.maxChars > 0
    ensures Carries(Wrap(Blocks.BlockPieces(cfg, text), kind, origin), Content(text),
                    HugeSurvive(cfg, TextSentences(text)))
  {
    hide Wrap, Content, Contents, Blocks.BlockPieces, Carried, HugeSurvive, Ink, Inks, NoneEmpty, AllSentences;
    ConservedExactly(cfg, text);
    CarriedWrap(Blocks.BlockPieces(cfg, text), kind, origin);
    PiecesBounded(cfg, text);
    AllTokensSpell(Blocks.BlockPieces(cfg, text));
    TokensSpell(text);
  }

  lemma {:induction false} BlockCarries(
      cfg: ChunkingConfig, block: Block, stack: seq<Heading>, section: Option<Str>, page: Option<int>)
    requires cfg.maxChars > 0
    ensures Carries(BlockItems(cfg, block, stack, section, page), Content(block.text),
                    RunningText(block) ==> HugeSurvive(cfg, TextSentences(block.text)))
  {
    hide Strip, Wrap, Content, Contents, StackAfter, OriginAt, Blocks.BlockPieces, Lists.ListPieces,
         Carried, Lists.ItemLines, IsBlank, HugeSurvive, AllSentences, Carries;
    var text := Strip(block.text);
    ContentStrip(block.text);
    MuteText.StripBlankness(block.text);
    StripId(text);
    if text == [] {
      CarriesNone();
      NoContent();
      if RunningText(block) {
        BlankSentences(cfg, block.text);
      }
    } else if block.kind == HeadingBlock {
      var items := BlockItems(cfg, block, stack, section, page);
      CarriedOne(items[0]);
      ContentStrip(text);
      CarriesAll(items, block.text);
    } else if block.kind == ListBlock {
      Lists.ListConserves(cfg, text);
      CarriedWrap(Lists.ListPieces(cfg, text), LIST, OriginAt(stack, page, section));
      CarriesAll(BlockItems(cfg, block, stack, section, page), block.text);
    } else {
      TextCarries(cfg, text, if block.kind == ParagraphBlock then PARAGRAPH else TEXT,
                  OriginAt(stack, page, section));
    }
  }

  lemma {:induction false} NoContent()
    ensures Content([]) == []
  {
  }

  lemma {:induction false} OneBlockSurvives(cfg: ChunkingConfig, b: Block)
    requires cfg.maxChars > 0
    ensures TextSurvives(cfg, [b]) <==> (RunningText(b) ==> HugeSurvive(cfg, TextSentences(b.text)))
    ensures TextSurvives(cfg, [])
  {
    hide HugeSurvive, TextSentences;
    assert b in [b];
  }

  lemma {:induction false} BlocksCarry(
      cfg: ChunkingConfig, blocks: seq<Block>, stack: seq<Heading>, source: TitleSource, page: Option<int>)
    requires cfg.maxChars > 0
    ensures Carries(BlocksItems(cfg, blocks, stack, source, page), BlocksTokens(blocks), TextSurvives(cfg, blocks))
    decreases |blocks|
  {
    hide BlockItems, StackAfter, TitleAt, Content, Carries, HugeSurvive, TextSentences, TextSurvives;
    if blocks == [] {
      CarriesNone();
      OneBlockSurvives(cfg, Block(OtherBlock, [], 1));
    } else {
      var b, rest := blocks[0], blocks[1..];
      var after := StackAfter(b, stack);
      BlockCarries(cfg, b, stack, TitleAt(source, stack), page);
      BlocksCarry(cfg, rest, after, source, page);
      OneBlockSurvives(cfg, b);
      TextSurvivesSplit(cfg, [b], rest);
      assert blocks == [b] + rest;
      CarriesAppend(BlockItems(cfg, b, stack, TitleAt(source, stack), page), Content(b.text),
                    RunningText(b) ==> HugeSurvive(cfg, TextSentences(b.text)),
                    BlocksItems(cfg, rest, after, source, page), BlocksTokens(rest), TextSurvives(cfg, rest));
    }
  }

  lemma {:induction false} SlicesCarry(
      headers: Tables.Row, blocks: seq<seq<Tables.Row>>, start: nat, origin: Origin)
    ensures Carries(TableSlicer.SliceItems(headers, blocks, start, origin), SlicesTokens(headers, blocks), true)
  {
    hide Tables.Render, Strip, Content, Carries;
    if blocks == [] {
      CarriesNone();
    } else {
      var first := TableSlicer.Slice(headers, blocks[0], start, origin);
      var later := TableSlicer.SliceItems(headers, blocks[1..], start + |blocks[0]|, origin);
      SlicesCarry(headers, blocks[1..], start + |blocks[0]|, origin);
      CarriedOne(first);
      ContentStrip(Tables.Render(headers, blocks[0]));
      CarriesAll([first], Tables.Render(headers, blocks[0]));
      CarriesAppend([first], Content(Tables.Render(headers, blocks[0])), true,
                    later, SlicesTokens(headers, blocks[1..]), true);
    }
  }

  lemma {:induction false} PageTablesCarry(cfg: ChunkingConfig, tables: seq<SourceTable>, stack: seq<Heading>)
    ensures Carries(PageTablesItems(cfg, tables, stack), TablesTokens(cfg, tables), true)
  {
    hide OriginAt, TitleAt, Carries, SlicesTokens, TableSlicer.SliceItems, TableSlicer.Blocks;
    if tables == [] {
      CarriesNone();
    } else {
      var t := tables[0].table;
      var origin := OriginAt(stack, tables[0].page, TitleAt(FromHeadings, stack));
      SlicesCarry(t.headers, TableSlicer.Blocks(cfg, t), 0, origin);
      PageTablesCarry(cfg, tables[1..], stack);
      CarriesAppend(SourceTableItems(cfg, tables[0], stack, TitleAt(FromHeadings, stack)),
                    SlicesTokens(t.headers, TableSlicer.Blocks(cfg, t)), true,
                    PageTablesItems(cfg, tables[1..], stack), TablesTokens(cfg, tables[1..]), true);
    }
  }

  lemma {:induction false} StandaloneCarry(cfg: ChunkingConfig, tables: seq<SourceTable>, stack: seq<Heading>)
    ensures Carries(StandaloneItems(cfg, tables, stack), TablesTokens(cfg, tables), true)
  {
    hide OriginAt, SheetSection, Carries, SlicesTokens, TableSlicer.SliceItems, TableSlicer.Blocks;
    if tables == [] {
      CarriesNone();
    } else {
      var t := tables[0].table;
      var origin := OriginAt(stack, tables[0].page, SheetSection(tables[0]));
      SlicesCarry(t.headers, TableSlicer.Blocks(cfg, t), 0, origin);
      StandaloneCarry(cfg, tables[1..], stack);
      CarriesAppend(SourceTableItems(cfg, tables[0], stack, SheetSection(tables[0])),
                    SlicesTokens(t.headers, TableSlicer.Blocks(cfg, t)), true,
                    StandaloneItems(cfg, tables[1..], stack), TablesTokens(cfg, tables[1..]), true);
    }
  }

  lemma {:induction false} SectionsCarry(cfg: ChunkingConfig, sections: seq<Section>, stack: seq<Heading>)
    requires cfg.maxChars > 0
    ensures Carries(SectionsItems(cfg, sections, stack), SectionsTokens(sections),
                    TextSurvives(cfg, SectionsBlocks(sections)))
    decreases |sections|
  {
    hide BlocksItems, BlocksStack, Push, Carries, BlocksTokens, TextSurvives;
    if sections == [] {
      CarriesNone();
      OneBlockSurvives(cfg, Block(OtherBlock, [], 1));
    } else {
      var s, rest := sections[0], sections[1..];
      var inside := Push(stack, Heading(s.level, s.title));
      var later := BlocksStack(s.blocks, inside);
      BlocksCarry(cfg, s.blocks, inside, Fixed(s.title), None);
      SectionsCarry(cfg, rest, later);
      TextSurvivesSplit(cfg, s.blocks, SectionsBlocks(rest));
      CarriesAppend(BlocksItems(cfg, s.blocks, inside, Fixed(s.title), None), BlocksTokens(s.blocks),
                    TextSurvives(cfg, s.blocks), SectionsItems(cfg, rest, later), SectionsTokens(rest),
                    TextSurvives(cfg, SectionsBlocks(rest)));
    }
  }

  lemma {:induction false} PagesCarry(cfg: ChunkingConfig, pages: seq<Page>, stack: seq<Heading>)
    requires cfg.maxChars > 0
    ensures Carries(PagesItems(cfg, pages, stack), PagesTokens(cfg, pages), TextSurvives(cfg, PagesBlocks(pages)))
    decreases |pages|
  {
    hide BlocksItems, BlocksStack, PageTablesItems, Carries, BlocksTokens, TablesTokens, TextSurvives;
    if pages == [] {
      CarriesNone();
      OneBlockSurvives(cfg, Block(OtherBlock, [], 1));
    } else {
      var p, rest := pages[0], pages[1..];
      var after := BlocksStack(p.blocks, stack);
      var a := BlocksItems(cfg, p.blocks, stack, FromHeadings, Some(p.number));
      var b := PageTablesItems(cfg, p.tables, after);
      BlocksCarry(cfg, p.blocks, stack, FromHeadings, Some(p.number));
      PageTablesCarry(cfg, p.tables, after);
      PagesCarry(cfg, rest, after);
      TextSurvivesSplit(cfg, p.blocks, PagesBlocks(rest));
      CarriesAppend(a, BlocksTokens(p.blocks), TextSurvives(cfg, p.blocks), b, TablesTokens(cfg, p.tables), true);
      CarriesAppend(a + b, BlocksTokens(p.blocks) + TablesTokens(cfg, p.tables), TextSurvives(cfg, p.blocks),
                    PagesItems(cfg, rest, after), PagesTokens(cfg, rest), TextSurvives(cfg, PagesBlocks(rest)));
    }
  }

  /** The tokens of the document's own texts, without the title. */
  function StructureTokens(cfg: ChunkingConfig, doc: Document): (r: seq<Str>)
  {
    (if doc.sections != [] then SectionsTokens(doc.sections) else PagesTokens(cfg, doc.pages)) +
    TablesTokens(cfg, doc.tables)
  }

  lemma {:induction false} StructureCarries(cfg: ChunkingConfig, doc: Document)
    requires cfg.maxChars > 0
    ensures Carries(StructureItems(cfg, doc), StructureTokens(cfg, doc), TextSurvives(cfg, UsedBlocks(doc)))
  {
    hide SectionsItems, PagesItems, StandaloneItems, SectionsStack, PagesStack, Carries, SectionsTokens,
         PagesTokens, TablesTokens, TextSurvives;
    if doc.sections != [] {
      var stack := SectionsStack(doc.sections, []);
      SectionsCarry(cfg, doc.sections, []);
      StandaloneCarry(cfg, doc.tables, stack);
      CarriesAppend(SectionsItems(cfg, doc.sections, []), SectionsTokens(doc.sections),
                    TextSurvives(cfg, SectionsBlocks(doc.sections)),
                    StandaloneItems(cfg, doc.tables, stack), TablesTokens(cfg, doc.tables), true);
    } else {
      var stack := PagesStack(doc.pages, []);
      PagesCarry(cfg, doc.pages, []);
      StandaloneCarry(cfg, doc.tables, stack);
      CarriesAppend(PagesItems(cfg, doc.pages, []), PagesTokens(cfg, doc.pages),
                    TextSurvives(cfg, PagesBlocks(doc.pages)),
                    StandaloneItems(cfg, doc.tables, stack), TablesTokens(cfg, doc.tables), true);
    }
  }

  lemma {:induction false} TitleCarries(title: Option<Str>)
    ensures Carries(TitleItems(title), if title.Some? then Content(title.value) else [], true)
  {
    hide Strip, Content, Carried, Carries;
    CarriesNone();
    NoContent();
    if title.Some? {
      ContentStrip(title.value);
      if Strip(title.value) != [] {
        CarriedOne(TitleItems(title)[0]);
        ContentStrip(Strip(title.value));
        CarriesAll(TitleItems(title), title.value);
      }
    }
  }

  lemma {:induction false} NothingCarried(toks: seq<Str>, kept: bool)
    requires Carries([], toks, kept)
    ensures kept
  {
    CarriedNone();
    NothingSpelt(toks);
  }

  /** Extraction keeps the tokens of the texts that are used exactly if every oversized sentence of
      the running text survives windowing. */
  lemma {:induction false} ExtractionCarries(cfg: ChunkingConfig, doc: Document)
    requires cfg.maxChars > 0
    ensures Carries(RawItems(cfg, doc), DocumentContent(cfg, doc), TextSurvives(cfg, UsedBlocks(doc)))
  {
    hide StructureItems, TitleItems, Carries, Content, NothingExtracted, SectionsTokens, PagesTokens, TablesTokens,
         TextSurvives, UsedBlocks;
    StructureCarries(cfg, doc);
    TitleUsedExactly(cfg, doc);
    TitleCarries(doc.title);
    if NothingExtracted(cfg, doc) {
      NothingCarried(StructureTokens(cfg, doc), TextSurvives(cfg, UsedBlocks(doc)));
    }
  }

  // ------------------------------------------------------------------------------ chunks

  /** The texts of the chunks that are not parents. */
  function ChildTexts(chunks: seq<Chunk>): (r: seq<Str>)
  {
    if chunks == [] then []
    else (if chunks[0].kind == PARENT then [] else [chunks[0].content]) + ChildTexts(chunks[1..])
  }

  lemma {:induction false} ChildTextsAppend(a: seq<Chunk>, b: seq<Chunk>)
    ensures ChildTexts(a + b) == ChildTexts(a) + ChildTexts(b)
  {
    if a == [] {
      assert a + b == b;
    } else {
      assert (a + b)[1..] == a[1..] + b;
      ChildTextsAppend(a[1..], b);
    }
  }

  lemma {:induction false} ChildrenTexts(
      cfg: ChunkingConfig, target: Target, items: seq<RawItem>, parent: ChunkId, index: nat)
    requires NoParents(items)
    ensures ChildTexts(ChildChunks(cfg, target, items, parent, index)) == ContentsOf(items)
  {
    hide ContentHash, Count;
    if items != [] {
      ChildrenTexts(cfg, target, items[1..], parent, index + 1);
      var children := ChildChunks(cfg, target, items, parent, index);
      assert children[1..] == ChildChunks(cfg, target, items[1..], parent, index + 1);
    }
  }

  lemma {:induction false} FamilyTexts(cfg: ChunkingConfig, target: Target, group: seq<RawItem>, index: nat)
    requires group != [] && NoParents(group)
    ensures ChildTexts(Family(cfg, target, group, index)) == ContentsOf(group)
  {
    hide ContentHash, Count, ParentText, ChildChunks;
    var parent := ParentChunk(cfg, target, group, index);
    ChildrenTexts(cfg, target, group, parent.id, index + 1);
    assert Family(cfg, target, group, index)[1..] == ChildChunks(cfg, target, group, parent.id, index + 1);
  }

  lemma {:induction false} ContentsOfAppend(a: seq<RawItem>, b: seq<RawItem>)
    ensures ContentsOf(a + b) == ContentsOf(a) + ContentsOf(b)
  {
  }

  lemma {:induction false} NothingToTell()
    ensures ChildTexts([]) == [] && ContentsOf([]) == []
  {
  }

  lemma {:induction false} GroupsTexts(
      cfg: ChunkingConfig, target: Target, groups: seq<seq<RawItem>>, index: nat)
    requires AllNonEmpty(groups) && forall i :: 0 <= i < |groups| ==> NoParents(groups[i])
    ensures ChildTexts(GroupChunks(cfg, target, groups, index)) == ContentsOf(Flatten(groups))
    decreases |groups|
  {
    hide Family, NoParents, ContentsOf, ChildTexts;
    NothingToTell();
    if groups != [] {
      var later := index + 1 + |groups[0]|;
      FamilyTexts(cfg, target, groups[0], index);
      GroupsTexts(cfg, target, groups[1..], later);
      ChildTextsAppend(Family(cfg, target, groups[0], index), GroupChunks(cfg, target, groups[1..], later));
      ContentsOfAppend(groups[0], Flatten(groups[1..]));
    }
  }

  /** The children of a hierarchy are its items, in order. */
  lemma {:induction false} HierarchyTexts(cfg: ChunkingConfig, target: Target, items: seq<RawItem>)
    requires SolidItems(items)
    ensures ChildTexts(HierarchyOf(cfg, target, items)) == ContentsOf(items)
  {
    hide Groups, GroupChunks, ContentsOf;
    GroupsAreMaximalRuns(items);
    GroupsNonEmpty(items);
    assert forall x :: x in items ==> SolidItem(x);
    FlattenNoParents(Groups(items));
    GroupsTexts(cfg, target, Groups(items), 0);
  }

  /** Repeats of earlier items, or of keys seen before, carry no tokens. */
  ghost predicate RepeatsCarryNothing(items: seq<RawItem>, seen: set<Key>)
  {
    (forall i :: 0 <= i < |items| && KeyOf(items[i]) in seen ==> Content(items[i].content) == []) &&
    forall i, j :: 0 <= i < j < |items| && KeyOf(items[i]) == KeyOf(items[j]) ==> Content(items[j].content) == []
  }

  lemma {:induction false} RepeatsStep(items: seq<RawItem>, seen: set<Key>)
    requires items != []
    ensures RepeatsCarryNothing(items, seen) <==>
      (KeyOf(items[0]) in seen ==> Content(items[0].content) == []) &&
      RepeatsCarryNothing(items[1..], if KeyOf(items[0]) in seen then seen else seen + {KeyOf(items[0])})
  {
    hide KeyOf, Content;
    var rest := items[1..];
    var first := KeyOf(items[0]);
    var seen' := if first in seen then seen else seen + {first};
    if RepeatsCarryNothing(items, seen) {
      assert forall i :: 0 <= i < |rest| ==> rest[i] == items[i + 1];
    }
    if (first in seen ==> Content(items[0].content) == []) && RepeatsCarryNothing(rest, seen') {
      assert forall i :: 1 <= i < |items| ==> items[i] == rest[i - 1];
      assert forall i :: 0 <= i < |rest| && KeyOf(rest[i]) in seen' ==> Content(rest[i].content) == [];
    }
  }

  /** How many characters the items' tokens have. */
  function CarriedLength(items: seq<RawItem>): (n: nat) { |Concat(Carried(items))| }

  lemma {:induction false} CarriedLengthCons(x: RawItem, items: seq<RawItem>)
    ensures Carried([x] + items) == Content(x.content) + Carried(items)
    ensures CarriedLength([x] + items) == |Concat(Content(x.content))| + CarriedLength(items)
    ensures Concat(Content(x.content)) == [] <==> Content(x.content) == []
  {
    hide Content, Carried, Concat;
    CarriedOne(x);
    CarriedAppend([x], items);
    ConcatAppend(Content(x.content), Carried(items));
    TokensSpell(x.content);
    if Concat(Content(x.content)) == [] {
      NothingSpelt(Content(x.content));
    }
    ConcatNothing();
  }

  lemma {:induction false} ConcatNothing()
    ensures Concat([]) == []
  {
  }

  /** Dropping repeats never adds characters to the tokens, and loses none exactly if the repeats
      carry none. */
  lemma {:induction false} FirstsCarryExactly(items: seq<RawItem>, seen: set<Key>)
    ensures CarriedLength(Firsts(items, seen)) <= CarriedLength(items)
    ensures CarriedLength(Firsts(items, seen)) == CarriedLength(items) <==> RepeatsCarryNothing(items, seen)
    ensures RepeatsCarryNothing(items, seen) ==> Carried(Firsts(items, seen)) == Carried(items)
    decreases |items|
  {
    hide KeyOf, Content, Carried, RepeatsCarryNothing, Concat;
    if items == [] {
      assert RepeatsCarryNothing(items, seen) by { NoRepeats(seen); }
    } else {
      var first := KeyOf(items[0]);
      var seen' := if first in seen then seen else seen + {first};
      RepeatsStep(items, seen);
      FirstsCarryExactly(items[1..], seen');
      CarriedLengthCons(items[0], items[1..]);
      CarriedLengthCons(items[0], Firsts(items[1..], seen'));
      assert items == [items[0]] + items[1..];
    }
  }

  lemma {:induction false} NoRepeats(seen: set<Key>)
    ensures RepeatsCarryNothing([], seen)
  {
  }

  /** An item with the words, the heading context and the page of an earlier one carries no token. */
  ghost predicate TokenlessRepeats(items: seq<RawItem>)
  {
    forall i, j :: 0 <= i < j < |items| && Repeats(items[i], items[j]) ==> Content(items[j].content) == []
  }

  lemma {:induction false} RepeatsExactly(items: seq<RawItem>)
    ensures RepeatsCarryNothing(items, {}) <==> TokenlessRepeats(items)
  {
    hide KeyOf, Repeats, Content;
    forall i, j | 0 <= i < j < |items|
      ensures KeyOf(items[i]) == KeyOf(items[j]) <==> Repeats(items[i], items[j])
    {
      SameKeyRepeats(items[i], items[j]);
    }
  }

  /** Read in order, the chunks that are not parents carry exactly the tokens of the document's
      texts, so that nothing is lost, added, changed or reordered between the source and the
      chunks, if and only if every oversized sentence of the running text survives windowing and
      every item with the words, heading context and page of an earlier one is without tokens: of
      such items only the first is kept. */
  lemma {:induction false} ChunksCarryTheDocument(cfg: ChunkingConfig, doc: Document, organization: int)
    requires cfg.maxChars > 0
    ensures Contents(ChildTexts(DocumentChunks(cfg, doc, organization))) == DocumentContent(cfg, doc) <==>
            TextSurvives(cfg, UsedBlocks(doc)) && TokenlessRepeats(Merged(cfg, RawItems(cfg, doc)))
  {
    hide RawItems, Merged, HierarchyOf, Contents, ContentsOf, SolidItems, TextSurvives, UsedBlocks,
         DocumentContent, KeyOf, Firsts, OnlyTables, RepeatsCarryNothing, PlainDocument, DocumentFits, Concat,
         TokenlessRepeats;
    var items := RawItems(cfg, doc);
    RawItemsExact(cfg, doc);
    ExtractionCarries(cfg, doc);
    MergedSolid(cfg, items);
    MergingConserves(cfg, items);
    FirstsCarryExactly(Merged(cfg, items), {});
    RepeatsExactly(Merged(cfg, items));
    FirstsSolid(Merged(cfg, items));
    HierarchyTexts(cfg, Target(doc.id, organization), KeptItems(cfg, doc));
  }
}
