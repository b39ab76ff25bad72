/** Which parts of a document chunking reads, and when they yield nothing. */
module DocumentParts {
  import opened Wrappers
  import opened Text
  import opened Items
  import opened Headings
  import opened Hierarchy
  import opened Pipeline
  import MuteText
  import Tables
  import TableSlicer
  import Lists
  import Blocks

  function SectionsBlocks(sections: seq<Section>): (r: seq<Block>)
  {
    if sections == [] then [] else sections[0].blocks + SectionsBlocks(sections[1..])
  }

  function PagesBlocks(pages: seq<Page>): (r: seq<Block>)
  {
    if pages == [] then [] else pages[0].blocks + PagesBlocks(pages[1..])
  }

  function PagesTables(pages: seq<Page>): (r: seq<SourceTable>)
  {
    if pages == [] then [] else pages[0].tables + PagesTables(pages[1..])
  }

  /** The blocks that chunking reads: those of the sections, or else of the pages. */
  function UsedBlocks(doc: Document): (r: seq<Block>)
  {
    if doc.sections != [] then SectionsBlocks(doc.sections) else PagesBlocks(doc.pages)
  }

  /** The tables that chunking reads. */
  function UsedTables(doc: Document): (r: seq<SourceTable>)
  {
    (if doc.sections != [] then [] else PagesTables(doc.pages)) + doc.tables
  }

  /** Blocks that are split by paragraphs and sentences. */
  predicate RunningText(block: Block) { block.kind != HeadingBlock && block.kind != ListBlock }

  // ------------------------------------------------------------------- nothing to extract

  /** A block that yields no chunk. */
  predicate BlockMute(cfg: ChunkingConfig, block: Block)
  {
    if RunningText(block) then MuteText.Mute(cfg, Strip(block.text)) else IsBlank(block.text)
  }

  /** A table that yields no chunk. */
  predicate TableMute(cfg: ChunkingConfig, t: Tables.Table)
  {
    t.rows == [] && (t.headers == [] || !TableSlicer.FitsRows(cfg, t.headers, []))
  }

  ghost predicate BlocksMute(cfg: ChunkingConfig, blocks: seq<Block>)
  {
    forall b :: b in blocks ==> BlockMute(cfg, b)
  }

  ghost predicate TablesMute(cfg: ChunkingConfig, tables: seq<SourceTable>)
  {
    forall t: SourceTable :: t in tables ==> TableMute(cfg, t.table)
  }

  lemma {:induction false} MuteSplit(
      cfg: ChunkingConfig, a: seq<Block>, b: seq<Block>, s: seq<SourceTable>, t: seq<SourceTable>)
    ensures BlocksMute(cfg, a + b) <==> BlocksMute(cfg, a) && BlocksMute(cfg, b)
    ensures TablesMute(cfg, s + t) <==> TablesMute(cfg, s) && TablesMute(cfg, t)
  {
    hide BlockMute, TableMute;
    assert forall x :: x in a || x in b ==> x in a + b;
    assert forall x :: x in s || x in t ==> x in s + t;
  }

  /** Nothing in the document yields a chunk, so that its title stands in. */
  ghost predicate NothingExtracted(cfg: ChunkingConfig, doc: Document)
  {
    BlocksMute(cfg, UsedBlocks(doc)) && TablesMute(cfg, UsedTables(doc))
  }

  lemma {:induction false} NoBlockItems(
      cfg: ChunkingConfig, block: Block, stack: seq<Heading>, section: Option<Str>, page: Option<int>)
    requires cfg.maxChars > 0
    ensures BlockItems(cfg, block, stack, section, page) == [] <==> BlockMute(cfg, block)
  {
    hide Strip, NewItem, OriginAt, StackAfter, IsBlank, MuteText.Mute, Lists.ListPieces, Blocks.BlockPieces;
    var text := Strip(block.text);
    MuteText.StripBlankness(block.text);
    StripId(text);
    MuteText.StripBlankness(text);
    Lists.NoPiecesExactly(cfg, text);
    MuteText.NoPiecesExactly(cfg, text);
    if text == [] {
      NothingIsMute(cfg);
    }
  }

  lemma {:induction false} NothingIsMute(cfg: ChunkingConfig)
    ensures MuteText.Mute(cfg, [])
  {
  }

  lemma {:induction false} NoBlocksItems(
      cfg: ChunkingConfig, blocks: seq<Block>, stack: seq<Heading>, source: TitleSource, page: Option<int>)
    requires cfg.maxChars > 0
    ensures BlocksItems(cfg, blocks, stack, source, page) == [] <==> BlocksMute(cfg, blocks)
    decreases |blocks|
  {
    hide BlockItems, StackAfter, TitleAt, BlockMute;
    if blocks != [] {
      NoBlockItems(cfg, blocks[0], stack, TitleAt(source, stack), page);
      NoBlocksItems(cfg, blocks[1..], StackAfter(blocks[0], stack), source, page);
      MuteSplit(cfg, [blocks[0]], blocks[1..], [], []);
      assert blocks == [blocks[0]] + blocks[1..] && blocks[0] in [blocks[0]];
    }
  }

  lemma {:induction false} NoPageTables(cfg: ChunkingConfig, tables: seq<SourceTable>, stack: seq<Heading>)
    ensures PageTablesItems(cfg, tables, stack) == [] <==> TablesMute(cfg, tables)
  {
    hide TableSlicer.TableItems, OriginAt, TitleAt, TableSlicer.FitsRows;
    if tables != [] {
      TableSlicer.NoSlicesExactly(
        cfg, tables[0].table, OriginAt(stack, tables[0].page, TitleAt(FromHeadings, stack)));
      NoPageTables(cfg, tables[1..], stack);
      MuteSplit(cfg, [], [], [tables[0]], tables[1..]);
      assert tables == [tables[0]] + tables[1..] && tables[0] in [tables[0]];
    }
  }

  lemma {:induction false} NoStandalone(cfg: ChunkingConfig, tables: seq<SourceTable>, stack: seq<Heading>)
    ensures StandaloneItems(cfg, tables, stack) == [] <==> TablesMute(cfg, tables)
  {
    hide TableSlicer.TableItems, OriginAt, SheetSection, TableSlicer.FitsRows;
    if tables != [] {
      TableSlicer.NoSlicesExactly(
        cfg, tables[0].table, OriginAt(stack, tables[0].page, SheetSection(tables[0])));
      NoStandalone(cfg, tables[1..], stack);
      MuteSplit(cfg, [], [], [tables[0]], tables[1..]);
      assert tables == [tables[0]] + tables[1..] && tables[0] in [tables[0]];
    }
  }

  lemma {:induction false} NoSections(cfg: ChunkingConfig, sections: seq<Section>, stack: seq<Heading>)
    requires cfg.maxChars > 0
    ensures SectionsItems(cfg, sections, stack) == [] <==> BlocksMute(cfg, SectionsBlocks(sections))
    decreases |sections|
  {
    hide BlocksItems, BlocksStack, Push, BlockMute;
    if sections != [] {
      var s := sections[0];
      var inside := Push(stack, Heading(s.level, s.title));
      NoBlocksItems(cfg, s.blocks, inside, Fixed(s.title), None);
      NoSections(cfg, sections[1..], BlocksStack(s.blocks, inside));
      MuteSplit(cfg, s.blocks, SectionsBlocks(sections[1..]), [], []);
    }
  }

  lemma {:induction false} NoPagesItems(cfg: ChunkingConfig, pages: seq<Page>, stack: seq<Heading>)
    requires cfg.maxChars > 0
    ensures PagesItems(cfg, pages, stack) == [] <==>
            BlocksMute(cfg, PagesBlocks(pages)) && TablesMute(cfg, PagesTables(pages))
    decreases |pages|
  {
    hide BlocksItems, BlocksStack, PageTablesItems, BlockMute, TableMute;
    if pages != [] {
      var p := pages[0];
      var after := BlocksStack(p.blocks, stack);
      NoBlocksItems(cfg, p.blocks, stack, FromHeadings, Some(p.number));
      NoPageTables(cfg, p.tables, after);
      NoPagesItems(cfg, pages[1..], after);
      MuteSplit(cfg, p.blocks, PagesBlocks(pages[1..]), p.tables, PagesTables(pages[1..]));
    }
  }

  /** The title is used if and only if nothing else in the document yields a chunk. */
  lemma {:induction false} TitleUsedExactly(cfg: ChunkingConfig, doc: Document)
    requires cfg.maxChars > 0
    ensures StructureItems(cfg, doc) == [] <==> NothingExtracted(cfg, doc)
  {
    hide SectionsItems, PagesItems, StandaloneItems, SectionsStack, PagesStack, BlocksMute, TablesMute;
    if doc.sections != [] {
      NoSections(cfg, doc.sections, []);
      NoStandalone(cfg, doc.tables, SectionsStack(doc.sections, []));
      assert UsedTables(doc) == doc.tables;
    } else {
      NoPagesItems(cfg, doc.pages, []);
      NoStandalone(cfg, doc.tables, PagesStack(doc.pages, []));
      MuteSplit(cfg, [], [], PagesTables(doc.pages), doc.tables);
    }
  }
}
