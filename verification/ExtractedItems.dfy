/** The items extracted from a document: never blank, and within the limit exactly if the parts
    they come from fit. */
module ExtractedItems {
  import opened Wrappers
  import opened Text
  import opened Lexer
  import opened Underscores
  import opened Splitting
  import opened Items
  import opened Headings
  import opened Hierarchy
  import opened HierarchyLaws
  import opened Pipeline
  import opened CleanText
  import opened BlockLaws
  import opened WindowTokens
  import opened Conservation
  import BlockLimits
  import MuteText
  import Tables
  import TableSlicer
  import Lists
  import Blocks
  import opened DocumentParts

  /** The token limit the validator applies to a chunk that is not a parent. */
  function ChildLimit(cfg: ChunkingConfig): nat { cfg.maxTokens + 50 }

  /** Limits that leave room for each other, as the default settings do. */
  predicate Roomy(cfg: ChunkingConfig)
  {
    cfg.targetTokens <= ChildLimit(cfg) <= cfg.maxParentTokens && 4 * ChildLimit(cfg) + 8 <= cfg.maxChars
  }

  lemma DefaultIsRoomy()
    ensures Roomy(DEFAULT_CONFIG)
  {
  }

  // ------------------------------------------------------------------------ lists of items

  ghost predicate Sized(cfg: ChunkingConfig, items: seq<RawItem>)
  {
    forall x: RawItem :: x in items ==> Count(x.content) <= ChildLimit(cfg)
  }

  ghost predicate PlainItems(items: seq<RawItem>)
  {
    forall i :: 0 <= i < |items| ==> FusesNothing(items[i].content)
  }

  /** Items as extracted: none is blank or a parent; under roomy limits they all fit exactly if
      `fits`; and nothing fuses in them if `plain`. */
  ghost predicate Exact(cfg: ChunkingConfig, items: seq<RawItem>, fits: bool, plain: bool)
  {
    SolidItems(items) && (Roomy(cfg) ==> (Sized(cfg, items) <==> fits)) && (plain ==> PlainItems(items))
  }

  lemma {:induction false} ExactNone(cfg: ChunkingConfig)
    ensures Exact(cfg, [], true, true)
  {
  }

  lemma {:induction false} ExactAppend(
      cfg: ChunkingConfig, a: seq<RawItem>, fitsA: bool, plainA: bool, b: seq<RawItem>, fitsB: bool, plainB: bool)
    requires Exact(cfg, a, fitsA, plainA) && Exact(cfg, b, fitsB, plainB)
    ensures Exact(cfg, a + b, fitsA && fitsB, plainA && plainB)
  {
    hide SolidItem, Count, FusesNothing;
    assert forall x :: x in a + b <==> x in a || x in b;
    assert Sized(cfg, a + b) <==> Sized(cfg, a) && Sized(cfg, b);
  }

  lemma {:induction false} NewItemExact(p: Str, kind: ChunkType, origin: Origin)
    requires !IsBlank(p) && kind != PARENT
    ensures SolidItem(NewItem(p, kind, origin)) && Count(NewItem(p, kind, origin).content) == Count(p)
    ensures FusesNothing(NewItem(p, kind, origin).content) <==> FusesNothing(p)
  {
    hide Strip, Content, SumCost, FusesNothing, IsBlank;
    FusesStrip(p);
    ContentStrip(p);
    StrippedNotBlank(p);
  }

  lemma {:induction false} StrippedNotBlank(p: Str)
    requires !IsBlank(p)
    ensures !IsBlank(Strip(p))
  {
    hide Strip;
    var _, _ := StripSplits(p);
    Lists.StripNotBlank(Strip(p));
  }

  lemma {:induction false} ExactOne(cfg: ChunkingConfig, item: RawItem)
    requires SolidItem(item)
    ensures Exact(cfg, [item], Count(item.content) <= ChildLimit(cfg), FusesNothing(item.content))
  {
    hide Count, FusesNothing, IsBlank;
    assert item in [item];
  }

  lemma {:induction false} ExactWrap(
      cfg: ChunkingConfig, pieces: seq<Str>, kind: ChunkType, origin: Origin, fits: bool, plain: bool)
    requires kind != PARENT && (plain ==> NoneFuses(pieces))
    requires forall p :: p in pieces ==> !IsBlank(p)
    requires Roomy(cfg) ==> (AllWithin(pieces, ChildLimit(cfg)) <==> fits)
    ensures Exact(cfg, Wrap(pieces, kind, origin), fits, plain)
  {
    hide NewItem, IsBlank, FusesNothing, Count, SolidItem;
    var items := Wrap(pieces, kind, origin);
    forall i | 0 <= i < |pieces|
      ensures SolidItem(items[i]) && Count(items[i].content) == Count(pieces[i])
      ensures FusesNothing(items[i].content) <==> FusesNothing(pieces[i])
    {
      assert pieces[i] in pieces;
      NewItemExact(pieces[i], kind, origin);
    }
    if Roomy(cfg) && fits {
      forall x: RawItem | x in items ensures Count(x.content) <= ChildLimit(cfg) {
        var i :| 0 <= i < |items| && items[i] == x;
        assert pieces[i] in pieces;
      }
    }
    if Roomy(cfg) && Sized(cfg, items) {
      forall p | p in pieces ensures Count(p) <= ChildLimit(cfg) {
        var i :| 0 <= i < |pieces| && pieces[i] == p;
        assert items[i] in items;
      }
    }
  }

  // ------------------------------------------------------------------------ single blocks

  /** What keeps a block's chunks within the limit: headings and list lines are never split, so
      they must fit; of running text only the windows of oversized sentences must. */
  ghost predicate BlockFits(cfg: ChunkingConfig, block: Block)
    requires cfg.maxChars > 0
  {
    match block.kind
    case HeadingBlock => Count(block.text) <= ChildLimit(cfg)
    case ListBlock =>
      forall l :: l in Lists.ItemLines(Strip(block.text)) ==> Count(l) <= ChildLimit(cfg)
    case _ => BlockLimits.HugeWithin(cfg, TextSentences(block.text), ChildLimit(cfg))
  }

  lemma {:induction false} BlankBlockFits(cfg: ChunkingConfig, block: Block)
    requires cfg.maxChars > 0 && IsBlank(block.text)
    ensures BlockFits(cfg, block)
  {
    ContentOfBlank(block.text);
    StripOfBlank(block.text);
    Lists.NoLines();
    NoParagraphs();
  }

  lemma {:induction false} HeadingExact(cfg: ChunkingConfig, block: Block, origin: Origin)
    requires cfg.maxChars > 0 && block.kind == HeadingBlock && Strip(block.text) != []
    ensures Exact(cfg, [NewItem(Strip(block.text), HEADING, origin)], BlockFits(cfg, block), FusesNothing(block.text))
  {
    hide NewItem, Strip, Content, SumCost, FusesNothing, SolidItem, Exact;
    var text := Strip(block.text);
    var _, _ := StripSplits(block.text);
    FusesStrip(block.text);
    ContentStrip(block.text);
    Lists.StripNotBlank(text);
    NewItemExact(text, HEADING, origin);
    ExactOne(cfg, NewItem(text, HEADING, origin));
  }

  lemma {:induction false} ListExact(cfg: ChunkingConfig, block: Block, origin: Origin)
    requires cfg.maxChars > 0 && block.kind == ListBlock
    ensures Exact(cfg, Wrap(Lists.ListPieces(cfg, Strip(block.text)), LIST, origin), BlockFits(cfg, block),
                  FusesNothing(block.text))
  {
    hide Wrap, IsBlank, FusesNothing, Count, Contents, Content, Strip, Lists.ListPieces, Lists.ItemLines, Exact;
    var text := Strip(block.text);
    var _, _ := StripSplits(block.text);
    FusesStrip(block.text);
    if FusesNothing(text) {
      ListPiecesClean(cfg, text);
    }
    Lists.ListConserves(cfg, text);
    if Roomy(cfg) {
      Lists.ListWithinExactly(cfg, text, ChildLimit(cfg));
    }
    StripId(text);
    ExactWrap(cfg, Lists.ListPieces(cfg, text), LIST, origin, BlockFits(cfg, block), FusesNothing(block.text));
  }

  lemma {:induction false} TextExact(cfg: ChunkingConfig, block: Block, kind: ChunkType, origin: Origin)
    requires cfg.maxChars > 0 && block.kind != HeadingBlock && block.kind != ListBlock && kind != PARENT
    ensures Exact(cfg, Wrap(Blocks.BlockPieces(cfg, Strip(block.text)), kind, origin), BlockFits(cfg, block),
                  FusesNothing(block.text))
  {
    hide Wrap, FusesNothing, Count, Contents, Content, Inks, Ink, Blocks.BlockPieces, Cost, IsBlank, Strip, Exact,
         BlockLimits.HugeWithin, AllSentences, AllWithin, Bounded;
    var text := Strip(block.text);
    var pieces := Blocks.BlockPieces(cfg, text);
    FusesStrip(block.text);
    MuteText.StripBlankness(block.text);
    StripId(text);
    if FusesNothing(text) {
      PiecesClean(cfg, text);
    }
    PiecesBounded(cfg, text);
    forall p | p in pieces ensures !IsBlank(p) {
      BoundedNotBlank(cfg, p);
    }
    if Roomy(cfg) {
      BlockLimits.PiecesWithinExactly(cfg, text, ChildLimit(cfg));
    }
    ExactWrap(cfg, pieces, kind, origin, BlockFits(cfg, block), FusesNothing(block.text));
  }

  lemma {:induction false} BoundedNotBlank(cfg: ChunkingConfig, p: Str)
    requires Bounded(cfg, p)
    ensures !IsBlank(p)
  {
    Lists.StripNotBlank(p);
  }

  lemma {:induction false} BlockExact(
      cfg: ChunkingConfig, block: Block, stack: seq<Heading>, section: Option<Str>, page: Option<int>)
    requires cfg.maxChars > 0
    ensures Exact(cfg, BlockItems(cfg, block, stack, section, page), BlockFits(cfg, block), FusesNothing(block.text))
  {
    hide Strip, FusesNothing, Wrap, NewItem, OriginAt, StackAfter, BlockFits, Exact, IsBlank;
    MuteText.StripBlankness(block.text);
    if Strip(block.text) == [] {
      BlankBlockFits(cfg, block);
      BlankFusesNothing(block.text);
      ExactNone(cfg);
    } else {
      match block.kind
      case HeadingBlock =>
        HeadingExact(cfg, block,
          OriginAt(StackAfter(block, stack), page, OrElse(NonEmptyStr(section), Some(Strip(block.text)))));
      case ListBlock =>
        ListExact(cfg, block, OriginAt(stack, page, section));
      case _ =>
        TextExact(cfg, block, if block.kind == ParagraphBlock then PARAGRAPH else TEXT,
                  OriginAt(stack, page, section));
    }
  }

  // ------------------------------------------------------------------------------- tables

  /** A row is never split, so each row must fit under the headers on its own. */
  ghost predicate TableFits(cfg: ChunkingConfig, t: Tables.Table)
  {
    forall i :: 0 <= i < |t.rows| ==> Count(Tables.Render(t.headers, [t.rows[i]])) <= ChildLimit(cfg)
  }

  lemma {:induction false} RenderNotBlank(headers: Tables.Row, rows: seq<Tables.Row>)
    requires headers != [] || rows != []
    ensures !IsBlank(Tables.Render(headers, rows))
  {
    hide Tables.RowLines, Tables.HeaderCells;
    var width := Tables.Width(headers, rows);
    var lines := Tables.HeadLines(headers, width) + Tables.RowLines(rows, width);
    assert lines[0] == Tables.Line(Tables.HeaderCells(headers, width));
    assert Tables.Render(headers, rows)[0] == Tables.BAR;
  }

  lemma {:induction false} SliceExact(headers: Tables.Row, rows: seq<Tables.Row>, item: RawItem)
    requires headers != [] || rows != []
    requires item.kind == TABLE && item.content == Strip(Tables.Render(headers, rows))
    ensures SolidItem(item)
    ensures NoneFuses(headers) && (forall i :: 0 <= i < |rows| ==> NoneFuses(rows[i])) ==>
            FusesNothing(item.content)
  {
    hide Strip, NoneFuses, FusesNothing, IsBlank, Tables.Render;
    if NoneFuses(headers) && forall i :: 0 <= i < |rows| ==> NoneFuses(rows[i]) {
      RenderClean(headers, rows);
      FusesStrip(Tables.Render(headers, rows));
    }
    RenderNotBlank(headers, rows);
    StrippedNotBlank(Tables.Render(headers, rows));
  }

  lemma {:induction false} TilesExact(
      cfg: ChunkingConfig, items: seq<RawItem>, headers: Tables.Row, rows: seq<Tables.Row>, start: nat)
    requires start <= |rows| && TableSlicer.Tiles(cfg, items, headers, rows, start)
    requires forall s :: s in items ==> s.kind == TABLE
    ensures SolidItems(items)
    ensures NoneFuses(headers) && (forall i :: 0 <= i < |rows| ==> NoneFuses(rows[i])) ==> PlainItems(items)
    decreases |items|
  {
    hide Strip, NoneFuses, Tables.Render, SolidItem, TableSlicer.FitsRows, FusesNothing;
    if items != [] {
      var (lo, hi) := items[0].rows.value;
      var part := rows[lo..hi];
      assert items[0] in items;
      assert forall i :: 0 <= i < |part| ==> part[i] == rows[lo + i];
      SliceExact(headers, part, items[0]);
      TilesExact(cfg, items[1..], headers, rows, hi);
      assert items == [items[0]] + items[1..];
    }
  }

  lemma {:induction false} HeaderOnlyExact(cfg: ChunkingConfig, t: Tables.Table, origin: Origin)
    requires t.rows == []
    ensures SolidItems(TableSlicer.TableItems(cfg, t, origin))
    ensures CleanTable(t) ==> PlainItems(TableSlicer.TableItems(cfg, t, origin))
  {
    hide Strip, NoneFuses, Tables.Render, SolidItem, TableSlicer.FitsRows, FusesNothing;
    var items := TableSlicer.TableItems(cfg, t, origin);
    TableSlicer.NoSlicesExactly(cfg, t, origin);
    if items != [] {
      TableSlicer.SliceItemsCons(t.headers, [], [], 0, origin);
      TableSlicer.SliceItemsNone(t.headers, 0, origin);
      assert [[]] + [] == [t.rows];
      assert items == [TableSlicer.Slice(t.headers, [], 0, origin)];
      SliceExact(t.headers, [], items[0]);
    }
  }

  lemma {:induction false} TableExact(cfg: ChunkingConfig, t: Tables.Table, origin: Origin)
    requires cfg.maxChars > 0
    ensures Exact(cfg, TableSlicer.TableItems(cfg, t, origin), TableFits(cfg, t), CleanTable(t))
  {
    hide TableSlicer.TableItems, NoneFuses, SolidItem, TableSlicer.Tiles, Count, Tables.Render, FusesNothing;
    if Roomy(cfg) {
      TableSlicer.SlicesWithinExactly(cfg, t, origin, ChildLimit(cfg));
    }
    if t.rows != [] {
      TableSlicer.SlicesTile(cfg, t, origin);
      TilesExact(cfg, TableSlicer.TableItems(cfg, t, origin), t.headers, t.rows, 0);
    } else {
      HeaderOnlyExact(cfg, t, origin);
    }
  }

  // --------------------------------------------------------------------- parts of documents

  ghost predicate CleanBlocks(blocks: seq<Block>) { forall b: Block :: b in blocks ==> FusesNothing(b.text) }

  ghost predicate BlocksFit(cfg: ChunkingConfig, blocks: seq<Block>)
    requires cfg.maxChars > 0
  {
    forall b :: b in blocks ==> BlockFits(cfg, b)
  }

  ghost predicate CleanTables(tables: seq<SourceTable>)
  {
    forall t: SourceTable :: t in tables ==> CleanTable(t.table)
  }

  ghost predicate TablesFit(cfg: ChunkingConfig, tables: seq<SourceTable>)
  {
    forall t: SourceTable :: t in tables ==> TableFits(cfg, t.table)
  }

  lemma {:induction false} BlocksSplit(cfg: ChunkingConfig, a: seq<Block>, b: seq<Block>)
    requires cfg.maxChars > 0
    ensures BlocksFit(cfg, a + b) <==> BlocksFit(cfg, a) && BlocksFit(cfg, b)
    ensures CleanBlocks(a + b) <==> CleanBlocks(a) && CleanBlocks(b)
  {
    hide BlockFits, FusesNothing;
    assert forall x :: x in a || x in b ==> x in a + b;
  }

  lemma {:induction false} TablesSplit(cfg: ChunkingConfig, a: seq<SourceTable>, b: seq<SourceTable>)
    ensures TablesFit(cfg, a + b) <==> TablesFit(cfg, a) && TablesFit(cfg, b)
    ensures CleanTables(a + b) <==> CleanTables(a) && CleanTables(b)
  {
    hide TableFits, CleanTable;
    assert forall x :: x in a || x in b ==> x in a + b;
  }

  lemma {:induction false} OneBlock(cfg: ChunkingConfig, b: Block)
    requires cfg.maxChars > 0
    ensures BlocksFit(cfg, [b]) <==> BlockFits(cfg, b)
    ensures CleanBlocks([b]) <==> FusesNothing(b.text)
    ensures BlocksFit(cfg, []) && CleanBlocks([])
  {
    hide BlockFits, FusesNothing;
    assert b in [b];
  }

  lemma {:induction false} OneTable(cfg: ChunkingConfig, t: SourceTable)
    ensures TablesFit(cfg, [t]) <==> TableFits(cfg, t.table)
    ensures CleanTables([t]) <==> CleanTable(t.table)
  {
    hide TableFits, CleanTable;
    assert t in [t];
  }

  lemma {:induction false} NoTables(cfg: ChunkingConfig)
    ensures TablesFit(cfg, []) && CleanTables([])
  {
  }

  lemma {:induction false} BlocksExact(
      cfg: ChunkingConfig, blocks: seq<Block>, stack: seq<Heading>, source: TitleSource, page: Option<int>)
    requires cfg.maxChars > 0
    ensures Exact(cfg, BlocksItems(cfg, blocks, stack, source, page), BlocksFit(cfg, blocks), CleanBlocks(blocks))
    decreases |blocks|
  {
    hide BlockItems, StackAfter, TitleAt, FusesNothing, BlockFits, Exact, BlocksFit, CleanBlocks;
    ExactNone(cfg);
    if blocks == [] {
      OneBlock(cfg, Block(OtherBlock, [], 1));
    } else {
      var b, rest := blocks[0], blocks[1..];
      var after := StackAfter(b, stack);
      BlockExact(cfg, b, stack, TitleAt(source, stack), page);
      BlocksExact(cfg, rest, after, source, page);
      OneBlock(cfg, b);
      BlocksSplit(cfg, [b], rest);
      assert blocks == [b] + rest;
      ExactAppend(cfg, BlockItems(cfg, b, stack, TitleAt(source, stack), page), BlockFits(cfg, b),
                  FusesNothing(b.text), BlocksItems(cfg, rest, after, source, page), BlocksFit(cfg, rest),
                  CleanBlocks(rest));
    }
  }

  lemma {:induction false} PageTablesExact(cfg: ChunkingConfig, tables: seq<SourceTable>, stack: seq<Heading>)
    requires cfg.maxChars > 0
    ensures Exact(cfg, PageTablesItems(cfg, tables, stack), TablesFit(cfg, tables), CleanTables(tables))
  {
    hide TableSlicer.TableItems, OriginAt, TitleAt, CleanTable, TableFits, Exact, TablesFit, CleanTables;
    ExactNone(cfg);
    if tables == [] {
      NoTables(cfg);
    } else {
      var t, rest := tables[0], tables[1..];
      TableExact(cfg, t.table, OriginAt(stack, t.page, TitleAt(FromHeadings, stack)));
      PageTablesExact(cfg, rest, stack);
      OneTable(cfg, t);
      TablesSplit(cfg, [t], rest);
      assert tables == [t] + rest;
      ExactAppend(cfg, SourceTableItems(cfg, t, stack, TitleAt(FromHeadings, stack)),
                  TableFits(cfg, t.table), CleanTable(t.table),
                  PageTablesItems(cfg, rest, stack), TablesFit(cfg, rest), CleanTables(rest));
    }
  }

  lemma {:induction false} StandaloneExact(cfg: ChunkingConfig, tables: seq<SourceTable>, stack: seq<Heading>)
    requires cfg.maxChars > 0
    ensures Exact(cfg, StandaloneItems(cfg, tables, stack), TablesFit(cfg, tables), CleanTables(tables))
  {
    hide TableSlicer.TableItems, OriginAt, SheetSection, CleanTable, TableFits, Exact, TablesFit, CleanTables;
    ExactNone(cfg);
    if tables == [] {
      NoTables(cfg);
    } else {
      var t, rest := tables[0], tables[1..];
      TableExact(cfg, t.table, OriginAt(stack, t.page, SheetSection(t)));
      StandaloneExact(cfg, rest, stack);
      OneTable(cfg, t);
      TablesSplit(cfg, [t], rest);
      assert tables == [t] + rest;
      ExactAppend(cfg, SourceTableItems(cfg, t, stack, SheetSection(t)),
                  TableFits(cfg, t.table), CleanTable(t.table),
                  StandaloneItems(cfg, rest, stack), TablesFit(cfg, rest), CleanTables(rest));
    }
  }

  lemma {:induction false} SectionsExact(cfg: ChunkingConfig, sections: seq<Section>, stack: seq<Heading>)
    requires cfg.maxChars > 0
    ensures Exact(cfg, SectionsItems(cfg, sections, stack), BlocksFit(cfg, SectionsBlocks(sections)),
                  CleanBlocks(SectionsBlocks(sections)))
    decreases |sections|
  {
    hide BlocksItems, BlocksStack, Push, CleanBlocks, BlocksFit, Exact;
    ExactNone(cfg);
    if sections == [] {
      OneBlock(cfg, Block(OtherBlock, [], 1));
    } else {
      var s, rest := sections[0], sections[1..];
      var inside := Push(stack, Heading(s.level, s.title));
      var later := BlocksStack(s.blocks, inside);
      BlocksExact(cfg, s.blocks, inside, Fixed(s.title), None);
      SectionsExact(cfg, rest, later);
      BlocksSplit(cfg, s.blocks, SectionsBlocks(rest));
      ExactAppend(cfg, BlocksItems(cfg, s.blocks, inside, Fixed(s.title), None), BlocksFit(cfg, s.blocks),
                  CleanBlocks(s.blocks), SectionsItems(cfg, rest, later), BlocksFit(cfg, SectionsBlocks(rest)),
                  CleanBlocks(SectionsBlocks(rest)));
    }
  }

  lemma {:induction false} PagesExact(cfg: ChunkingConfig, pages: seq<Page>, stack: seq<Heading>)
    requires cfg.maxChars > 0
    ensures Exact(cfg, PagesItems(cfg, pages, stack),
                  BlocksFit(cfg, PagesBlocks(pages)) && TablesFit(cfg, PagesTables(pages)),
                  CleanBlocks(PagesBlocks(pages)) && CleanTables(PagesTables(pages)))
    decreases |pages|
  {
    hide BlocksItems, BlocksStack, PageTablesItems, CleanBlocks, BlocksFit, CleanTables, TablesFit, Exact;
    ExactNone(cfg);
    if pages == [] {
      OneBlock(cfg, Block(OtherBlock, [], 1));
      NoTables(cfg);
    } else {
      var p, rest := pages[0], pages[1..];
      var after := BlocksStack(p.blocks, stack);
      var a := BlocksItems(cfg, p.blocks, stack, FromHeadings, Some(p.number));
      var b := PageTablesItems(cfg, p.tables, after);
      BlocksExact(cfg, p.blocks, stack, FromHeadings, Some(p.number));
      PageTablesExact(cfg, p.tables, after);
      PagesExact(cfg, rest, after);
      BlocksSplit(cfg, p.blocks, PagesBlocks(rest));
      TablesSplit(cfg, p.tables, PagesTables(rest));
      ExactAppend(cfg, a, BlocksFit(cfg, p.blocks), CleanBlocks(p.blocks),
                  b, TablesFit(cfg, p.tables), CleanTables(p.tables));
      ExactAppend(cfg, a + b, BlocksFit(cfg, p.blocks) && TablesFit(cfg, p.tables),
                  CleanBlocks(p.blocks) && CleanTables(p.tables), PagesItems(cfg, rest, after),
                  BlocksFit(cfg, PagesBlocks(rest)) && TablesFit(cfg, PagesTables(rest)),
                  CleanBlocks(PagesBlocks(rest)) && CleanTables(PagesTables(rest)));
    }
  }

  lemma {:induction false} TitleExact(cfg: ChunkingConfig, title: Option<Str>)
    ensures Exact(cfg, TitleItems(title), title.Some? ==> Count(title.value) <= ChildLimit(cfg),
                  title.Some? ==> FusesNothing(title.value))
  {
    hide Strip, FusesNothing, NewItem, Exact, Content;
    if title.None? {
      ExactNone(cfg);
    } else {
      MuteText.StripBlankness(title.value);
      if Strip(title.value) == [] {
        ContentOfBlank(title.value);
        BlankFusesNothing(title.value);
        ExactNone(cfg);
      } else {
        TitleItemExact(cfg, title.value);
      }
    }
  }

  lemma {:induction false} TitleItemExact(cfg: ChunkingConfig, title: Str)
    requires Strip(title) != []
    ensures var t := Strip(title);
      Exact(cfg, [NewItem(t, TEXT, Origin([t], Some(t), None, None))], Count(title) <= ChildLimit(cfg),
            FusesNothing(title))
  {
    hide Strip, FusesNothing, NewItem, Content, SumCost, SolidItem, Exact;
    var t := Strip(title);
    var _, _ := StripSplits(title);
    FusesStrip(title);
    ContentStrip(title);
    Lists.StripNotBlank(t);
    NewItemExact(t, TEXT, Origin([t], Some(t), None, None));
    ExactOne(cfg, NewItem(t, TEXT, Origin([t], Some(t), None, None)));
  }

  // ----------------------------------------------------------------------- whole documents

  /** Nothing fuses in any text that is used, the title's included where it stands in. */
  ghost predicate PlainDocument(cfg: ChunkingConfig, doc: Document)
  {
    CleanBlocks(UsedBlocks(doc)) && CleanTables(UsedTables(doc)) &&
    (NothingExtracted(cfg, doc) && doc.title.Some? ==> FusesNothing(doc.title.value))
  }

  ghost predicate TitleFits(cfg: ChunkingConfig, doc: Document)
  {
    NothingExtracted(cfg, doc) && doc.title.Some? ==> Count(doc.title.value) <= ChildLimit(cfg)
  }

  /** Every heading, list line, table row and window that is used fits the limit, and the title
      fits where it stands in. */
  ghost predicate DocumentFits(cfg: ChunkingConfig, doc: Document)
    requires cfg.maxChars > 0
  {
    BlocksFit(cfg, UsedBlocks(doc)) && TablesFit(cfg, UsedTables(doc)) && TitleFits(cfg, doc)
  }

  lemma {:induction false} StructureExact(cfg: ChunkingConfig, doc: Document)
    requires cfg.maxChars > 0
    ensures Exact(cfg, StructureItems(cfg, doc),
                  BlocksFit(cfg, UsedBlocks(doc)) && TablesFit(cfg, UsedTables(doc)),
                  CleanBlocks(UsedBlocks(doc)) && CleanTables(UsedTables(doc)))
  {
    hide SectionsItems, PagesItems, StandaloneItems, SectionsStack, PagesStack, CleanBlocks, CleanTables,
         BlocksFit, TablesFit, Exact;
    if doc.sections != [] {
      var stack := SectionsStack(doc.sections, []);
      var blocks := SectionsBlocks(doc.sections);
      SectionsExact(cfg, doc.sections, []);
      StandaloneExact(cfg, doc.tables, stack);
      assert UsedTables(doc) == doc.tables;
      ExactAppend(cfg, SectionsItems(cfg, doc.sections, []), BlocksFit(cfg, blocks), CleanBlocks(blocks),
                  StandaloneItems(cfg, doc.tables, stack), TablesFit(cfg, doc.tables), CleanTables(doc.tables));
    } else {
      var stack := PagesStack(doc.pages, []);
      var blocks, tables := PagesBlocks(doc.pages), PagesTables(doc.pages);
      PagesExact(cfg, doc.pages, []);
      StandaloneExact(cfg, doc.tables, stack);
      TablesSplit(cfg, tables, doc.tables);
      ExactAppend(cfg, PagesItems(cfg, doc.pages, []), BlocksFit(cfg, blocks) && TablesFit(cfg, tables),
                  CleanBlocks(blocks) && CleanTables(tables),
                  StandaloneItems(cfg, doc.tables, stack), TablesFit(cfg, doc.tables), CleanTables(doc.tables));
    }
  }

  /** Under roomy limits the extracted items all fit exactly if the document's parts do. */
  lemma {:induction false} RawItemsExact(cfg: ChunkingConfig, doc: Document)
    requires cfg.maxChars > 0
    ensures Exact(cfg, RawItems(cfg, doc), DocumentFits(cfg, doc), PlainDocument(cfg, doc))
  {
    hide StructureItems, TitleItems, Exact, NothingExtracted, BlocksFit, TablesFit, CleanBlocks, CleanTables,
         UsedBlocks, UsedTables;
    var fits := BlocksFit(cfg, UsedBlocks(doc)) && TablesFit(cfg, UsedTables(doc));
    var plain := CleanBlocks(UsedBlocks(doc)) && CleanTables(UsedTables(doc));
    StructureExact(cfg, doc);
    TitleUsedExactly(cfg, doc);
    if NothingExtracted(cfg, doc) {
      TitleExact(cfg, doc.title);
      if Roomy(cfg) {
        NothingIsSized(cfg, StructureItems(cfg, doc), fits, plain);
      }
      var some := doc.title.Some? ==> FusesNothing(doc.title.value);
      var small := doc.title.Some? ==> Count(doc.title.value) <= ChildLimit(cfg);
      LessPlain(cfg, RawItems(cfg, doc), small, some, DocumentFits(cfg, doc), plain && some);
    }
  }

  lemma {:induction false} NothingIsSized(cfg: ChunkingConfig, items: seq<RawItem>, fits: bool, plain: bool)
    requires Roomy(cfg) && items == [] && Exact(cfg, items, fits, plain)
    ensures fits
  {
  }

  lemma {:induction false} LessPlain(
      cfg: ChunkingConfig, items: seq<RawItem>, fits: bool, plain: bool, same: bool, less: bool)
    requires Exact(cfg, items, fits, plain) && (Roomy(cfg) ==> same == fits) && (less ==> plain)
    ensures Exact(cfg, items, same, less)
  {
    hide SolidItems, Sized, PlainItems;
  }
}
