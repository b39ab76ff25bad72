/** Chunking a whole document: extraction, merging of small fragments, removal of duplicates,
    hierarchy and validation. */
module Pipeline {
  import opened Wrappers
  import opened Text
  import opened Lexer
  import opened Tokenizer
  import opened Items
  import opened Headings
  import opened Hierarchy
  import Tables
  import TableSlicer
  import Lists
  import Blocks

  // ------------------------------------------------------------------- small fragments

  function MergedContent(a: RawItem, b: RawItem): (r: Str)
  {
    a.content + PARENT_SEP + b.content
  }

  predicate Mergeable(cfg: ChunkingConfig, a: RawItem, b: RawItem)
  {
    Count(a.content) < cfg.smallTokens && a.kind in {HEADING, TEXT} &&
    Count(MergedContent(a, b)) <= cfg.targetTokens && |MergedContent(a, b)| <= cfg.maxChars &&
    b.kind != TABLE
  }

  function OrElse<T>(a: Option<T>, b: Option<T>): (r: Option<T>) { if a.Some? then a else b }

  function NonEmptyStr(a: Option<Str>): (r: Option<Str>) { if a == Some([]) then None else a }

  function NonZero(a: Option<int>): (r: Option<int>) { if a == Some(0) then None else a }

  /** The composite of a small fragment and the item after it.  Fields fall back to the second
      item's where the first's are missing, empty or zero. */
  function Composite(a: RawItem, b: RawItem): (r: RawItem)
  {
    RawItem(
      Strip(MergedContent(a, b)), COMPOSITE,
      Origin(
        if a.origin.headingPath != [] then a.origin.headingPath else b.origin.headingPath,
        OrElse(NonEmptyStr(a.origin.headingContext), b.origin.headingContext),
        OrElse(NonZero(a.origin.page), b.origin.page),
        OrElse(NonEmptyStr(a.origin.section), b.origin.section)),
      b.rows)
  }

  function Merged(cfg: ChunkingConfig, items: seq<RawItem>): (r: seq<RawItem>)
  {
    if items == [] then []
    else if |items| >= 2 && Mergeable(cfg, items[0], items[1]) then
      [Composite(items[0], items[1])] + Merged(cfg, items[2..])
    else [items[0]] + Merged(cfg, items[1..])
  }

  /** One step of merging, seen from inside a loop over positions. */
  lemma MergedStep(cfg: ChunkingConfig, items: seq<RawItem>, i: nat)
    requires i < |items|
    ensures Merged(cfg, items[i..]) ==
      if i + 1 < |items| && Mergeable(cfg, items[i], items[i + 1])
      then [Composite(items[i], items[i + 1])] + Merged(cfg, items[i + 2..])
      else [items[i]] + Merged(cfg, items[i + 1..])
  {
    hide Composite, Mergeable;
    assert items[i..][0] == items[i] && items[i..][1..] == items[i + 1..];
    if i + 1 < |items| {
      assert items[i..][1] == items[i + 1] && items[i..][2..] == items[i + 2..];
    }
  }

  method MergeSmallChunks(cfg: ChunkingConfig, items: seq<RawItem>) returns (merged: seq<RawItem>)
    ensures merged == Merged(cfg, items)
  {
    hide Composite, Count, MergedContent, Merged;
    if |items| <= 1 {
      NothingToMerge(cfg, items);
      return items;
    }
    merged := [];
    var i := 0;
    assert items[0..] == items;
    while i < |items|
      invariant i <= |items|
      invariant merged + Merged(cfg, items[i..]) == Merged(cfg, items)
    {
      var current := items[i];
      var tokens := CountTokens(current.content);
      MergedStep(cfg, items, i);
      if tokens < cfg.smallTokens && i + 1 < |items| && current.kind in {HEADING, TEXT} {
        var next := items[i + 1];
        var combined := MergedContent(current, next);
        var combinedTokens := CountTokens(combined);
        if combinedTokens <= cfg.targetTokens && |combined| <= cfg.maxChars && next.kind != TABLE {
          merged := merged + [Composite(current, next)];
          i := i + 2;
          continue;
        }
      }
      merged := merged + [current];
      i := i + 1;
    }
    assert items[|items|..] == [];
    NothingToMerge(cfg, []);
  }

  lemma NothingToMerge(cfg: ChunkingConfig, items: seq<RawItem>)
    requires |items| <= 1
    ensures Merged(cfg, items) == items
  {
    hide Composite, Mergeable;
  }

  // ------------------------------------------------------------------------- duplicates

  datatype Key = Key(contentHash: Str, context: Str, page: Option<int>)

  function KeyOf(item: RawItem): (k: Key)
  {
    Key(ContentHash(item.content),
        if item.origin.headingContext.Some? then item.origin.headingContext.value else [],
        item.origin.page)
  }

  /** The items whose key occurs neither in `seen` nor earlier in the list. */
  function Firsts(items: seq<RawItem>, seen: set<Key>): (r: seq<RawItem>)
  {
    if items == [] then []
    else if KeyOf(items[0]) in seen then Firsts(items[1..], seen)
    else [items[0]] + Firsts(items[1..], seen + {KeyOf(items[0])})
  }

  method DeduplicateRawItems(items: seq<RawItem>) returns (deduped: seq<RawItem>)
    ensures deduped == Firsts(items, {})
  {
    hide KeyOf;
    var seen: set<Key> := {};
    deduped := [];
    assert items[0..] == items;
    for i := 0 to |items|
      invariant deduped + Firsts(items[i..], seen) == Firsts(items, {})
    {
      assert items[i..][0] == items[i] && items[i..][1..] == items[i + 1..];
      var key := KeyOf(items[i]);
      if key in seen {
        continue;
      }
      seen := seen + {key};
      deduped := deduped + [items[i]];
    }
  }

  // ------------------------------------------------------------------------- extraction

  datatype BlockType = HeadingBlock | ParagraphBlock | ListBlock | TableBlock | OtherBlock

  datatype Block = Block(kind: BlockType, text: Str, level: int)

  datatype SourceTable = SourceTable(table: Tables.Table, page: Option<int>, sheet: Option<Str>)

  datatype Section = Section(title: Str, level: int, blocks: seq<Block>)

  datatype Page = Page(number: int, blocks: seq<Block>, tables: seq<SourceTable>)

  datatype Document = Document(
    id: int,
    title: Option<Str>,
    sections: seq<Section>,
    pages: seq<Page>,
    tables: seq<SourceTable>)

  function OriginAt(stack: seq<Heading>, page: Option<int>, section: Option<Str>): (r: Origin)
  {
    Origin(Titles(stack), Some(Context(stack)), page, section)
  }

  /** The heading stack after a block. */
  function StackAfter(block: Block, stack: seq<Heading>): (r: seq<Heading>)
  {
    if block.kind == HeadingBlock && Strip(block.text) != []
    then Push(stack, Heading(block.level, Strip(block.text))) else stack
  }

  function BlockItems(
      cfg: ChunkingConfig, block: Block, stack: seq<Heading>, section: Option<Str>, page: Option<int>)
    : (r: seq<RawItem>)
    requires cfg.maxChars > 0
  {
    var text := Strip(block.text);
    if text == [] then []
    else if block.kind == HeadingBlock then
      [NewItem(text, HEADING,
        OriginAt(StackAfter(block, stack), page, OrElse(NonEmptyStr(section), Some(text))))]
    else if block.kind == ListBlock then
      Wrap(Lists.ListPieces(cfg, text), LIST, OriginAt(stack, page, section))
    else
      Wrap(Blocks.BlockPieces(cfg, text), if block.kind == ParagraphBlock then PARAGRAPH else TEXT,
           OriginAt(stack, page, section))
  }

  method ExtractBlock(
      cfg: ChunkingConfig, block: Block, tracker: HeadingPathTracker, section: Option<Str>,
      page: Option<int>)
    returns (items: seq<RawItem>)
    requires cfg.maxChars > 0
    modifies tracker
    ensures items == BlockItems(cfg, block, old(tracker.stack), section, page)
    ensures tracker.stack == StackAfter(block, old(tracker.stack))
  {
    hide Strip, Push, Wrap, NewItem, Titles, Context;
    var text := Strip(block.text);
    if text == [] {
      return [];
    }
    if block.kind == HeadingBlock {
      tracker.Update(block.level, text);
      var own := OrElse(NonEmptyStr(section), Some(text));
      return [NewItem(text, HEADING, OriginAt(tracker.stack, page, own))];
    }
    if block.kind == ListBlock {
      items := Lists.ChunkList(cfg, text, OriginAt(tracker.stack, page, section));
      return;
    }
    var kind := if block.kind == ParagraphBlock then PARAGRAPH else TEXT;
    items := Blocks.ChunkBlock(cfg, text, kind, OriginAt(tracker.stack, page, section));
  }

  /** Where a block's section title comes from: the enclosing section, or the heading path at
      that point. */
  datatype TitleSource = Fixed(title: Str) | FromHeadings

  function TitleAt(source: TitleSource, stack: seq<Heading>): (r: Option<Str>)
  {
    match source
    case Fixed(title) => Some(title)
    case FromHeadings => NonEmptyStr(Some(Context(stack)))
  }

  function BlocksItems(
      cfg: ChunkingConfig, blocks: seq<Block>, stack: seq<Heading>, source: TitleSource, page: Option<int>)
    : (r: seq<RawItem>)
    requires cfg.maxChars > 0
    decreases |blocks|
  {
    if blocks == [] then []
    else
      BlockItems(cfg, blocks[0], stack, TitleAt(source, stack), page) +
      BlocksItems(cfg, blocks[1..], StackAfter(blocks[0], stack), source, page)
  }

  function BlocksStack(blocks: seq<Block>, stack: seq<Heading>): (r: seq<Heading>)
  {
    if blocks == [] then stack else BlocksStack(blocks[1..], StackAfter(blocks[0], stack))
  }

  method ExtractBlocks(
      cfg: ChunkingConfig, blocks: seq<Block>, tracker: HeadingPathTracker, source: TitleSource,
      page: Option<int>)
    returns (items: seq<RawItem>)
    requires cfg.maxChars > 0
    modifies tracker
    ensures items == BlocksItems(cfg, blocks, old(tracker.stack), source, page)
    ensures tracker.stack == BlocksStack(blocks, old(tracker.stack))
  {
    hide BlockItems, StackAfter, TitleAt;
    items := [];
    assert blocks[0..] == blocks;
    for i := 0 to |blocks|
      invariant items + BlocksItems(cfg, blocks[i..], tracker.stack, source, page)
             == BlocksItems(cfg, blocks, old(tracker.stack), source, page)
      invariant BlocksStack(blocks[i..], tracker.stack) == BlocksStack(blocks, old(tracker.stack))
    {
      assert blocks[i..][0] == blocks[i] && blocks[i..][1..] == blocks[i + 1..];
      var more := ExtractBlock(cfg, blocks[i], tracker, TitleAt(source, tracker.stack), page);
      items := items + more;
    }
  }

  function SourceTableItems(
      cfg: ChunkingConfig, t: SourceTable, stack: seq<Heading>, section: Option<Str>): (r: seq<RawItem>)
  {
    TableSlicer.TableItems(cfg, t.table, OriginAt(stack, t.page, section))
  }

  const TABLES_SECTION: Str :=
    [Letter('T'), Letter('a'), Letter('b'), Letter('l'), Letter('e'), Letter('s')]

  /** The section of a standalone table: its sheet name, or a fixed name. */
  function SheetSection(t: SourceTable): (r: Option<Str>)
  {
    OrElse(NonEmptyStr(t.sheet), Some(TABLES_SECTION))
  }

  function PageTablesItems(cfg: ChunkingConfig, tables: seq<SourceTable>, stack: seq<Heading>)
    : (r: seq<RawItem>)
  {
    if tables == [] then []
    else SourceTableItems(cfg, tables[0], stack, TitleAt(FromHeadings, stack)) +
         PageTablesItems(cfg, tables[1..], stack)
  }

  function StandaloneItems(cfg: ChunkingConfig, tables: seq<SourceTable>, stack: seq<Heading>)
    : (r: seq<RawItem>)
  {
    if tables == [] then []
    else SourceTableItems(cfg, tables[0], stack, SheetSection(tables[0])) +
         StandaloneItems(cfg, tables[1..], stack)
  }

  function SectionsItems(cfg: ChunkingConfig, sections: seq<Section>, stack: seq<Heading>)
    : (r: seq<RawItem>)
    requires cfg.maxChars > 0
    decreases |sections|
  {
    if sections == [] then []
    else
      var s := sections[0];
      var inside := Push(stack, Heading(s.level, s.title));
      BlocksItems(cfg, s.blocks, inside, Fixed(s.title), None) +
      SectionsItems(cfg, sections[1..], BlocksStack(s.blocks, inside))
  }

  function SectionsStack(sections: seq<Section>, stack: seq<Heading>): (r: seq<Heading>)
  {
    if sections == [] then stack
    else
      var s := sections[0];
      SectionsStack(sections[1..], BlocksStack(s.blocks, Push(stack, Heading(s.level, s.title))))
  }

  function PagesItems(cfg: ChunkingConfig, pages: seq<Page>, stack: seq<Heading>): (r: seq<RawItem>)
    requires cfg.maxChars > 0
    decreases |pages|
  {
    if pages == [] then []
    else
      var p := pages[0];
      var after := BlocksStack(p.blocks, stack);
      BlocksItems(cfg, p.blocks, stack, FromHeadings, Some(p.number)) +
      PageTablesItems(cfg, p.tables, after) +
      PagesItems(cfg, pages[1..], after)
  }

  function PagesStack(pages: seq<Page>, stack: seq<Heading>): (r: seq<Heading>)
  {
    if pages == [] then stack else PagesStack(pages[1..], BlocksStack(pages[0].blocks, stack))
  }

  method ExtractSections(cfg: ChunkingConfig, sections: seq<Section>, tracker: HeadingPathTracker)
    returns (items: seq<RawItem>)
    requires cfg.maxChars > 0
    modifies tracker
    ensures items == SectionsItems(cfg, sections, old(tracker.stack))
    ensures tracker.stack == SectionsStack(sections, old(tracker.stack))
  {
    hide BlocksItems, BlocksStack, Push;
    items := [];
    assert sections[0..] == sections;
    for i := 0 to |sections|
      invariant items + SectionsItems(cfg, sections[i..], tracker.stack)
             == SectionsItems(cfg, sections, old(tracker.stack))
      invariant SectionsStack(sections[i..], tracker.stack) == SectionsStack(sections, old(tracker.stack))
    {
      var s := sections[i];
      assert sections[i..][0] == s && sections[i..][1..] == sections[i + 1..];
      tracker.Update(s.level, s.title);
      var more := ExtractBlocks(cfg, s.blocks, tracker, Fixed(s.title), None);
      items := items + more;
    }
  }

  method ExtractTable(cfg: ChunkingConfig, t: SourceTable, stack: seq<Heading>, section: Option<Str>)
    returns (items: seq<RawItem>)
    ensures items == SourceTableItems(cfg, t, stack, section)
  {
    hide OriginAt;
    items := TableSlicer.ChunkTable(cfg, t.table, OriginAt(stack, t.page, section));
  }

  method ExtractPageTables(cfg: ChunkingConfig, tables: seq<SourceTable>, stack: seq<Heading>)
    returns (items: seq<RawItem>)
    ensures items == PageTablesItems(cfg, tables, stack)
  {
    hide SourceTableItems, TitleAt;
    items := [];
    assert tables[0..] == tables;
    for i := 0 to |tables|
      invariant items + PageTablesItems(cfg, tables[i..], stack) == PageTablesItems(cfg, tables, stack)
    {
      var t := tables[i];
      assert tables[i..][0] == t && tables[i..][1..] == tables[i + 1..];
      var more := ExtractTable(cfg, t, stack, TitleAt(FromHeadings, stack));
      items := items + more;
    }
  }

  method ExtractStandalone(cfg: ChunkingConfig, tables: seq<SourceTable>, stack: seq<Heading>)
    returns (items: seq<RawItem>)
    ensures items == StandaloneItems(cfg, tables, stack)
  {
    hide SourceTableItems, SheetSection;
    items := [];
    assert tables[0..] == tables;
    for i := 0 to |tables|
      invariant items + StandaloneItems(cfg, tables[i..], stack) == StandaloneItems(cfg, tables, stack)
    {
      var t := tables[i];
      assert tables[i..][0] == t && tables[i..][1..] == tables[i + 1..];
      var more := ExtractTable(cfg, t, stack, SheetSection(t));
      items := items + more;
    }
  }

  method ExtractPages(cfg: ChunkingConfig, pages: seq<Page>, tracker: HeadingPathTracker)
    returns (items: seq<RawItem>)
    requires cfg.maxChars > 0
    modifies tracker
    ensures items == PagesItems(cfg, pages, old(tracker.stack))
    ensures tracker.stack == PagesStack(pages, old(tracker.stack))
  {
    hide BlocksItems, BlocksStack, PageTablesItems;
    items := [];
    assert pages[0..] == pages;
    for i := 0 to |pages|
      invariant items + PagesItems(cfg, pages[i..], tracker.stack)
             == PagesItems(cfg, pages, old(tracker.stack))
      invariant PagesStack(pages[i..], tracker.stack) == PagesStack(pages, old(tracker.stack))
    {
      var p := pages[i];
      assert pages[i..][0] == p && pages[i..][1..] == pages[i + 1..];
      var blocks := ExtractBlocks(cfg, p.blocks, tracker, FromHeadings, Some(p.number));
      var tables := ExtractPageTables(cfg, p.tables, tracker.stack);
      items := items + (blocks + tables);
    }
  }

  // ---------------------------------------------------------------------- whole documents

  function StructureItems(cfg: ChunkingConfig, doc: Document): (r: seq<RawItem>)
    requires cfg.maxChars > 0
  {
    if doc.sections != [] then
      SectionsItems(cfg, doc.sections, []) +
      StandaloneItems(cfg, doc.tables, SectionsStack(doc.sections, []))
    else
      PagesItems(cfg, doc.pages, []) + StandaloneItems(cfg, doc.tables, PagesStack(doc.pages, []))
  }

  function TitleItems(title: Option<Str>): (r: seq<RawItem>)
  {
    if title.None? || Strip(title.value) == [] then []
    else
      var t := Strip(title.value);
      [NewItem(t, TEXT, Origin([t], Some(t), None, None))]
  }

  /** Everything extracted from a document; its title stands in when there is nothing else. */
  function RawItems(cfg: ChunkingConfig, doc: Document): (r: seq<RawItem>)
    requires cfg.maxChars > 0
  {
    if StructureItems(cfg, doc) == [] then TitleItems(doc.title) else StructureItems(cfg, doc)
  }

  /** The chunks of a document, before validation. */
  function DocumentChunks(cfg: ChunkingConfig, doc: Document, organization: int): (r: seq<Chunk>)
    requires cfg.maxChars > 0
  {
    HierarchyOf(cfg, Target(doc.id, organization), Firsts(Merged(cfg, RawItems(cfg, doc)), {}))
  }

  method ExtractAll(cfg: ChunkingConfig, doc: Document) returns (items: seq<RawItem>)
    requires cfg.maxChars > 0
    ensures items == RawItems(cfg, doc)
  {
    hide Strip, SectionsItems, PagesItems, StandaloneItems, NewItem;
    var tracker := new HeadingPathTracker();
    items := [];
    if doc.sections != [] {
      items := ExtractSections(cfg, doc.sections, tracker);
    } else if doc.pages != [] {
      items := ExtractPages(cfg, doc.pages, tracker);
    } else {
      NoPages(cfg, tracker.stack);
    }
    var tables := ExtractStandalone(cfg, doc.tables, tracker.stack);
    items := items + tables;
    if items == [] && doc.title.Some? {
      var title := Strip(doc.title.value);
      if title != [] {
        items := [NewItem(title, TEXT, Origin([title], Some(title), None, None))];
      }
    }
  }

  lemma NoPages(cfg: ChunkingConfig, stack: seq<Heading>)
    requires cfg.maxChars > 0
    ensures PagesItems(cfg, [], stack) == [] && PagesStack([], stack) == stack
  {
  }

  /** The chunks of a document, and the validator's verdict on them. */
  method ChunkDocument(cfg: ChunkingConfig, doc: Document, organization: int)
    returns (chunks: seq<Chunk>, verdict: Option<Rejection>)
    requires cfg.maxChars > 0
    ensures chunks == DocumentChunks(cfg, doc, organization)
    ensures verdict.None? <==> Acceptable(cfg, chunks, Some(doc.id), Some(organization))
  {
    hide RawItems, Merged, Firsts, HierarchyOf, Acceptable;
    var raw := ExtractAll(cfg, doc);
    var merged := MergeSmallChunks(cfg, raw);
    var deduped := DeduplicateRawItems(merged);
    chunks := BuildHierarchy(cfg, Target(doc.id, organization), deduped);
    verdict := ValidateChunks(cfg, chunks, Some(doc.id), Some(organization));
  }
}
