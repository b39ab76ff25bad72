/** Where the items of a document come from: the document is read once, front to back, and every
    item shows the headings open at that point. */
module ReadingOrder {
  import opened Wrappers
  import opened Text
  import opened Items
  import opened Headings
  import opened Hierarchy
  import opened Pipeline
  import TableSlicer
  import Lists
  import Blocks

  // ----------------------------------------------------------------------- reading order

  /** One thing met while reading: a section's heading, a block, or a table. */
  datatype Reading =
    | Enters(heading: Heading)
    | Reads(block: Block, page: Option<int>, section: Option<Str>)
    | ReadsTable(table: SourceTable, onPage: bool)

  function BlockReadings(blocks: seq<Block>, page: Option<int>, section: Option<Str>): (r: seq<Reading>)
    ensures |r| == |blocks|
    ensures forall i :: 0 <= i < |r| ==> r[i] == Reads(blocks[i], page, section)
  {
    if blocks == [] then [] else [Reads(blocks[0], page, section)] + BlockReadings(blocks[1..], page, section)
  }

  function TableReadings(tables: seq<SourceTable>, onPage: bool): (r: seq<Reading>)
    ensures |r| == |tables|
    ensures forall i :: 0 <= i < |r| ==> r[i] == ReadsTable(tables[i], onPage)
  {
    if tables == [] then [] else [ReadsTable(tables[0], onPage)] + TableReadings(tables[1..], onPage)
  }

  function SectionReadings(sections: seq<Section>): (r: seq<Reading>)
  {
    if sections == [] then []
    else
      [Enters(Heading(sections[0].level, sections[0].title))] +
      BlockReadings(sections[0].blocks, None, Some(sections[0].title)) + SectionReadings(sections[1..])
  }

  function PageReadings(pages: seq<Page>): (r: seq<Reading>)
  {
    if pages == [] then []
    else
      PageReading(pages[0]) + PageReadings(pages[1..])
  }

  /** The whole document in reading order: its sections or else its pages, then its own tables. */
  function Readings(doc: Document): (r: seq<Reading>)
  {
    (if doc.sections != [] then SectionReadings(doc.sections) else PageReadings(doc.pages)) +
    TableReadings(doc.tables, false)
  }

  /** The headings met, in order. */
  function HeadingsMet(readings: seq<Reading>): (r: seq<Heading>)
  {
    if readings == [] then []
    else
      (match readings[0]
       case Enters(h) => [h]
       case Reads(b, _, _) => if b.kind == HeadingBlock then [Heading(b.level, b.text)] else []
       case ReadsTable(_, _) => []) + HeadingsMet(readings[1..])
  }

  // -------------------------------------------------------------------------- flat items

  /** What one thing yields after the headings met before it. */
  function ItemsAt(cfg: ChunkingConfig, r: Reading, met: seq<Heading>): (items: seq<RawItem>)
    requires cfg.maxChars > 0
  {
    match r
    case Enters(_) => []
    case Reads(block, page, section) =>
      BlockItems(cfg, block, StackOf(met),
                 if section.Some? then section else TitleAt(FromHeadings, StackOf(met)), page)
    case ReadsTable(t, onPage) =>
      SourceTableItems(cfg, t, StackOf(met), if onPage then TitleAt(FromHeadings, StackOf(met)) else SheetSection(t))
  }

  function FlatItems(cfg: ChunkingConfig, readings: seq<Reading>, met: seq<Heading>): (items: seq<RawItem>)
    requires cfg.maxChars > 0
    decreases |readings|
  {
    if readings == [] then []
    else
      ItemsAt(cfg, readings[0], met) + FlatItems(cfg, readings[1..], met + HeadingsMet(readings[..1]))
  }

  lemma {:induction false} MetAppend(a: seq<Reading>, b: seq<Reading>)
    ensures HeadingsMet(a + b) == HeadingsMet(a) + HeadingsMet(b)
  {
    if a == [] {
      assert a + b == b;
    } else {
      assert (a + b)[1..] == a[1..] + b;
      MetAppend(a[1..], b);
    }
  }

  lemma {:induction false} FlatAppend(cfg: ChunkingConfig, a: seq<Reading>, b: seq<Reading>, met: seq<Heading>)
    requires cfg.maxChars > 0
    ensures FlatItems(cfg, a + b, met) == FlatItems(cfg, a, met) + FlatItems(cfg, b, met + HeadingsMet(a))
    decreases |a|
  {
    hide ItemsAt;
    if a == [] {
      assert a + b == b && met + HeadingsMet(a) == met;
    } else {
      assert (a + b)[1..] == a[1..] + b && (a + b)[..1] == a[..1] && a == a[..1] + a[1..];
      MetAppend(a[..1], a[1..]);
      var next := met + HeadingsMet(a[..1]);
      FlatAppend(cfg, a[1..], b, next);
      assert next + HeadingsMet(a[1..]) == met + HeadingsMet(a);
    }
  }

  lemma {:induction false} StackSnoc(met: seq<Heading>, h: Heading)
    ensures StackOf(met + [h]) == Push(StackOf(met), h)
  {
    assert (met + [h])[..|met|] == met;
  }

  lemma {:induction false} NoneMet(met: seq<Heading>)
    ensures met + HeadingsMet([]) == met
  {
  }

  lemma {:induction false} OneMet(r: Reading)
    ensures HeadingsMet([r]) ==
      match r
      case Enters(h) => [h]
      case Reads(b, _, _) => if b.kind == HeadingBlock then [Heading(b.level, b.text)] else []
      case ReadsTable(_, _) => []
  {
    assert [r][1..] == [];
  }

  /** A heading block moves the stack as a heading of its level and text would. */
  lemma {:induction false} BlockMoves(block: Block, met: seq<Heading>, page: Option<int>, section: Option<Str>)
    ensures StackOf(met + HeadingsMet([Reads(block, page, section)])) == StackAfter(block, StackOf(met))
  {
    hide Strip, StackOf;
    OneMet(Reads(block, page, section));
    if block.kind == HeadingBlock {
      StackSnoc(met, Heading(block.level, block.text));
      var _, _ := StripSplits(block.text);
      StripId(Strip(block.text));
    } else {
      assert met + [] == met;
    }
  }

  lemma {:induction false} BlocksFlat(
      cfg: ChunkingConfig, blocks: seq<Block>, met: seq<Heading>, source: TitleSource, page: Option<int>)
    requires cfg.maxChars > 0
    ensures var section := if source.Fixed? then Some(source.title) else None;
      var readings := BlockReadings(blocks, page, section);
      FlatItems(cfg, readings, met) == BlocksItems(cfg, blocks, StackOf(met), source, page) &&
      StackOf(met + HeadingsMet(readings)) == BlocksStack(blocks, StackOf(met))
    decreases |blocks|
  {
    hide BlockItems, StackAfter, StackOf, HeadingsMet;
    var section := if source.Fixed? then Some(source.title) else None;
    var readings := BlockReadings(blocks, page, section);
    if blocks == [] {
      NoneMet(met);
    } else {
      var rest := BlockReadings(blocks[1..], page, section);
      assert readings[1..] == rest && readings[..1] == [readings[0]] && readings == readings[..1] + rest;
      var next := met + HeadingsMet(readings[..1]);
      BlockMoves(blocks[0], met, page, section);
      BlocksFlat(cfg, blocks[1..], next, source, page);
      MetAppend(readings[..1], rest);
      assert next + HeadingsMet(rest) == met + HeadingsMet(readings);
    }
  }

  lemma {:induction false} TablesFlat(
      cfg: ChunkingConfig, tables: seq<SourceTable>, onPage: bool, met: seq<Heading>)
    requires cfg.maxChars > 0
    ensures var readings := TableReadings(tables, onPage);
      HeadingsMet(readings) == [] &&
      FlatItems(cfg, readings, met) ==
        if onPage then PageTablesItems(cfg, tables, StackOf(met)) else StandaloneItems(cfg, tables, StackOf(met))
    decreases |tables|
  {
    hide SourceTableItems, StackOf, TitleAt, SheetSection;
    if tables != [] {
      var readings := TableReadings(tables, onPage);
      assert readings[1..] == TableReadings(tables[1..], onPage) && readings[..1] == [readings[0]];
      OneMet(readings[0]);
      TablesFlat(cfg, tables[1..], onPage, met);
      assert met + [] == met;
    }
  }

  lemma {:induction false} SectionsFlat(cfg: ChunkingConfig, sections: seq<Section>, met: seq<Heading>)
    requires cfg.maxChars > 0
    ensures var readings := SectionReadings(sections);
      FlatItems(cfg, readings, met) == SectionsItems(cfg, sections, StackOf(met)) &&
      StackOf(met + HeadingsMet(readings)) == SectionsStack(sections, StackOf(met))
    decreases |sections|
  {
    hide BlocksItems, BlocksStack, StackOf, Push, HeadingsMet, FlatItems;
    if sections == [] {
      NoneMet(met);
      NothingFlat(cfg, met);
    } else {
      var s := sections[0];
      var h := Heading(s.level, s.title);
      var own := BlockReadings(s.blocks, None, Some(s.title));
      var rest := SectionReadings(sections[1..]);
      var inside := met + [h];
      var later := inside + HeadingsMet(own);
      StackSnoc(met, h);
      BlocksFlat(cfg, s.blocks, inside, Fixed(s.title), None);
      SectionsFlat(cfg, sections[1..], later);
      OneMet(Enters(h));
      EnteringYieldsNothing(cfg, h, met);
      FlatAppend(cfg, [Enters(h)] + own, rest, met);
      FlatAppend(cfg, [Enters(h)], own, met);
      MetAppend([Enters(h)] + own, rest);
      MetAppend([Enters(h)], own);
      assert met + HeadingsMet([Enters(h)] + own) == later;
      assert met + HeadingsMet(SectionReadings(sections)) == later + HeadingsMet(rest);
    }
  }

  lemma {:induction false} NothingFlat(cfg: ChunkingConfig, met: seq<Heading>)
    requires cfg.maxChars > 0
    ensures FlatItems(cfg, [], met) == []
  {
  }

  lemma {:induction false} EnteringYieldsNothing(cfg: ChunkingConfig, h: Heading, met: seq<Heading>)
    requires cfg.maxChars > 0
    ensures FlatItems(cfg, [Enters(h)], met) == []
  {
    assert [Enters(h)][1..] == [];
  }

  function PageReading(p: Page): (r: seq<Reading>)
  {
    BlockReadings(p.blocks, Some(p.number), None) + TableReadings(p.tables, true)
  }

  lemma {:induction false} PageFlat(cfg: ChunkingConfig, p: Page, met: seq<Heading>)
    requires cfg.maxChars > 0
    ensures var after := BlocksStack(p.blocks, StackOf(met));
      FlatItems(cfg, PageReading(p), met) ==
        BlocksItems(cfg, p.blocks, StackOf(met), FromHeadings, Some(p.number)) +
        PageTablesItems(cfg, p.tables, after) &&
      StackOf(met + HeadingsMet(PageReading(p))) == after
  {
    hide BlocksItems, BlocksStack, PageTablesItems, StackOf, HeadingsMet, FlatItems;
    var blocks, tables := BlockReadings(p.blocks, Some(p.number), None), TableReadings(p.tables, true);
    BlocksFlat(cfg, p.blocks, met, FromHeadings, Some(p.number));
    TablesFlat(cfg, p.tables, true, met + HeadingsMet(blocks));
    FlatAppend(cfg, blocks, tables, met);
    MetAppend(blocks, tables);
    assert HeadingsMet(blocks) + [] == HeadingsMet(blocks);
  }

  lemma {:induction false} PagesFlat(cfg: ChunkingConfig, pages: seq<Page>, met: seq<Heading>)
    requires cfg.maxChars > 0
    ensures var readings := PageReadings(pages);
      FlatItems(cfg, readings, met) == PagesItems(cfg, pages, StackOf(met)) &&
      StackOf(met + HeadingsMet(readings)) == PagesStack(pages, StackOf(met))
    decreases |pages|
  {
    hide BlocksItems, BlocksStack, PageTablesItems, StackOf, HeadingsMet, FlatItems;
    if pages == [] {
      NoneMet(met);
      NothingFlat(cfg, met);
    } else {
      hide PageReading;
      var p, rest := pages[0], PageReadings(pages[1..]);
      var after := met + HeadingsMet(PageReading(p));
      PageFlat(cfg, p, met);
      PagesFlat(cfg, pages[1..], after);
      FlatAppend(cfg, PageReading(p), rest, met);
      MetAppend(PageReading(p), rest);
      assert met + HeadingsMet(PageReadings(pages)) == after + HeadingsMet(rest);
    }
  }

  /** Extraction with its threaded heading stack is reading the document once: each thing yields its
      items after exactly the headings met before it. */
  lemma {:induction false} ExtractionIsReading(cfg: ChunkingConfig, doc: Document)
    requires cfg.maxChars > 0
    ensures StructureItems(cfg, doc) == FlatItems(cfg, Readings(doc), [])
  {
    hide SectionsItems, SectionsStack, PagesItems, PagesStack, StandaloneItems, FlatItems, HeadingsMet, StackOf;
    NoStack();
    var met: seq<Heading> := [];
    var main := if doc.sections != [] then SectionReadings(doc.sections) else PageReadings(doc.pages);
    if doc.sections != [] {
      SectionsFlat(cfg, doc.sections, met);
    } else {
      PagesFlat(cfg, doc.pages, met);
    }
    FlatAppend(cfg, main, TableReadings(doc.tables, false), met);
    TablesFlat(cfg, doc.tables, false, met + HeadingsMet(main));
  }

  lemma {:induction false} NoStack()
    ensures StackOf([]) == []
  {
  }

  // ------------------------------------------------------------------------------ places

  /** The headings that count: those with a title, stripped, at level one or deeper. */
  function Counted(met: seq<Heading>): (r: seq<Heading>)
  {
    if met == [] then []
    else
      (if IsBlank(met[0].title) then []
       else [Heading(if met[0].level < 1 then 1 else met[0].level, Strip(met[0].title))]) + Counted(met[1..])
  }

  lemma {:induction false} CountedIsRecorded(met: seq<Heading>)
    ensures Counted(met) == AllRecorded(met)
  {
    hide Strip, IsBlank;
    if met != [] {
      var _, _ := StripSplits(met[0].title);
      CountedIsRecorded(met[1..]);
    }
  }

  /** The titles of the headings that are open after those met: of the ones that count, those that no
      later one at the same or a smaller level has closed. */
  function OpenTitles(met: seq<Heading>): (r: seq<Str>) { TitlesOf(StillOpen(Counted(met))) }

  function TitlesOf(hs: seq<Heading>): (r: seq<Str>)
    ensures |r| == |hs| && forall i :: 0 <= i < |r| ==> r[i] == hs[i].title
  {
    seq(|hs|, i requires 0 <= i < |hs| => hs[i].title)
  }

  const ARROW: Str := [Space(' '), Symbol('>'), Space(' ')]

  /** The item shows the headings open after `met`, as a path and joined by arrows, and this page and
      section. */
  predicate StandsAt(x: RawItem, met: seq<Heading>, page: Option<int>, section: Option<Str>)
  {
    x.origin.headingPath == OpenTitles(met) && x.origin.headingContext == Some(Join(ARROW, OpenTitles(met))) &&
    x.origin.page == page && x.origin.section == section
  }

  lemma {:induction false} OriginStands(met: seq<Heading>)
    ensures Titles(StackOf(met)) == OpenTitles(met) && Context(StackOf(met)) == Join(ARROW, OpenTitles(met))
  {
    hide StillOpen, Join;
    StackRefinesHistory(met);
    CountedIsRecorded(met);
    assert Titles(StackOf(met)) == OpenTitles(met);
  }

  /** The joined path, if it is not empty. */
  function ShownPath(met: seq<Heading>): (r: Option<Str>)
  {
    if Join(ARROW, OpenTitles(met)) == [] then None else Some(Join(ARROW, OpenTitles(met)))
  }

  /** The section an item of a block is filed under: a heading outside sections under its own title if
      no heading is open around it; everything else under the section, or else the open headings. */
  function FiledUnder(r: Reading, met: seq<Heading>): (s: Option<Str>)
    requires r.Reads?
  {
    var around := if r.section.Some? then r.section else ShownPath(met);
    if r.block.kind == HeadingBlock && (around.None? || around.value == []) then Some(Strip(r.block.text)) else around
  }

  /** What each thing read yields stands where it was read.  A heading is already open for itself. */
  lemma {:induction false} ItemsStand(cfg: ChunkingConfig, r: Reading, met: seq<Heading>, x: RawItem)
    requires cfg.maxChars > 0 && x in ItemsAt(cfg, r, met)
    ensures match r
      case Enters(_) => false
      case Reads(block, page, _) =>
        StandsAt(x, if block.kind == HeadingBlock then met + [Heading(block.level, block.text)] else met,
                 page, FiledUnder(r, met)) &&
        x.kind == (match block.kind
                   case HeadingBlock => HEADING
                   case ListBlock => LIST
                   case ParagraphBlock => PARAGRAPH
                   case _ => TEXT)
      case ReadsTable(t, onPage) =>
        x.kind == TABLE &&
        StandsAt(x, met, t.page,
                 if onPage then ShownPath(met)
                 else if t.sheet.Some? && t.sheet.value != [] then t.sheet
                 else Some([Letter('T'), Letter('a'), Letter('b'), Letter('l'), Letter('e'), Letter('s')]))
  {
    hide Strip, StackOf, Lists.ListPieces, Blocks.BlockPieces, TableSlicer.TableItems, OpenTitles, Titles, Context,
         Join, Push;
    OriginStands(met);
    match r
    case Enters(_) =>
    case Reads(block, page, section) =>
      if block.kind == HeadingBlock {
        OriginStands(met + [Heading(block.level, block.text)]);
        BlockMoves(block, met, page, section);
        OneMet(r);
      }
    case ReadsTable(t, onPage) =>
      TableSlicer.SlicesTile(cfg, t.table, OriginAt(StackOf(met), t.page,
        if onPage then TitleAt(FromHeadings, StackOf(met)) else SheetSection(t)));
  }

  /** Every item of a document was yielded by one of the things read, after exactly the headings met
      before it. */
  lemma {:induction false} FlatOwner(cfg: ChunkingConfig, readings: seq<Reading>, met: seq<Heading>, x: RawItem)
    returns (k: nat)
    requires cfg.maxChars > 0 && x in FlatItems(cfg, readings, met)
    ensures k < |readings| && x in ItemsAt(cfg, readings[k], met + HeadingsMet(readings[..k]))
    decreases |readings|
  {
    hide ItemsAt;
    if x in ItemsAt(cfg, readings[0], met) {
      k := 0;
      NoneMet(met);
      assert readings[..0] == [];
    } else {
      var next := met + HeadingsMet(readings[..1]);
      var j := FlatOwner(cfg, readings[1..], next, x);
      k := j + 1;
      MetAppend(readings[..1], readings[1..][..j]);
      assert readings[..k] == readings[..1] + readings[1..][..j];
      assert next + HeadingsMet(readings[1..][..j]) == met + HeadingsMet(readings[..k]);
    }
  }

  lemma {:induction false} EveryItemWasRead(cfg: ChunkingConfig, doc: Document, x: RawItem) returns (k: nat)
    requires cfg.maxChars > 0 && x in StructureItems(cfg, doc)
    ensures k < |Readings(doc)| && x in ItemsAt(cfg, Readings(doc)[k], HeadingsMet(Readings(doc)[..k]))
  {
    hide StructureItems, FlatItems, ItemsAt, HeadingsMet, Readings;
    ExtractionIsReading(cfg, doc);
    k := FlatOwner(cfg, Readings(doc), [], x);
    assert [] + HeadingsMet(Readings(doc)[..k]) == HeadingsMet(Readings(doc)[..k]);
  }

  /** Where nothing else yields an item, the stripped title does, under itself. */
  lemma {:induction false} TitleStands(cfg: ChunkingConfig, doc: Document)
    requires cfg.maxChars > 0 && StructureItems(cfg, doc) == []
    ensures
      if doc.title.None? || IsBlank(doc.title.value) then RawItems(cfg, doc) == []
      else
        var t := Strip(doc.title.value);
        RawItems(cfg, doc) == [RawItem(t, TEXT, Origin([t], Some(t), None, None), None)]
  {
    hide StructureItems, Strip, IsBlank;
    if doc.title.Some? {
      var _, _ := StripSplits(doc.title.value);
      StripId(Strip(doc.title.value));
    }
  }
}
