/** Slicing a table by rows, and why no other slicing is shorter. */
module TableSlicer {
  import opened Wrappers
  import opened Text
  import opened Lexer
  import opened Tokenizer
  import opened Splitting
  import opened Items
  import opened Packing
  import opened Tables

  predicate FitsRows(cfg: ChunkingConfig, headers: Row, rows: seq<Row>)
  {
    Count(Render(headers, rows)) <= cfg.targetTokens &&
    |Render(headers, rows)| <= cfg.maxChars &&
    |rows| <= cfg.maxTableRows
  }

  function Fits(cfg: ChunkingConfig, headers: Row): seq<Row> -> bool
  {
    rows => FitsRows(cfg, headers, rows)
  }

  /** The row blocks of a table's slices. */
  function Blocks(cfg: ChunkingConfig, table: Table): (blocks: seq<seq<Row>>)
  {
    if table.headers == [] && table.rows == [] then []
    else if FitsRows(cfg, table.headers, table.rows) then [table.rows]
    else Greedy([], table.rows, Fits(cfg, table.headers))
  }

  function Slice(headers: Row, rows: seq<Row>, start: nat, origin: Origin): (r: RawItem)
  {
    RawItem(Strip(Render(headers, rows)), TABLE, origin, Some((start, start + |rows|)))
  }

  /** The slices carrying consecutive row blocks, the first of which starts at row `start`. */
  function SliceItems(headers: Row, blocks: seq<seq<Row>>, start: nat, origin: Origin): (r: seq<RawItem>)
    ensures |r| == |blocks|
  {
    if blocks == [] then []
    else [Slice(headers, blocks[0], start, origin)] +
         SliceItems(headers, blocks[1..], start + |blocks[0]|, origin)
  }

  function TableItems(cfg: ChunkingConfig, table: Table, origin: Origin): (r: seq<RawItem>)
  {
    SliceItems(table.headers, Blocks(cfg, table), 0, origin)
  }

  lemma SliceItemsCons(headers: Row, block: seq<Row>, blocks: seq<seq<Row>>, start: nat, origin: Origin)
    ensures SliceItems(headers, [block] + blocks, start, origin) ==
            [Slice(headers, block, start, origin)] +
            SliceItems(headers, blocks, start + |block|, origin)
  {
    hide Slice;
    assert ([block] + blocks)[1..] == blocks;
  }

  lemma SliceItemsNone(headers: Row, start: nat, origin: Origin)
    ensures SliceItems(headers, [], start, origin) == []
  {
  }

  method ChunkTable(cfg: ChunkingConfig, table: Table, origin: Origin) returns (chunks: seq<RawItem>)
    ensures chunks == TableItems(cfg, table, origin)
  {
    hide Render, Strip, Count, Greedy, SliceItems;
    var headers, rows := table.headers, table.rows;
    if headers == [] && rows == [] {
      SliceItemsNone(headers, 0, origin);
      return [];
    }
    var full := RenderMarkdown(headers, rows);
    var fullTokens := CountTokens(full);
    if fullTokens <= cfg.targetTokens && |full| <= cfg.maxChars && |rows| <= cfg.maxTableRows {
      SliceItemsCons(headers, rows, [], 0, origin);
      assert [rows] + [] == [rows];
      SliceItemsNone(headers, |rows|, origin);
      return [RawItem(Strip(full), TABLE, origin, Some((0, |rows|)))];
    }
    chunks := [];
    var current: seq<Row> := [];
    var start := 0;
    ghost var fits := Fits(cfg, headers);
    assert rows[0..] == rows;
    for r := 0 to |rows|
      invariant start + |current| == r && (r > 0 ==> current != [])
      invariant chunks + SliceItems(headers, Greedy(current, rows[r..], fits), start, origin)
             == TableItems(cfg, table, origin)
    {
      var test := RenderMarkdown(headers, current + [rows[r]]);
      var testTokens := CountTokens(test);
      GreedyStep(current, rows, r, fits);
      if current != [] &&
         (testTokens > cfg.targetTokens || |test| > cfg.maxChars || |current| >= cfg.maxTableRows) {
        var md := RenderMarkdown(headers, current);
        SliceItemsCons(headers, current, Greedy([rows[r]], rows[r + 1..], fits), start, origin);
        chunks := chunks + [RawItem(Strip(md), TABLE, origin, Some((start, r)))];
        current := [rows[r]];
        start := r;
      } else {
        current := current + [rows[r]];
      }
    }
    assert rows[|rows|..] == [];
    GreedyEnd(current, fits);
    SliceItemsNone(headers, |rows|, origin);
    if current != [] {
      var md := RenderMarkdown(headers, current);
      SliceItemsCons(headers, current, [], start, origin);
      assert [current] + [] == [current];
      chunks := chunks + [RawItem(Strip(md), TABLE, origin, Some((start, |rows|)))];
    }
  }

  // ------------------------------------------------------------------ sizes of renderings

  lemma SymbolContent(ch: Ch, s: Str)
    requires ch.Symbol?
    ensures Content([ch] + s) == [[ch]] + Content(s)
    ensures Count([ch] + s) == 1 + Count(s)
  {
    assert ([ch] + s)[..1] == [ch] && ([ch] + s)[1..] == s;
    assert ([[ch]] + Content(s))[1..] == Content(s);
  }

  lemma {:induction false} JoinCells(cells: Row)
    requires cells != []
    ensures Count(Join(CELL_SEP, cells)) == TotalCount(cells) + |cells| - 1
  {
    if |cells| > 1 {
      var rest := Join(CELL_SEP, cells[1..]);
      JoinCells(cells[1..]);
      assert Join(CELL_SEP, cells) == cells[0] + [BLANK] + ([BAR] + ([BLANK] + rest));
      ContentAround(cells[0], [BLANK], [BAR] + ([BLANK] + rest));
      SymbolContent(BAR, [BLANK] + rest);
      ContentSkipBlank([BLANK], rest);
    }
  }

  lemma LineSize(cells: Row)
    ensures Count(Line(cells)) == if cells == [] then 2 else TotalCount(cells) + |cells| + 1
    ensures |Line(cells)| == if cells == [] then 4 else SumLen(cells) + 3 * |cells| + 1
  {
    hide Join, Count, TotalCount, SumLen;
    LineAround(cells);
    if cells == [] {
      NoCells();
    } else {
      JoinCells(cells);
      JoinLength(CELL_SEP, cells);
    }
  }

  lemma {:induction false} NoCells()
    ensures Join(CELL_SEP, []) == [] && Count([]) == 0
  {
  }

  lemma {:induction false} LineAround(cells: Row)
    ensures Count(Line(cells)) == Count(Join(CELL_SEP, cells)) + 2
    ensures |Line(cells)| == |Join(CELL_SEP, cells)| + 4
  {
    hide Join;
    var body := Join(CELL_SEP, cells);
    assert Line(cells) == [BAR] + ([BLANK] + (body + [BLANK] + [BAR]));
    SymbolContent(BAR, [BLANK] + (body + [BLANK] + [BAR]));
    ContentSkipBlank([BLANK], body + [BLANK] + [BAR]);
    ContentAround(body, [BLANK], [BAR]);
    SymbolContent(BAR, []);
    assert [BAR] + [] == [BAR];
  }

  /** Fewer columns never print larger. */
  lemma LineMonotone(few: Row, many: Row)
    requires few <= many
    ensures Count(Line(few)) <= Count(Line(many)) && |Line(few)| <= |Line(many)|
  {
    LineSize(few);
    LineSize(many);
    TotalsPart(many, 0, |few|);
    assert many[0..|few|] == few;
  }

  lemma RenderSize(headers: Row, rows: seq<Row>)
    requires headers != [] || rows != []
    ensures var w := Width(headers, rows);
      Count(Render(headers, rows)) ==
        TotalCount(HeadLines(headers, w)) + TotalCount(RowLines(rows, w)) &&
      |Render(headers, rows)| ==
        SumLen(HeadLines(headers, w)) + SumLen(RowLines(rows, w)) + |rows| + 1
  {
    var w := Width(headers, rows);
    var head, body := HeadLines(headers, w), RowLines(rows, w);
    CountJoin([NEWLINE], head + body);
    JoinLength([NEWLINE], head + body);
    TotalsAppend(head, body);
  }

  lemma {:induction false} RowLinesMonotone(rows: seq<Row>, few: nat, many: nat)
    requires few <= many
    ensures TotalCount(RowLines(rows, few)) <= TotalCount(RowLines(rows, many))
    ensures SumLen(RowLines(rows, few)) <= SumLen(RowLines(rows, many))
  {
    if rows != [] {
      RowLinesMonotone(rows[1..], few, many);
      assert RowCells(rows[0], few) <= RowCells(rows[0], many);
      LineMonotone(RowCells(rows[0], few), RowCells(rows[0], many));
    }
  }

  lemma HeaderCellsPrefix(headers: Row, few: nat, many: nat)
    requires if headers == [] then few <= many else few == many == |headers|
    ensures HeaderCells(headers, few) <= HeaderCells(headers, many)
  {
    hide Cell, Decimal;
  }

  lemma TotalsOfOne(a: Str)
    ensures TotalCount([a]) == Count(a) && SumLen([a]) == |a|
  {
    hide Count;
  }

  lemma TotalsOfTwo(a: Str, b: Str)
    ensures TotalCount([a, b]) == Count(a) + Count(b) && SumLen([a, b]) == |a| + |b|
  {
    hide Count;
    TotalsAppend([a], [b]);
    TotalsOfOne(a);
    TotalsOfOne(b);
    assert [a, b] == [a] + [b];
  }

  lemma HeadLinesMonotone(headers: Row, few: nat, many: nat)
    requires if headers == [] then few <= many else few == many == |headers|
    ensures TotalCount(HeadLines(headers, few)) <= TotalCount(HeadLines(headers, many))
    ensures SumLen(HeadLines(headers, few)) <= SumLen(HeadLines(headers, many))
  {
    hide Line, Count, HeaderCells;
    var a, b := HeaderCells(headers, few), HeaderCells(headers, many);
    var c, d := seq(few, _ => DASHES), seq(many, _ => DASHES);
    HeaderCellsPrefix(headers, few, many);
    assert c <= d;
    LineMonotone(a, b);
    LineMonotone(c, d);
    TotalsOfTwo(Line(a), Line(c));
    TotalsOfTwo(Line(b), Line(d));
  }

  lemma WidthMonotone(headers: Row, rows: seq<Row>, i: nat, j: nat)
    requires i < j <= |rows|
    ensures Width(headers, rows[i..j]) <= Width(headers, rows)
  {
    var k :| 0 <= k < |rows[i..j]| && |rows[i..j][k]| == MaxWidth(rows[i..j]);
    assert rows[i..j][k] == rows[i + k];
  }

  lemma RowLinesPart(rows: seq<Row>, width: nat, i: nat, j: nat)
    requires i <= j <= |rows|
    ensures RowLines(rows[i..j], width) == RowLines(rows, width)[i..j]
  {
    hide Line, RowCells;
  }

  /** Rendering part of a table's rows is never larger than rendering all of them, even when
      missing headers make the column count depend on the rows at hand. */
  lemma RenderMonotone(headers: Row, rows: seq<Row>, i: nat, j: nat)
    requires i < j <= |rows|
    ensures Count(Render(headers, rows[i..j])) <= Count(Render(headers, rows))
    ensures |Render(headers, rows[i..j])| <= |Render(headers, rows)|
  {
    hide Render, HeadLines, RowLines, Count, TotalCount, SumLen;
    var few, many := Width(headers, rows[i..j]), Width(headers, rows);
    WidthMonotone(headers, rows, i, j);
    RenderSize(headers, rows[i..j]);
    RenderSize(headers, rows);
    HeadLinesMonotone(headers, few, many);
    RowLinesMonotone(rows, few, many);
    RowLinesPart(rows, few, i, j);
    TotalsPart(RowLines(rows, few), i, j);
  }

  lemma FitsHereditary(cfg: ChunkingConfig, headers: Row)
    ensures Hereditary(Fits(cfg, headers))
  {
    hide Render, Count;
    var fits := Fits(cfg, headers);
    forall b: seq<Row>, i, j | 0 <= i < j <= |b| && fits(b)
      ensures fits(b[i..j])
    {
      RenderMonotone(headers, b, i, j);
    }
  }

  /** A table is cut into the fewest slices possible: no order-preserving split of its rows
      into single rows and blocks within the token, character and row limits has fewer. */
  lemma SlicingIsOptimal(cfg: ChunkingConfig, table: Table, origin: Origin, rival: seq<seq<Row>>)
    requires table.rows != []
    requires Partition(rival, table.rows, Fits(cfg, table.headers))
    ensures |TableItems(cfg, table, origin)| <= |rival|
  {
    FitsHereditary(cfg, table.headers);
    GreedyIsOptimal(table.rows, rival, Fits(cfg, table.headers));
  }

  // --------------------------------------------------------------------- what slices carry

  /** Consecutive slices cover consecutive row ranges from `start`; each shows the headers
      over exactly the rows of its range, which are a single row or within the limits. */
  ghost predicate Tiles(cfg: ChunkingConfig, items: seq<RawItem>, headers: Row, rows: seq<Row>, start: nat)
    decreases |items|
  {
    if items == [] then start == |rows|
    else
      items[0].rows.Some? &&
      var (lo, hi) := items[0].rows.value;
      lo == start < hi <= |rows| &&
      items[0].content == Strip(Render(headers, rows[lo..hi])) &&
      (hi == lo + 1 || FitsRows(cfg, headers, rows[lo..hi])) &&
      Tiles(cfg, items[1..], headers, rows, hi)
  }

  lemma {:induction false} SliceItemsTile(
      cfg: ChunkingConfig, headers: Row, blocks: seq<seq<Row>>, rows: seq<Row>, start: nat, origin: Origin)
    requires start <= |rows| && Partition(blocks, rows[start..], Fits(cfg, headers))
    ensures Tiles(cfg, SliceItems(headers, blocks, start, origin), headers, rows, start)
  {
    hide Render, Strip, Count;
    if blocks != [] {
      assert Admissible(blocks[0], Fits(cfg, headers));
      var hi := start + |blocks[0]|;
      assert rows[start..] == blocks[0] + Flatten(blocks[1..]);
      assert rows[start..hi] == rows[start..][..|blocks[0]|] == blocks[0];
      assert rows[hi..] == rows[start..][|blocks[0]|..] == Flatten(blocks[1..]);
      SliceItemsTile(cfg, headers, blocks[1..], rows, hi, origin);
      var items := SliceItems(headers, blocks, start, origin);
      assert items[1..] == SliceItems(headers, blocks[1..], hi, origin);
    }
  }

  /** The slices of a table without rows: its headers alone, if they are within the limits. */
  function HeaderSlice(cfg: ChunkingConfig, headers: Row, origin: Origin): (r: seq<RawItem>)
  {
    if headers == [] || !FitsRows(cfg, headers, []) then [] else [Slice(headers, [], 0, origin)]
  }

  /** The slices tile the table: row ranges are consecutive, non-empty and cover every row.  A
      table without rows is one slice of its headers, or none. */
  lemma {:induction false} SlicesTile(cfg: ChunkingConfig, table: Table, origin: Origin)
    ensures
      if table.rows != [] then Tiles(cfg, TableItems(cfg, table, origin), table.headers, table.rows, 0)
      else TableItems(cfg, table, origin) == HeaderSlice(cfg, table.headers, origin)
    ensures forall s :: s in TableItems(cfg, table, origin) ==>
              s.kind == TABLE && s.origin == origin
  {
    hide FitsRows, Slice, Greedy;
    var rows := table.rows;
    SliceItemsKind(table.headers, Blocks(cfg, table), 0, origin);
    if rows == [] {
      GreedyEnd([], Fits(cfg, table.headers));
      SliceItemsCons(table.headers, [], [], 0, origin);
      SliceItemsNone(table.headers, 0, origin);
      assert [[]] + [] == [rows];
    } else {
      if FitsRows(cfg, table.headers, rows) {
        assert Flatten([rows]) == rows + Flatten([]);
      } else {
        GreedyIsPartition([], rows, Fits(cfg, table.headers));
        assert [] + rows == rows;
      }
      SliceItemsTile(cfg, table.headers, Blocks(cfg, table), rows, 0, origin);
    }
  }

  /** A table yields nothing if and only if it has no rows and either no headers or headers that
      alone are over the limits: an oversized header row without rows is lost. */
  lemma {:induction false} NoSlicesExactly(cfg: ChunkingConfig, table: Table, origin: Origin)
    ensures TableItems(cfg, table, origin) == [] <==>
            table.rows == [] && (table.headers == [] || !FitsRows(cfg, table.headers, []))
  {
    hide FitsRows, Greedy;
    GreedyEnd([], Fits(cfg, table.headers));
    if table.rows != [] {
      GreedyIsPartition([], table.rows, Fits(cfg, table.headers));
      assert [] + table.rows == table.rows;
    }
  }

  /** A table is cut into slices within a token limit, the code's own or more, if and only if
      every row is under the headers on its own. */
  lemma {:induction false} SlicesWithinExactly(cfg: ChunkingConfig, table: Table, origin: Origin, limit: nat)
    requires cfg.targetTokens <= limit
    ensures (forall s :: s in TableItems(cfg, table, origin) ==> Count(s.content) <= limit) <==>
            forall i :: 0 <= i < |table.rows| ==> Count(Render(table.headers, [table.rows[i]])) <= limit
  {
    hide TableItems, Render, Count, Tiles;
    if table.rows == [] {
      HeaderSliceWithin(cfg, table, origin);
    } else {
      SlicesTile(cfg, table, origin);
      TilesWithin(cfg, TableItems(cfg, table, origin), table.headers, table.rows, 0, limit);
    }
  }

  lemma {:induction false} HeaderSliceWithin(cfg: ChunkingConfig, table: Table, origin: Origin)
    requires table.rows == []
    ensures forall s :: s in TableItems(cfg, table, origin) ==> Count(s.content) <= cfg.targetTokens
  {
    hide Render, Strip, Content, SumCost;
    if table.headers != [] && FitsRows(cfg, table.headers, []) {
      SliceItemsCons(table.headers, [], [], 0, origin);
      SliceItemsNone(table.headers, 0, origin);
      assert [[]] + [] == [table.rows];
      assert TableItems(cfg, table, origin) == [Slice(table.headers, [], 0, origin)];
      ContentStrip(Render(table.headers, []));
    } else {
      GreedyEnd([], Fits(cfg, table.headers));
    }
  }

  lemma {:induction false} TilesWithin(
      cfg: ChunkingConfig, items: seq<RawItem>, headers: Row, rows: seq<Row>, start: nat, limit: nat)
    requires start <= |rows| && Tiles(cfg, items, headers, rows, start) && cfg.targetTokens <= limit
    ensures (forall s :: s in items ==> Count(s.content) <= limit) <==>
            forall i :: start <= i < |rows| ==> Count(Render(headers, [rows[i]])) <= limit
    decreases |items|
  {
    hide Render, Strip, Content, SumCost;
    if items != [] {
      var (lo, hi) := items[0].rows.value;
      TilesWithin(cfg, items[1..], headers, rows, hi, limit);
      ContentStrip(Render(headers, rows[lo..hi]));
      RowsInSlice(cfg, headers, rows, lo, hi, limit);
      assert items == [items[0]] + items[1..];
    }
  }

  lemma {:induction false} RowsInSlice(
      cfg: ChunkingConfig, headers: Row, rows: seq<Row>, lo: nat, hi: nat, limit: nat)
    requires lo < hi <= |rows| && cfg.targetTokens <= limit
    requires hi == lo + 1 || FitsRows(cfg, headers, rows[lo..hi])
    ensures Count(Render(headers, rows[lo..hi])) <= limit <==>
            forall i :: lo <= i < hi ==> Count(Render(headers, [rows[i]])) <= limit
  {
    hide Render, Count;
    if hi == lo + 1 {
      assert rows[lo..hi] == [rows[lo]];
    } else {
      var part := rows[lo..hi];
      forall i | lo <= i < hi ensures Count(Render(headers, [rows[i]])) <= limit {
        RenderMonotone(headers, part, i - lo, i - lo + 1);
        assert part[i - lo..i - lo + 1] == [rows[i]];
      }
    }
  }

  lemma {:induction false} SliceItemsKind(headers: Row, blocks: seq<seq<Row>>, start: nat, origin: Origin)
    ensures forall s :: s in SliceItems(headers, blocks, start, origin) ==>
              s.kind == TABLE && s.origin == origin
  {
    hide Render, Strip;
    if blocks != [] {
      SliceItemsKind(headers, blocks[1..], start + |blocks[0]|, origin);
    }
  }
}
