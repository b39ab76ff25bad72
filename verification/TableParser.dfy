/** A reader for printed tables, and the proof that it undoes the printer. */
module TableParser {
  import opened Text
  import opened Splitting
  import opened Items
  import opened Tables
  import opened TableSlicer

  // --------------------------------------------------------------------- the reader

  /** Split at the bars that no backslash precedes. */
  function SplitBars(s: Str, escaped: bool): (r: seq<Str>)
    ensures r != []
  {
    if s == [] then [[]]
    else
      var rest := SplitBars(s[1..], s[0] == BACKSLASH);
      if s[0] == BAR && !escaped then [[]] + rest else [[s[0]] + rest[0]] + rest[1..]
  }

  function Unescape(s: Str): (r: Str)
  {
    if s == [] then []
    else if |s| >= 2 && s[0] == BACKSLASH && s[1] == BAR then [BAR] + Unescape(s[2..])
    else [s[0]] + Unescape(s[1..])
  }

  function ParseCells(segments: seq<Str>): (r: Row)
    ensures |r| == |segments|
  {
    if segments == [] then [] else [Unescape(Strip(segments[0]))] + ParseCells(segments[1..])
  }

  /** The cells of a line: everything between its first and its last unescaped bar. */
  function ParseLine(line: Str): (r: Row)
  {
    var segments := SplitBars(line, false);
    if |segments| < 2 then [] else ParseCells(segments[1..|segments| - 1])
  }

  function ParseLines(lines: seq<Str>): (r: seq<Row>)
    ensures |r| == |lines|
  {
    if lines == [] then [] else [ParseLine(lines[0])] + ParseLines(lines[1..])
  }

  /** Read a printed table back: header line, separator line, row lines. */
  function ParseTable(md: Str): (t: Table)
  {
    var lines := SplitOn([NEWLINE], md);
    if |lines| < 2 then Table([], []) else Table(ParseLine(lines[0]), ParseLines(lines[2..]))
  }

  // ------------------------------------------------------------- what can be recovered

  /** A cell up to what printing forgets: newlines become spaces and the ends are stripped. */
  function CellText(s: Str): (r: Str) { Strip(NewlinesToSpaces(s)) }

  function HeaderTexts(headers: Row): (r: Row)
    ensures |r| == |headers|
    ensures forall i :: 0 <= i < |headers| ==> r[i] == CellText(headers[i])
  {
    seq(|headers|, i requires 0 <= i < |headers| => CellText(headers[i]))
  }

  /** A row cut or padded to `width` cells. */
  function RowTexts(row: Row, width: nat): (r: Row)
    ensures |r| == width
    ensures forall i :: 0 <= i < width ==> r[i] == if i < |row| then CellText(row[i]) else []
  {
    if width == 0 then []
    else if row == [] then [[]] + RowTexts([], width - 1)
    else [CellText(row[0])] + RowTexts(row[1..], width - 1)
  }

  function TableTexts(rows: seq<Row>, width: nat): (r: seq<Row>)
    ensures |r| == |rows|
  {
    if rows == [] then [] else [RowTexts(rows[0], width)] + TableTexts(rows[1..], width)
  }

  // ------------------------------------------------------------------- escaping cells

  lemma {:induction false} EscapeBarsAppend(a: Str, b: Str)
    ensures EscapeBars(a + b) == EscapeBars(a) + EscapeBars(b)
  {
    if a == [] {
      assert a + b == b;
    } else {
      assert (a + b)[1..] == a[1..] + b;
      EscapeBarsAppend(a[1..], b);
    }
  }

  lemma {:induction false} EscapeBarsBlank(s: Str)
    requires IsBlank(s)
    ensures EscapeBars(s) == s
  {
    if s != [] {
      EscapeBarsBlank(s[1..]);
    }
  }

  lemma EscapeStripped(body: Str)
    requires body != [] && Stripped(body)
    ensures EscapeBars(body) != [] && Stripped(EscapeBars(body))
  {
    var last := |body| - 1;
    assert body == body[..last] + [body[last]];
    EscapeBarsAppend(body[..last], [body[last]]);
  }

  /** Stripping and escaping commute. */
  lemma StripEscape(s: Str)
    ensures Strip(EscapeBars(s)) == EscapeBars(Strip(s))
  {
    hide Strip, EscapeBars, LStrip, RStrip, RunLen;
    var pre, post := StripSplits(s);
    var body := Strip(s);
    EscapeBarsAppend(pre + body, post);
    EscapeBarsAppend(pre, body);
    EscapeBarsBlank(pre);
    EscapeBarsBlank(post);
    if body == [] {
      EscapeBarsBlank(body);
      StripOfBlank(pre + post);
      assert pre + body + post == pre + post;
    } else {
      EscapeStripped(body);
      StripUnique(pre, EscapeBars(body), post);
    }
  }

  lemma {:induction false} UnescapeEscape(s: Str)
    ensures Unescape(EscapeBars(s)) == s
  {
    if s != [] {
      var e := EscapeBars(s);
      UnescapeEscape(s[1..]);
      if s[0] == BAR {
        assert e[2..] == EscapeBars(s[1..]);
      } else {
        assert e[1..] == EscapeBars(s[1..]);
      }
    }
  }

  /** Every bar of `s` directly follows a backslash, and no newline occurs. */
  ghost predicate Guarded(s: Str)
  {
    NEWLINE !in s &&
    forall i :: 0 <= i < |s| && s[i] == BAR ==> i > 0 && s[i - 1] == BACKSLASH
  }

  lemma {:induction false} EscapeGuards(s: Str)
    requires NEWLINE !in s
    ensures Guarded(EscapeBars(s))
  {
    if s != [] {
      EscapeGuards(s[1..]);
      var head := if s[0] == BAR then [BACKSLASH, BAR] else [s[0]];
      var e, tail := EscapeBars(s), EscapeBars(s[1..]);
      assert e == head + tail;
      assert forall i :: |head| <= i < |e| ==> e[i] == tail[i - |head|];
    }
  }

  lemma CellGuarded(s: Str)
    ensures Guarded(Cell(s)) && Unescape(Cell(s)) == CellText(s) && Stripped(Cell(s))
  {
    var flat := NewlinesToSpaces(s);
    StripEscape(flat);
    var pre, post := StripSplits(flat);
    var _, _ := StripSplits(EscapeBars(flat));
    assert forall i :: 0 <= i < |Strip(flat)| ==> Strip(flat)[i] == flat[|pre| + i];
    EscapeGuards(Strip(flat));
    UnescapeEscape(Strip(flat));
  }

  // ------------------------------------------------------------------- lines of cells

  /** A guarded stretch ending in something other than a backslash runs up to the next bar. */
  lemma {:induction false} SplitBarsSegment(s: Str, escaped: bool, rest: Str)
    requires s != [] && s[0] == BAR ==> escaped
    requires forall i :: 1 <= i < |s| && s[i] == BAR ==> s[i - 1] == BACKSLASH
    requires if s == [] then !escaped else s[|s| - 1] != BACKSLASH
    ensures SplitBars(s + [BAR] + rest, escaped) == [s] + SplitBars(rest, false)
  {
    var whole := s + [BAR] + rest;
    if s == [] {
      assert whole[1..] == rest;
    } else {
      assert whole[1..] == s[1..] + [BAR] + rest;
      SplitBarsSegment(s[1..], s[0] == BACKSLASH, rest);
      var tail := SplitBars(whole[1..], s[0] == BACKSLASH);
      assert tail[0] == s[1..] && tail[1..] == SplitBars(rest, false);
      assert s == [s[0]] + s[1..];
    }
  }

  /** The segments between the bars of a line. */
  function Segments(cells: Row): (r: seq<Str>)
    ensures |r| == |cells|
  {
    if cells == [] then [] else [[BLANK] + cells[0] + [BLANK]] + Segments(cells[1..])
  }

  ghost predicate AllGuarded(cells: Row) { forall i :: 0 <= i < |cells| ==> Guarded(cells[i]) }

  lemma {:induction false} SplitBarsCells(cells: Row)
    requires cells != [] && AllGuarded(cells)
    ensures SplitBars([BLANK] + Join(CELL_SEP, cells) + [BLANK, BAR], false) == Segments(cells) + [[]]
  {
    var seg := [BLANK] + cells[0] + [BLANK];
    if |cells| == 1 {
      assert [BLANK] + Join(CELL_SEP, cells) + [BLANK, BAR] == seg + [BAR] + [];
      SplitBarsSegment(seg, false, []);
      assert Segments(cells) == [seg] + Segments(cells[1..]) == [seg];
    } else {
      var rest := [BLANK] + Join(CELL_SEP, cells[1..]) + [BLANK, BAR];
      assert [BLANK] + Join(CELL_SEP, cells) + [BLANK, BAR] == seg + [BAR] + rest;
      SplitBarsSegment(seg, false, rest);
      SplitBarsCells(cells[1..]);
      assert Segments(cells) + [[]] == [seg] + (Segments(cells[1..]) + [[]]);
    }
  }

  lemma {:induction false} BarsOfLine(cells: Row)
    requires cells != [] && AllGuarded(cells)
    ensures SplitBars(Line(cells), false) == [[]] + Segments(cells) + [[]]
  {
    hide SplitBars, Segments, Join;
    var body := [BLANK] + Join(CELL_SEP, cells) + [BLANK, BAR];
    assert Line(cells) == [] + [BAR] + body;
    SplitBarsSegment([], false, body);
    SplitBarsCells(cells);
  }

  lemma {:induction false} ParseLineOfCells(cells: Row)
    requires cells != [] && AllGuarded(cells)
    ensures ParseLine(Line(cells)) == ParseCells(Segments(cells))
  {
    hide SplitBars, Segments, Line, ParseCells, AllGuarded;
    BarsOfLine(cells);
    var segments := SplitBars(Line(cells), false);
    assert segments[1..|segments| - 1] == Segments(cells);
  }

  lemma {:induction false} ParseCellsOfSegments(cells: Row, texts: Row)
    requires |cells| == |texts|
    requires forall i :: 0 <= i < |cells| ==> Stripped(cells[i]) && Unescape(cells[i]) == texts[i]
    ensures ParseCells(Segments(cells)) == texts
  {
    hide Unescape, Strip;
    if cells != [] {
      ParseCellsOfSegments(cells[1..], texts[1..]);
      if cells[0] == [] {
        StripOfBlank([BLANK] + cells[0] + [BLANK]);
      } else {
        StripUnique([BLANK], cells[0], [BLANK]);
      }
      assert texts == [texts[0]] + texts[1..];
    }
  }

  /** Reading a printed row gives the row's texts. */
  lemma ParseRow(row: Row, width: nat)
    requires width > 0
    ensures ParseLine(Line(RowCells(row, width))) == RowTexts(row, width)
    ensures AllGuarded(RowCells(row, width))
  {
    hide Line, ParseLine, Cell, CellText;
    var cells := RowCells(row, width);
    forall i | 0 <= i < width
      ensures Guarded(cells[i]) && Stripped(cells[i]) && Unescape(cells[i]) == RowTexts(row, width)[i]
    {
      if i < |row| {
        CellGuarded(row[i]);
      }
    }
    ParseLineOfCells(cells);
    ParseCellsOfSegments(cells, RowTexts(row, width));
  }

  lemma ParseHeader(headers: Row)
    requires headers != []
    ensures ParseLine(Line(HeaderCells(headers, |headers|))) == HeaderTexts(headers)
    ensures AllGuarded(HeaderCells(headers, |headers|))
  {
    hide Line, ParseLine, Cell, CellText;
    var cells := HeaderCells(headers, |headers|);
    forall i | 0 <= i < |headers|
      ensures Guarded(cells[i]) && Stripped(cells[i]) && Unescape(cells[i]) == HeaderTexts(headers)[i]
    {
      CellGuarded(headers[i]);
    }
    ParseLineOfCells(cells);
    ParseCellsOfSegments(cells, HeaderTexts(headers));
  }

  // ------------------------------------------------------------------------- all lines

  lemma {:induction false} SplitLinesOne(line: Str, rest: Str)
    requires NEWLINE !in line
    ensures SplitOn([NEWLINE], line + [NEWLINE] + rest) == [line] + SplitOn([NEWLINE], rest)
  {
    var whole := line + [NEWLINE] + rest;
    if line == [] {
      assert whole[1..] == rest;
    } else {
      assert whole[1..] == line[1..] + [NEWLINE] + rest;
      SplitLinesOne(line[1..], rest);
      assert line == [line[0]] + line[1..];
    }
  }

  lemma {:induction false} SplitLinesLast(line: Str)
    requires NEWLINE !in line
    ensures SplitOn([NEWLINE], line) == [line]
  {
    if line != [] {
      SplitLinesLast(line[1..]);
      assert line == [line[0]] + line[1..];
    }
  }

  lemma {:induction false} SplitLinesJoin(lines: seq<Str>)
    requires lines != [] && forall i :: 0 <= i < |lines| ==> NEWLINE !in lines[i]
    ensures SplitOn([NEWLINE], Join([NEWLINE], lines)) == lines
  {
    if |lines| == 1 {
      SplitLinesLast(lines[0]);
    } else {
      SplitLinesOne(lines[0], Join([NEWLINE], lines[1..]));
      SplitLinesJoin(lines[1..]);
    }
  }

  lemma {:induction false} JoinNoNewline(cells: Row)
    requires forall i :: 0 <= i < |cells| ==> NEWLINE !in cells[i]
    ensures NEWLINE !in Join(CELL_SEP, cells)
  {
    if |cells| > 1 {
      JoinNoNewline(cells[1..]);
    }
  }

  lemma LineNoNewline(cells: Row)
    requires AllGuarded(cells)
    ensures NEWLINE !in Line(cells)
  {
    JoinNoNewline(cells);
  }

  lemma {:induction false} ParseRowLines(rows: seq<Row>, width: nat)
    requires width > 0
    ensures ParseLines(RowLines(rows, width)) == TableTexts(rows, width)
    ensures forall i :: 0 <= i < |rows| ==> NEWLINE !in RowLines(rows, width)[i]
  {
    hide Line, ParseLine, RowCells, RowTexts;
    if rows != [] {
      ParseRow(rows[0], width);
      LineNoNewline(RowCells(rows[0], width));
      ParseRowLines(rows[1..], width);
    }
  }

  /** The header and separator lines. */
  lemma {:induction false} HeadLinesPlain(headers: Row)
    requires headers != []
    ensures var head := HeadLines(headers, |headers|);
      |head| == 2 && NEWLINE !in head[0] && NEWLINE !in head[1] && ParseLine(head[0]) == HeaderTexts(headers)
  {
    hide Line, ParseLine, HeaderCells, HeaderTexts;
    var dashes := seq(|headers|, _ => DASHES);
    ParseHeader(headers);
    LineNoNewline(HeaderCells(headers, |headers|));
    DashesGuarded(|headers|);
    LineNoNewline(dashes);
  }

  lemma {:induction false} DashesGuarded(width: nat)
    ensures AllGuarded(seq(width, _ => DASHES))
  {
  }

  /** Splitting a printed table at its newlines gives its lines back. */
  lemma {:induction false} LinesOfRender(headers: Row, rows: seq<Row>)
    requires headers != []
    ensures SplitOn([NEWLINE], Render(headers, rows)) ==
            HeadLines(headers, |headers|) + RowLines(rows, |headers|)
  {
    hide HeadLines, RowLines, Join, ParseLine, TableTexts, HeaderTexts;
    var head, body := HeadLines(headers, |headers|), RowLines(rows, |headers|);
    HeadLinesPlain(headers);
    ParseRowLines(rows, |headers|);
    forall i | 0 <= i < |head + body| ensures NEWLINE !in (head + body)[i] {
      if i >= 2 {
        assert (head + body)[i] == body[i - 2];
      }
    }
    SplitLinesJoin(head + body);
  }

  /** The printer can be undone: with headers, reading a printed table recovers exactly the
      headers and the rows, up to newline-to-space, stripping, and cutting or padding the rows
      to the header width. */
  lemma {:induction false} RenderRoundTrip(headers: Row, rows: seq<Row>)
    requires headers != []
    ensures ParseTable(Render(headers, rows)) ==
            Table(HeaderTexts(headers), TableTexts(rows, |headers|))
  {
    hide Render, HeadLines, RowLines, ParseLine, ParseLines, TableTexts, HeaderTexts;
    var head, body := HeadLines(headers, |headers|), RowLines(rows, |headers|);
    HeadLinesPlain(headers);
    LinesOfRender(headers, rows);
    ParseRowLines(rows, |headers|);
    assert (head + body)[0] == head[0] && (head + body)[2..] == body;
  }

  // -------------------------------------------------------------------- over all slices

  lemma RenderStripped(headers: Row, rows: seq<Row>)
    ensures Strip(Render(headers, rows)) == Render(headers, rows)
  {
    hide Strip, Cell;
    if headers != [] || rows != [] {
      var width := Width(headers, rows);
      var lines := HeadLines(headers, width) + RowLines(rows, width);
      JoinOfLines(lines);
    }
    StripId(Render(headers, rows));
  }

  ghost predicate BarEnds(s: Str) { s != [] && s[0] == BAR && s[|s| - 1] == BAR }

  lemma {:induction false} JoinOfLines(lines: seq<Str>)
    requires lines != [] && forall i :: 0 <= i < |lines| ==> BarEnds(lines[i])
    ensures BarEnds(Join([NEWLINE], lines))
  {
    if |lines| > 1 {
      JoinOfLines(lines[1..]);
    }
  }

  /** What reading the slices one after the other gives. */
  function ParseSlices(items: seq<RawItem>): (rows: seq<Row>)
  {
    if items == [] then [] else ParseTable(items[0].content).rows + ParseSlices(items[1..])
  }

  lemma {:induction false} TableTextsAppend(a: seq<Row>, b: seq<Row>, width: nat)
    ensures TableTexts(a + b, width) == TableTexts(a, width) + TableTexts(b, width)
  {
    if a == [] {
      assert a + b == b;
    } else {
      assert (a + b)[1..] == a[1..] + b;
      TableTextsAppend(a[1..], b, width);
    }
  }

  lemma {:induction false} ParseTiles(
      cfg: ChunkingConfig, items: seq<RawItem>, headers: Row, rows: seq<Row>, start: nat)
    requires headers != [] && start <= |rows| && Tiles(cfg, items, headers, rows, start)
    ensures ParseSlices(items) == TableTexts(rows[start..], |headers|)
    ensures forall i :: 0 <= i < |items| ==> ParseTable(items[i].content).headers == HeaderTexts(headers)
  {
    hide ParseTable, Tiles, HeaderTexts;
    if items == [] {
      TilesEnd(cfg, headers, rows, start);
    } else {
      TilesStep(cfg, items, headers, rows, start);
      ParseTiles(cfg, items[1..], headers, rows, items[0].rows.value.1);
    }
  }

  lemma {:induction false} TilesEnd(cfg: ChunkingConfig, headers: Row, rows: seq<Row>, start: nat)
    requires start <= |rows| && Tiles(cfg, [], headers, rows, start)
    ensures TableTexts(rows[start..], |headers|) == []
  {
  }

  lemma {:induction false} TilesStep(
      cfg: ChunkingConfig, items: seq<RawItem>, headers: Row, rows: seq<Row>, start: nat)
    requires headers != [] && start <= |rows| && items != [] && Tiles(cfg, items, headers, rows, start)
    ensures items[0].rows.Some?
    ensures var hi := items[0].rows.value.1;
      hi <= |rows| && Tiles(cfg, items[1..], headers, rows, hi) &&
      ParseTable(items[0].content).rows + TableTexts(rows[hi..], |headers|) == TableTexts(rows[start..], |headers|)
    ensures ParseTable(items[0].content).headers == HeaderTexts(headers)
  {
    hide FitsRows, ParseTable, Render, Strip, HeaderTexts, TableTexts;
    var (lo, hi) := items[0].rows.value;
    RenderStripped(headers, rows[lo..hi]);
    RenderRoundTrip(headers, rows[lo..hi]);
    assert rows[start..] == rows[lo..hi] + rows[hi..];
    TableTextsAppend(rows[lo..hi], rows[hi..], |headers|);
  }

  /** No row of a table is lost: every slice shows the headers, and the rows read from the slices,
      in order, are the rows of the table. */
  lemma {:induction false} SlicesRoundTrip(cfg: ChunkingConfig, table: Table, origin: Origin)
    requires table.headers != []
    ensures ParseSlices(TableItems(cfg, table, origin)) == TableTexts(table.rows, |table.headers|)
    ensures forall s :: s in TableItems(cfg, table, origin) ==>
              ParseTable(s.content).headers == HeaderTexts(table.headers)
  {
    hide TableItems, ParseTable, Slice, FitsRows;
    SlicesTile(cfg, table, origin);
    if table.rows != [] {
      ParseTiles(cfg, TableItems(cfg, table, origin), table.headers, table.rows, 0);
      assert table.rows[0..] == table.rows;
    } else {
      ParseHeaderSlice(table.headers, origin);
      NothingParsed();
    }
  }

  lemma {:induction false} ParseHeaderSlice(headers: Row, origin: Origin)
    requires headers != []
    ensures var s := Slice(headers, [], 0, origin);
      ParseTable(s.content).headers == HeaderTexts(headers) && ParseSlices([s]) == []
  {
    hide ParseTable, Render, Strip, HeaderTexts;
    var s := Slice(headers, [], 0, origin);
    RenderStripped(headers, []);
    RenderRoundTrip(headers, []);
    assert [s][1..] == [];
  }

  lemma {:induction false} NothingParsed()
    ensures ParseSlices([]) == []
  {
  }
}
