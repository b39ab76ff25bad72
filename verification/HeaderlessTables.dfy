/** Tables without headers: what the printer shows of them, and that none of it is lost. */
module HeaderlessTables {
  import opened Text
  import opened Splitting
  import opened Items
  import opened Tables
  import opened TableSlicer
  import opened TableParser

  // ---------------------------------------------------------------------- column names

  /** The number that decimal digits stand for. */
  function Number(s: Str): (n: int)
  {
    if s == [] then 0
    else 10 * Number(s[..|s| - 1]) + match s[|s| - 1] case Digit(c) => c as int - '0' as int case _ => 0
  }

  predicate Decimals(s: Str) { s != [] && forall i :: 0 <= i < |s| ==> s[i].Digit? && '0' <= s[i].c <= '9' }

  /** The printed column number is the decimal of the number, without leading zeros. */
  lemma {:induction false} DecimalReads(n: nat)
    ensures Decimals(Decimal(n)) && Number(Decimal(n)) == n
    ensures n > 0 ==> Decimal(n)[0] != Digit('0')
  {
    hide Number;
    NumberNone();
    if n >= 10 {
      DecimalReads(n / 10);
      NumberSnoc(Decimal(n / 10), n % 10);
    } else {
      NumberSnoc([], n);
    }
  }

  lemma {:induction false} NumberNone()
    ensures Number([]) == 0
  {
  }

  lemma {:induction false} NumberSnoc(s: Str, d: nat)
    requires d < 10
    ensures Number(s + [Digit(('0' as int + d) as char)]) == 10 * Number(s) + d
  {
    assert (s + [Digit(('0' as int + d) as char)])[..|s|] == s;
  }

  /** `Col 1`, `Col 2`, ... */
  function ColumnNames(n: nat): (r: Row)
    ensures |r| == n
    ensures forall i :: 0 <= i < n ==>
      r[i] == [Letter('C'), Letter('o'), Letter('l'), Space(' ')] + Decimal(i + 1)
  {
    if n == 0 then [] else ColumnNames(n - 1) + [[Letter('C'), Letter('o'), Letter('l'), Space(' ')] + Decimal(n)]
  }

  lemma {:induction false} UnescapePlain(s: Str)
    requires BACKSLASH !in s
    ensures Unescape(s) == s
  {
    if s != [] {
      UnescapePlain(s[1..]);
    }
  }

  lemma {:induction false} NamePlain(i: nat)
    ensures var name := [Letter('C'), Letter('o'), Letter('l'), Space(' ')] + Decimal(i);
      Guarded(name) && Stripped(name) && Unescape(name) == name
  {
    DecimalReads(i);
    UnescapePlain([Letter('C'), Letter('o'), Letter('l'), Space(' ')] + Decimal(i));
  }

  lemma {:induction false} ParseNumbered(n: nat)
    requires n > 0
    ensures ParseLine(Line(HeaderCells([], n))) == ColumnNames(n) && AllGuarded(HeaderCells([], n))
  {
    hide Line, ParseLine, Unescape, Guarded, Stripped, ColumnNames;
    var cells := HeaderCells([], n);
    forall i | 0 <= i < n
      ensures Guarded(cells[i]) && Stripped(cells[i]) && Unescape(cells[i]) == ColumnNames(n)[i]
    {
      NamePlain(i + 1);
    }
    ParseLineOfCells(cells);
    ParseCellsOfSegments(cells, ColumnNames(n));
  }

  // ------------------------------------------------------------------------ round trips

  /** The number of cells of the longest row. */
  ghost predicate Longest(rows: seq<Row>, n: nat)
  {
    (forall i :: 0 <= i < |rows| ==> |rows[i]| <= n) && exists i :: 0 <= i < |rows| && |rows[i]| == n
  }

  lemma {:induction false} LongestIsWidth(rows: seq<Row>, n: nat)
    requires Longest(rows, n)
    ensures Width([], rows) == n && rows != []
  {
    var i :| 0 <= i < |rows| && |rows[i]| == n;
    assert |rows[i]| <= MaxWidth(rows);
  }

  lemma {:induction false} LinesOfRows(rows: seq<Row>, n: nat)
    requires Longest(rows, n) && n > 0
    ensures SplitOn([NEWLINE], Render([], rows)) == HeadLines([], n) + RowLines(rows, n)
    ensures ParseLine(HeadLines([], n)[0]) == ColumnNames(n) && |HeadLines([], n)| == 2
    ensures ParseLines(RowLines(rows, n)) == TableTexts(rows, n)
  {
    hide RowLines, Join, ParseLine, TableTexts, ColumnNames, Line, HeaderCells;
    var dashes := seq(n, _ => DASHES);
    var head, body := HeadLines([], n), RowLines(rows, n);
    LongestIsWidth(rows, n);
    ParseNumbered(n);
    LineNoNewline(HeaderCells([], n));
    DashesGuarded(n);
    LineNoNewline(dashes);
    ParseRowLines(rows, n);
    forall i | 0 <= i < |head + body| ensures NEWLINE !in (head + body)[i] {
      if i >= 2 {
        assert (head + body)[i] == body[i - 2];
      }
    }
    SplitLinesJoin(head + body);
  }

  /** Reading a printed table without headers recovers numbered column names, as many as the
      longest row has cells, and every row, padded to that number; no cell is cut. */
  lemma {:induction false} HeaderlessRoundTrip(rows: seq<Row>, n: nat)
    requires Longest(rows, n) && n > 0
    ensures ParseTable(Render([], rows)) == Table(ColumnNames(n), TableTexts(rows, n))
  {
    hide Render, HeadLines, RowLines, ParseLine, ParseLines, ColumnNames, TableTexts, Longest;
    var head, body := HeadLines([], n), RowLines(rows, n);
    LinesOfRows(rows, n);
    assert (head + body)[0] == head[0] && (head + body)[2..] == body;
  }

  /** No cell is lost: what is read back holds every cell where it stood. */
  lemma {:induction false} NoCellCut(rows: seq<Row>, n: nat, i: nat, j: nat)
    requires Longest(rows, n) && i < |rows| && j < |rows[i]|
    ensures j < |TableTexts(rows, n)[i]| == n && TableTexts(rows, n)[i][j] == CellText(rows[i][j])
  {
    TableTextsAt(rows, n, i);
  }

  lemma {:induction false} TableTextsAt(rows: seq<Row>, n: nat, i: nat)
    requires i < |rows|
    ensures TableTexts(rows, n)[i] == RowTexts(rows[i], n)
  {
    hide RowTexts;
    if i > 0 {
      TableTextsAt(rows[1..], n, i - 1);
    }
  }

  /** Rows without any cell print as empty lines. */
  lemma {:induction false} EmptyRowsPrint(rows: seq<Row>)
    requires Longest(rows, 0)
    ensures Render([], rows) == Join([NEWLINE], seq(|rows| + 2, _ => [BAR, BLANK, BLANK, BAR]))
  {
    hide Join;
    LongestIsWidth(rows, 0);
    NothingJoined();
    var none: Row := [];
    assert HeaderCells([], 0) == none && seq(0, _ => DASHES) == none;
    assert Line(none) == [BAR, BLANK, BLANK, BAR];
    assert forall i :: 0 <= i < |rows| ==> RowCells(rows[i], 0) == none;
    assert HeadLines([], 0) + RowLines(rows, 0) == seq(|rows| + 2, _ => [BAR, BLANK, BLANK, BAR]);
  }

  lemma {:induction false} NothingJoined()
    ensures Join(CELL_SEP, []) == []
  {
  }

  /** A slice of a table without headers shows numbered columns for the longest of its own rows,
      and its rows in full. */
  ghost predicate ShowsRows(item: RawItem, rows: seq<Row>)
  {
    item.rows.Some? &&
    var (lo, hi) := item.rows.value;
    lo < hi <= |rows| &&
    forall n :: Longest(rows[lo..hi], n) && n > 0 ==>
      ParseTable(item.content) == Table(ColumnNames(n), TableTexts(rows[lo..hi], n))
  }

  lemma {:induction false} TilesShow(cfg: ChunkingConfig, items: seq<RawItem>, rows: seq<Row>, start: nat)
    requires start <= |rows| && Tiles(cfg, items, [], rows, start)
    ensures forall i :: 0 <= i < |items| ==> ShowsRows(items[i], rows)
    decreases |items|
  {
    hide FitsRows, Render, Strip, ParseTable, Longest, ColumnNames, TableTexts;
    if items != [] {
      var (lo, hi) := items[0].rows.value;
      RenderStripped([], rows[lo..hi]);
      forall n | Longest(rows[lo..hi], n) && n > 0
        ensures ParseTable(items[0].content) == Table(ColumnNames(n), TableTexts(rows[lo..hi], n))
      {
        HeaderlessRoundTrip(rows[lo..hi], n);
      }
      TilesShow(cfg, items[1..], rows, hi);
    }
  }

  /** The same of every slice of a table without headers; together the slices cover all rows. */
  lemma {:induction false} HeaderlessSlicesRoundTrip(cfg: ChunkingConfig, rows: seq<Row>, origin: Origin)
    requires rows != []
    ensures var items := TableItems(cfg, Table([], rows), origin);
      Tiles(cfg, items, [], rows, 0) && forall i :: 0 <= i < |items| ==> ShowsRows(items[i], rows)
  {
    hide TableItems, Tiles, ShowsRows;
    SlicesTile(cfg, Table([], rows), origin);
    TilesShow(cfg, TableItems(cfg, Table([], rows), origin), rows, 0);
  }

  // ---------------------------------------------------------------------------- sample

  function Word(c: char): (r: Str) { [Letter(c)] }

  /** Two rows without headers, of one cell and of two, exactly as printed: a line of column names,
      a line of dashes, and one line a row. */
  lemma {:induction false} PrintedSample()
    ensures Render([], [[Word('a')], [Word('b'), [BAR]]]) ==
      [BAR, BLANK, Letter('C'), Letter('o'), Letter('l'), BLANK, Digit('1'), BLANK, BAR, BLANK,
       Letter('C'), Letter('o'), Letter('l'), BLANK, Digit('2'), BLANK, BAR] + [NEWLINE] +
      [BAR, BLANK, Symbol('-'), Symbol('-'), Symbol('-'), BLANK, BAR, BLANK,
       Symbol('-'), Symbol('-'), Symbol('-'), BLANK, BAR] + [NEWLINE] +
      [BAR, BLANK, Letter('a'), BLANK, BAR, BLANK, BLANK, BAR] + [NEWLINE] +
      [BAR, BLANK, Letter('b'), BLANK, BAR, BLANK, Symbol('\\'), BAR, BLANK, BAR]
  {
    hide Join, Line, HeaderCells, RowCells, Render;
    var rows: seq<Row> := [[Word('a')], [Word('b'), [BAR]]];
    SampleLines(rows);
    SampleRender(rows);
  }

  lemma {:induction false} SampleRender(rows: seq<Row>)
    requires rows == [[Word('a')], [Word('b'), [BAR]]]
    ensures Render([], rows) ==
      Line(HeaderCells([], 2)) + [NEWLINE] + Line([DASHES, DASHES]) + [NEWLINE] +
      Line(RowCells(rows[0], 2)) + [NEWLINE] + Line(RowCells(rows[1], 2))
  {
    hide Join, Line, HeaderCells, RowCells;
    assert |rows[0]| == 1 && |rows[1]| == 2;
    assert Longest(rows, 2);
    LongestIsWidth(rows, 2);
    SampleHead();
    assert rows[1..][1..] == [] && rows[1..] == [rows[1]];
    var a, b, c, d :=
      Line(HeaderCells([], 2)), Line([DASHES, DASHES]), Line(RowCells(rows[0], 2)), Line(RowCells(rows[1], 2));
    assert RowLines(rows, 2) == [c, d];
    JoinFour(a, b, c, d);
    assert HeadLines([], 2) + RowLines(rows, 2) == [a, b, c, d];
  }

  lemma {:induction false} SampleHead()
    ensures HeadLines([], 2) == [Line(HeaderCells([], 2)), Line([DASHES, DASHES])]
  {
    hide Line, HeaderCells;
    assert seq(2, _ => DASHES) == [DASHES, DASHES];
  }

  lemma {:induction false} SampleLines(rows: seq<Row>)
    requires rows == [[Word('a')], [Word('b'), [BAR]]]
    ensures Line(HeaderCells([], 2)) ==
      [BAR, BLANK, Letter('C'), Letter('o'), Letter('l'), BLANK, Digit('1'), BLANK, BAR, BLANK,
       Letter('C'), Letter('o'), Letter('l'), BLANK, Digit('2'), BLANK, BAR]
    ensures Line([DASHES, DASHES]) ==
      [BAR, BLANK, Symbol('-'), Symbol('-'), Symbol('-'), BLANK, BAR, BLANK,
       Symbol('-'), Symbol('-'), Symbol('-'), BLANK, BAR]
    ensures Line(RowCells(rows[0], 2)) == [BAR, BLANK, Letter('a'), BLANK, BAR, BLANK, BLANK, BAR]
    ensures Line(RowCells(rows[1], 2)) == [BAR, BLANK, Letter('b'), BLANK, BAR, BLANK, Symbol('\\'), BAR, BLANK, BAR]
  {
    hide Join, Cell, Decimal;
    SampleCells();
    var one: Str := [Letter('C'), Letter('o'), Letter('l'), BLANK, Digit('1')];
    var two: Str := [Letter('C'), Letter('o'), Letter('l'), BLANK, Digit('2')];
    var names := HeaderCells([], 2);
    assert names[0] == one && names[1] == two && names == [one, two];
    JoinTwo(one, two);
    JoinTwo(DASHES, DASHES);
    JoinTwo(Word('a'), []);
    JoinTwo(Word('b'), [BACKSLASH, BAR]);
    assert RowCells(rows[0], 2) == [Word('a'), []] && RowCells(rows[1], 2) == [Word('b'), [BACKSLASH, BAR]];
  }

  lemma {:induction false} JoinTwo(a: Str, b: Str)
    ensures Join(CELL_SEP, [a, b]) == a + [BLANK, BAR, BLANK] + b
  {
    assert [a, b][1..] == [b];
    assert Join(CELL_SEP, [b]) == b;
  }

  lemma {:induction false} JoinFour(a: Str, b: Str, c: Str, d: Str)
    ensures Join([NEWLINE], [a, b, c, d]) == a + [NEWLINE] + b + [NEWLINE] + c + [NEWLINE] + d
  {
    assert [a, b, c, d][1..] == [b, c, d] && [b, c, d][1..] == [c, d] && [c, d][1..] == [d];
    assert Join([NEWLINE], [d]) == d;
    assert Join([NEWLINE], [c, d]) == c + [NEWLINE] + d;
    assert Join([NEWLINE], [b, c, d]) == b + [NEWLINE] + (c + [NEWLINE] + d);
  }

  lemma {:induction false} SampleCells()
    ensures Cell(Word('a')) == Word('a') && Cell(Word('b')) == Word('b') && Cell([BAR]) == [BACKSLASH, BAR]
    ensures Decimal(1) == [Digit('1')] && Decimal(2) == [Digit('2')]
  {
    hide Cell, Decimal;
    OneLetter('a');
    OneLetter('b');
    OneBar();
    OneDigit(1);
    OneDigit(2);
  }

  lemma {:induction false} OneDigit(n: nat)
    requires n < 10
    ensures Decimal(n) == [Digit(('0' as int + n) as char)]
  {
    assert n % 10 == n;
  }

  lemma {:induction false} OneLetter(c: char)
    ensures Cell(Word(c)) == Word(c)
  {
    hide Strip;
    var w := Word(c);
    StripId(w);
    assert NewlinesToSpaces(w) == w;
    assert w[1..] == [] && EscapeBars(w) == w + EscapeBars(w[1..]);
  }

  lemma {:induction false} OneBar()
    ensures Cell([BAR]) == [BACKSLASH, BAR]
  {
    hide Strip;
    StripId([BACKSLASH, BAR]);
    assert NewlinesToSpaces([BAR]) == [BAR];
    var bar: Str := [BAR];
    assert bar[1..] == [] && bar[0] == BAR;
    assert EscapeBars(bar) == [BACKSLASH, BAR] + EscapeBars(bar[1..]);
    assert EscapeBars(bar) == [BACKSLASH, BAR];
  }
}
