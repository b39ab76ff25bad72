/** Markdown tables: the printer, a parser that undoes it, and the row slicer. */
module Tables {
  import opened Text

  const BAR := Symbol('|')
  const BACKSLASH := Symbol('\\')
  const DASHES: Str := [Symbol('-'), Symbol('-'), Symbol('-')]
  const CELL_SEP: Str := [BLANK, BAR, BLANK]

  type Row = seq<Str>

  datatype Table = Table(headers: Row, rows: seq<Row>)

  // -------------------------------------------------------------------- the printer

  function NewlinesToSpaces(s: Str): (r: Str)
    ensures |r| == |s| && NEWLINE !in r
    ensures forall i :: 0 <= i < |s| ==> r[i] == if s[i] == NEWLINE then BLANK else s[i]
  {
    if s == [] then []
    else [if s[0] == NEWLINE then BLANK else s[0]] + NewlinesToSpaces(s[1..])
  }

  function EscapeBars(s: Str): (r: Str)
  {
    if s == [] then []
    else (if s[0] == BAR then [BACKSLASH, BAR] else [s[0]]) + EscapeBars(s[1..])
  }

  /** A cell as printed. */
  function Cell(s: Str): (r: Str) { Strip(EscapeBars(NewlinesToSpaces(s))) }

  function Line(cells: Row): (r: Str)
  {
    [BAR, BLANK] + Join(CELL_SEP, cells) + [BLANK, BAR]
  }

  function MaxWidth(rows: seq<Row>): (w: nat)
    ensures forall i :: 0 <= i < |rows| ==> |rows[i]| <= w
    ensures rows != [] ==> exists i :: 0 <= i < |rows| && |rows[i]| == w
  {
    if rows == [] then 0
    else
      var rest := MaxWidth(rows[1..]);
      if |rows[0]| >= rest then assert rows[0] == rows[0]; |rows[0]|
      else
        var i :| 0 <= i < |rows[1..]| && |rows[1..][i]| == rest;
        assert rows[i + 1] == rows[1..][i];
        rest
  }

  /** The number of printed columns: fixed by the headers, or by the widest row when there
      are none. */
  function Width(headers: Row, rows: seq<Row>): (w: nat)
  {
    if headers != [] then |headers| else MaxWidth(rows)
  }

  function Decimal(n: nat): (r: Str)
  {
    (if n < 10 then [] else Decimal(n / 10)) + [Digit(('0' as int + n % 10) as char)]
  }

  /** The header cells: the given headers, or `Col 1`, `Col 2`, ... */
  function HeaderCells(headers: Row, width: nat): (r: Row)
    requires headers != [] ==> width == |headers|
    ensures |r| == width
  {
    if headers != [] then
      seq(width, i requires 0 <= i < width => Cell(headers[i]))
    else
      seq(width, i requires 0 <= i < width => [Letter('C'), Letter('o'), Letter('l'), BLANK] + Decimal(i + 1))
  }

  /** A row cut or padded with empty cells to the header width. */
  function RowCells(row: Row, width: nat): (r: Row)
    ensures |r| == width
  {
    seq(width, i requires 0 <= i < width => if i < |row| then Cell(row[i]) else [])
  }

  function RowLines(rows: seq<Row>, width: nat): (r: seq<Str>)
    ensures |r| == |rows|
    ensures forall i :: 0 <= i < |rows| ==> r[i] == Line(RowCells(rows[i], width))
  {
    if rows == [] then [] else [Line(RowCells(rows[0], width))] + RowLines(rows[1..], width)
  }

  function HeadLines(headers: Row, width: nat): (r: seq<Str>)
    requires headers != [] ==> width == |headers|
  {
    [Line(HeaderCells(headers, width)), Line(seq(width, _ => DASHES))]
  }

  function Render(headers: Row, rows: seq<Row>): (r: Str)
  {
    if headers == [] && rows == [] then []
    else
      var width := Width(headers, rows);
      Join([NEWLINE], HeadLines(headers, width) + RowLines(rows, width))
  }

  method RenderRows(rows: seq<Row>, width: nat) returns (rowLines: seq<Str>)
    ensures rowLines == RowLines(rows, width)
  {
    hide Line, RowCells, RowLines;
    rowLines := [];
    assert rows[0..] == rows;
    for i := 0 to |rows|
      invariant rowLines + RowLines(rows[i..], width) == RowLines(rows, width)
    {
      RowLinesStep(rows, width, i);
      rowLines := rowLines + [Line(RowCells(rows[i], width))];
    }
    assert rows[|rows|..] == [];
  }

  lemma {:induction false} RowLinesStep(rows: seq<Row>, width: nat, i: nat)
    requires i < |rows|
    ensures RowLines(rows[i..], width) == [Line(RowCells(rows[i], width))] + RowLines(rows[i + 1..], width)
  {
    hide Line, RowCells;
    assert rows[i..][0] == rows[i] && rows[i..][1..] == rows[i + 1..];
  }

  method RenderMarkdown(headers: Row, rows: seq<Row>) returns (md: Str)
    ensures md == Render(headers, rows)
  {
    if headers == [] && rows == [] {
      return [];
    }
    var width := Width(headers, rows);
    var rowLines := RenderRows(rows, width);
    md := Join([NEWLINE], HeadLines(headers, width) + rowLines);
  }
}
