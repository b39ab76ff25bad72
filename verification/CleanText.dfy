/** Where nothing fuses in the input of the splitters, nothing fuses in their output. */
module CleanText {
  import opened Text
  import opened Lexer
  import opened Underscores
  import opened Splitting
  import opened Sentences
  import opened Items
  import opened Packing
  import opened Blocks
  import opened BlockLaws
  import Tables
  import Lists

  lemma {:induction false} NoneFusesAppend(a: seq<Str>, b: seq<Str>)
    requires NoneFuses(a) && NoneFuses(b)
    ensures NoneFuses(a + b)
  {
    hide FusesNothing;
  }

  // ----------------------------------------------------------------------------- blocks

  lemma {:induction false} StripUnderscoreFree(s: Str)
    requires UnderscoreFree(s)
    ensures UnderscoreFree(Strip(s))
  {
    hide Strip;
    var pre, post := StripSplits(s);
    assert forall i :: 0 <= i < |Strip(s)| ==> Strip(s)[i] == s[|pre| + i];
  }

  lemma {:induction false} SegmentsClean(windows: seq<seq<Str>>)
    requires UnderscoreFree(Concat(Flatten(windows)))
    ensures forall p :: p in Segments(windows) ==> UnderscoreFree(p)
  {
    hide Strip, Concat;
    if windows != [] {
      var text := Concat(windows[0]);
      ConcatAppend(windows[0], Flatten(windows[1..]));
      assert UnderscoreFree(text) && UnderscoreFree(Concat(Flatten(windows[1..])));
      StripUnderscoreFree(text);
      SegmentsClean(windows[1..]);
    }
  }

  /** Windows are underscore-free even when the sentence is not. */
  lemma {:induction false} SplitHugeUnderscoreFree(cfg: ChunkingConfig, s: Str)
    requires cfg.maxChars > 0
    ensures forall p :: p in SplitHuge(cfg, s) ==> UnderscoreFree(p)
  {
    hide Concat, Segments, WindowFits, Fragments, Greedy, AllSlices;
    var pieces := AllSlices(Fragments(s), cfg.maxChars);
    GreedyIsPartition([], pieces, WindowFits(cfg));
    assert [] + pieces == pieces;
    AllSlicesBound(Fragments(s), cfg.maxChars);
    FragmentsConcat(s);
    SegmentsClean(Greedy([], pieces, WindowFits(cfg)));
  }

  lemma {:induction false} SplitHugeClean(cfg: ChunkingConfig, s: Str)
    requires cfg.maxChars > 0
    ensures NoneFuses(SplitHuge(cfg, s))
  {
    hide SplitHuge, FusesNothing, UnderscoreFree;
    SplitHugeUnderscoreFree(cfg, s);
    forall i | 0 <= i < |SplitHuge(cfg, s)| ensures FusesNothing(SplitHuge(cfg, s)[i]) {
      assert SplitHuge(cfg, s)[i] in SplitHuge(cfg, s);
      UnderscoreFreeStaysPut(SplitHuge(cfg, s)[i]);
    }
  }

  lemma {:induction false} EmitClean(open: seq<Str>)
    requires NoneFuses(open)
    ensures NoneFuses(Emit(open))
  {
    hide FusesNothing;
    FusesJoin([BLANK], open);
  }

  lemma {:induction false} PackClean(cfg: ChunkingConfig, sents: seq<Str>, open: seq<Str>)
    requires cfg.maxChars > 0 && NoneFuses(sents) && NoneFuses(open)
    ensures NoneFuses(PackSentences(cfg, sents, open))
    decreases |sents|
  {
    hide SplitHuge, Emit, Huge, FitsSentences, FusesNothing;
    EmitClean(open);
    if sents != [] {
      var s, rest := sents[0], sents[1..];
      if Huge(cfg, s) {
        SplitHugeClean(cfg, s);
        PackClean(cfg, rest, []);
        NoneFusesAppend(SplitHuge(cfg, s), PackSentences(cfg, rest, []));
        NoneFusesAppend(Emit(open), SplitHuge(cfg, s) + PackSentences(cfg, rest, []));
      } else if open != [] && !FitsSentences(cfg, open + [s]) {
        PackClean(cfg, rest, [s]);
        NoneFusesAppend(Emit(open), PackSentences(cfg, rest, [s]));
      } else {
        PackClean(cfg, rest, open + [s]);
      }
    }
  }

  lemma {:induction false} PiecesClean(cfg: ChunkingConfig, text: Str)
    requires cfg.maxChars > 0 && FusesNothing(text)
    ensures NoneFuses(BlockPieces(cfg, text))
    decreases |text|
  {
    hide Strip, Paragraphs, SentencesOf, PackSentences, FusesNothing, Huge;
    var t := Strip(text);
    StripLength(text);
    FusesStrip(text);
    if t != [] && Huge(cfg, t) {
      if |Paragraphs(t)| > 1 {
        ParagraphsShorter(t);
        ParagraphsConserve(t);
        AllPiecesClean(cfg, Paragraphs(t), |text|);
      } else {
        SentencesFuse(t);
        PackClean(cfg, SentencesOf(t), []);
      }
    }
  }

  lemma {:induction false} AllPiecesClean(cfg: ChunkingConfig, paragraphs: seq<Str>, limit: nat)
    requires cfg.maxChars > 0 && NoneFuses(paragraphs)
    requires forall p :: p in paragraphs ==> |p| < limit
    ensures NoneFuses(AllPieces(cfg, paragraphs, limit))
    decreases limit, |paragraphs|
  {
    hide BlockPieces, FusesNothing;
    if paragraphs != [] {
      PiecesClean(cfg, paragraphs[0]);
      AllPiecesClean(cfg, paragraphs[1..], limit);
      NoneFusesAppend(BlockPieces(cfg, paragraphs[0]), AllPieces(cfg, paragraphs[1..], limit));
    }
  }

  // ------------------------------------------------------------------------------ lists

  lemma {:induction false} JoinBlocksClean(blocks: seq<seq<Str>>)
    requires NoneFuses(Flatten(blocks))
    ensures NoneFuses(Lists.JoinBlocks(blocks))
  {
    hide FusesNothing, Join;
    if blocks != [] {
      var all, rest := Flatten(blocks), Flatten(blocks[1..]);
      assert forall i :: 0 <= i < |blocks[0]| ==> blocks[0][i] == all[i];
      assert forall i :: 0 <= i < |rest| ==> rest[i] == all[|blocks[0]| + i];
      FusesJoin([NEWLINE], blocks[0]);
      JoinBlocksClean(blocks[1..]);
    }
  }

  lemma {:induction false} ListPiecesClean(cfg: ChunkingConfig, text: Str)
    requires FusesNothing(text)
    ensures NoneFuses(Lists.ListPieces(cfg, text))
  {
    hide Strip, FusesNothing, Count, Join, Greedy;
    var t := Strip(text);
    FusesStrip(text);
    var parts := SplitOn([NEWLINE], t);
    SplitFuses([NEWLINE], t);
    NonBlankFuses(parts);
    var lines := NonBlank(parts);
    var fits := Lists.Fits(cfg);
    GreedyIsPartition([], lines, fits);
    assert [] + lines == lines;
    JoinBlocksClean(Greedy([], lines, fits));
  }

  // ----------------------------------------------------------------- characters of cells

  /** The same characters, up to which whitespace they are. */
  ghost predicate SameClasses(s: Str, t: Str)
  {
    |s| == |t| && forall i :: 0 <= i < |s| ==> t[i] == s[i] || (IsSpace(s[i]) && IsSpace(t[i]))
  }

  lemma {:induction false} SameRun(s: Str, t: Str, p: Ch -> bool)
    requires SameClasses(s, t)
    requires forall a, b :: IsSpace(a) && IsSpace(b) ==> p(a) == p(b)
    ensures RunLen(t, p) == RunLen(s, p)
  {
    RunLenUnique(t, p, RunLen(s, p));
  }

  lemma {:induction false} SameMatch(s: Str, t: Str)
    requires SameClasses(s, t) && s != []
    ensures MatchLen(t) == MatchLen(s)
  {
    hide RunLen;
    SameRun(s, t, ArabicCh);
    SameRun(s, t, WordCh);
    SameRun(s, t, DigitCh);
    SameRun(s, t, IsSpace);
    var n := RunLen(s, DigitCh);
    if n + 1 <= |s| {
      SameRun(s[n + 1..], t[n + 1..], DigitCh);
    }
  }

  lemma {:induction false} SameDropped(s: Str, t: Str)
    requires SameClasses(s, t)
    ensures SameClasses(DropUnderscores(s), DropUnderscores(t))
  {
    if s != [] {
      SameDropped(s[1..], t[1..]);
    }
  }

  lemma {:induction false} SameFuses(s: Str, t: Str)
    requires SameClasses(s, t) && FusesNothing(s)
    ensures FusesNothing(t)
    decreases |s|
  {
    hide MatchLen, DropUnderscores;
    if s != [] {
      if IsSpace(s[0]) || s[0].Underscore? {
        SameFuses(s[1..], t[1..]);
      } else {
        DropAtMatch(s);
        SameMatch(s, t);
        SameDropped(s, t);
        SameMatch(DropUnderscores(s), DropUnderscores(t));
        SameFuses(s[MatchLen(s)..], t[MatchLen(s)..]);
      }
    }
  }

  lemma {:induction false} SymbolMatch(ch: Ch, s: Str)
    requires ch.Symbol?
    ensures MatchLen([ch] + s) == 1 && DropUnderscores([ch] + s) == [ch] + DropUnderscores(s)
  {
    assert ([ch] + s)[1..] == s;
  }

  lemma {:induction false} SymbolFuses(ch: Ch, s: Str)
    requires ch.Symbol?
    ensures FusesNothing([ch] + s) <==> FusesNothing(s)
  {
    hide MatchLen, DropUnderscores;
    SymbolMatch(ch, s);
    SymbolMatch(ch, DropUnderscores(s));
    assert ([ch] + s)[1..] == s;
  }

  lemma {:induction false} EscapeFirst(s: Str)
    requires s != []
    ensures var e := Tables.EscapeBars(s);
      if s[0] == Tables.BAR then e == [Tables.BACKSLASH, Tables.BAR] + Tables.EscapeBars(s[1..])
      else e == [s[0]] + Tables.EscapeBars(s[1..])
  {
  }

  lemma {:induction false} RunStep(s: Str, p: Ch -> bool)
    requires s != [] && p(s[0])
    ensures RunLen(s, p) == 1 + RunLen(s[1..], p)
  {
  }

  lemma {:induction false} SlicesAfterFirst(s: Str, e: Str, f: Str, n: nat)
    requires s != [] && e == [s[0]] + f && 0 < n <= |s| && n - 1 <= |f| && f[..n - 1] == s[1..][..n - 1]
    ensures e[..n] == s[..n] && e[n..] == f[n - 1..] && s[n..] == s[1..][n - 1..]
  {
    assert e[..n] == [s[0]] + f[..n - 1];
    assert s[..n] == [s[0]] + s[1..][..n - 1];
  }

  /** Escaping bars leaves every run of other characters as it is. */
  lemma {:induction false} EscapeRun(s: Str, p: Ch -> bool)
    requires !p(Tables.BAR) && !p(Tables.BACKSLASH)
    ensures var n, e := RunLen(s, p), Tables.EscapeBars(s);
      n <= |e| && RunLen(e, p) == n && e[..n] == s[..n] && e[n..] == Tables.EscapeBars(s[n..])
  {
    var n, e := RunLen(s, p), Tables.EscapeBars(s);
    if s == [] {
    } else if p(s[0]) {
      hide RunLen, Tables.EscapeBars;
      var f := Tables.EscapeBars(s[1..]);
      EscapeFirst(s);
      RunStep(s, p);
      EscapeRun(s[1..], p);
      assert e[1..] == f;
      RunStep(e, p);
      SlicesAfterFirst(s, e, f, n);
    } else {
      EscapeFirst(s);
      assert !p(e[0]);
      RunLenUnique(e, p, 0);
      RunLenUnique(s, p, 0);
    }
  }

  /** A number is found again after escaping. */
  lemma {:induction false} EscapeNumber(s: Str)
    requires s != [] && DigitCh(s[0])
    ensures var n, e := NumberLen(s), Tables.EscapeBars(s);
      e != [] && NumberLen(e) == n && n <= |e| && e[..n] == s[..n] && e[n..] == Tables.EscapeBars(s[n..])
  {
    hide Tables.EscapeBars, RunLen;
    var e, k := Tables.EscapeBars(s), RunLen(s, DigitCh);
    EscapeRun(s, DigitCh);
    EscapeFirst(s);
    assert DigitCh(e[0]);
    if k < |s| {
      EscapeFirst(s[k..]);
      assert e[k] == e[k..][0];
      if DecimalSep(s[k]) {
        EscapeDecimals(s, e, k);
      }
    } else {
      EscapeNothing();
      assert s[k..] == [] && e[k..] == Tables.EscapeBars(s[k..]) == [];
    }
  }

  lemma {:induction false} EscapeNothing()
    ensures Tables.EscapeBars([]) == []
  {
  }

  lemma {:induction false} EscapeDecimals(s: Str, e: Str, k: nat)
    requires k < |s| && k < |e| && e[..k] == s[..k] && e[k..] == Tables.EscapeBars(s[k..])
    requires DecimalSep(s[k])
    ensures e[k] == s[k] && e[k + 1..] == Tables.EscapeBars(s[k + 1..])
    ensures (k + 1 < |e| && DigitCh(e[k + 1])) <==> (k + 1 < |s| && DigitCh(s[k + 1]))
    ensures var j := RunLen(s[k + 1..], DigitCh);
      RunLen(e[k + 1..], DigitCh) == j && k + 1 + j <= |e| && e[..k + 1 + j] == s[..k + 1 + j] &&
      e[k + 1 + j..] == Tables.EscapeBars(s[k + 1 + j..])
  {
    hide Tables.EscapeBars, RunLen;
    var later := s[k + 1..];
    EscapeFirst(s[k..]);
    assert s[k..][1..] == later;
    assert e[k + 1..] == e[k..][1..] == Tables.EscapeBars(later);
    EscapeRun(later, DigitCh);
    var j := RunLen(later, DigitCh);
    assert e[..k + 1 + j] == e[..k] + [e[k]] + e[k + 1..][..j];
    assert s[..k + 1 + j] == s[..k] + [s[k]] + later[..j];
    assert e[k + 1 + j..] == e[k + 1..][j..] && s[k + 1 + j..] == later[j..];
    if later == [] {
      EscapeNothing();
    } else {
      EscapeFirst(later);
      assert e[k + 1] == e[k + 1..][0] && s[k + 1] == later[0];
    }
  }

  lemma {:induction false} EscapeMatch(s: Str)
    requires s != [] && s[0] != Tables.BAR && !s[0].Underscore?
    ensures var m, e := MatchLen(s), Tables.EscapeBars(s);
      e != [] && e[0] == s[0] && MatchLen(e) == m && m <= |e| && e[..m] == s[..m] &&
      e[m..] == Tables.EscapeBars(s[m..])
  {
    hide Tables.EscapeBars, RunLen, NumberLen;
    var e := Tables.EscapeBars(s);
    EscapeFirst(s);
    if ArabicCh(s[0]) {
      EscapeRun(s, ArabicCh);
    } else if WordCh(s[0]) {
      EscapeRun(s, WordCh);
    } else if DigitCh(s[0]) {
      EscapeNumber(s);
    } else if IsSpace(s[0]) {
      EscapeRun(s, IsSpace);
    } else {
      assert e[1..] == Tables.EscapeBars(s[1..]);
    }
  }

  lemma {:induction false} EscapeDropped(s: Str)
    ensures DropUnderscores(Tables.EscapeBars(s)) == Tables.EscapeBars(DropUnderscores(s))
  {
    if s != [] {
      var head := if s[0] == Tables.BAR then [Tables.BACKSLASH, Tables.BAR] else [s[0]];
      var rest := Tables.EscapeBars(s[1..]);
      EscapeDropped(s[1..]);
      assert Tables.EscapeBars(s) == head + rest;
      DropUnderscoresAppend(head, rest);
      if s[0].Underscore? {
        assert DropUnderscores(head) == [];
        assert DropUnderscores(s) == DropUnderscores(s[1..]);
      } else {
        assert UnderscoreFree(head);
        var d := DropUnderscores(s);
        assert d[0] == s[0] && d[1..] == DropUnderscores(s[1..]);
      }
    }
  }

  lemma {:induction false} EscapeToken(s: Str)
    requires s != [] && s[0] != Tables.BAR && !IsSpace(s[0]) && !s[0].Underscore?
    ensures var m, e := MatchLen(s), Tables.EscapeBars(s);
      e != [] && e[0] == s[0] && MatchLen(e) == m && m <= |e| && e[m..] == Tables.EscapeBars(s[m..]) &&
      MatchLen(DropUnderscores(e)) == MatchLen(DropUnderscores(s))
  {
    hide MatchLen, DropUnderscores, Tables.EscapeBars;
    DropAtMatch(s);
    EscapeMatch(s);
    EscapeMatch(DropUnderscores(s));
    EscapeDropped(s);
  }

  lemma {:induction false} EscapeFuses(s: Str)
    requires FusesNothing(s)
    ensures FusesNothing(Tables.EscapeBars(s))
    decreases |s|
  {
    hide MatchLen, DropUnderscores, Tables.EscapeBars;
    if s == [] {
      EscapeNothing();
    } else {
      var e, rest := Tables.EscapeBars(s), Tables.EscapeBars(s[1..]);
      EscapeFirst(s);
      if s[0] == Tables.BAR {
        assert s == [s[0]] + s[1..];
        SymbolFuses(s[0], s[1..]);
        EscapeFuses(s[1..]);
        assert e == [Tables.BACKSLASH] + ([Tables.BAR] + rest);
        SymbolFuses(Tables.BACKSLASH, [Tables.BAR] + rest);
        SymbolFuses(Tables.BAR, rest);
      } else if IsSpace(s[0]) || s[0].Underscore? {
        EscapeFuses(s[1..]);
        assert e[1..] == rest;
      } else {
        EscapeToken(s);
        EscapeFuses(s[MatchLen(s)..]);
      }
    }
  }

  lemma {:induction false} CellClean(s: Str)
    requires FusesNothing(s)
    ensures FusesNothing(Tables.Cell(s))
  {
    hide Strip, Tables.EscapeBars, FusesNothing;
    SameFuses(s, Tables.NewlinesToSpaces(s));
    EscapeFuses(Tables.NewlinesToSpaces(s));
    FusesStrip(Tables.EscapeBars(Tables.NewlinesToSpaces(s)));
  }

  // ----------------------------------------------------------------------------- tables

  ghost predicate CleanTable(t: Tables.Table)
  {
    NoneFuses(t.headers) && forall i :: 0 <= i < |t.rows| ==> NoneFuses(t.rows[i])
  }

  lemma {:induction false} DecimalClean(n: nat)
    ensures UnderscoreFree(Tables.Decimal(n))
  {
    if n >= 10 {
      DecimalClean(n / 10);
    }
  }

  lemma {:induction false} CellsClean(cells: Tables.Row)
    requires NoneFuses(cells)
    ensures FusesNothing(Join(Tables.CELL_SEP, cells))
  {
    hide FusesNothing;
    if cells == [] {
      BlankFusesNothing([]);
    } else if |cells| > 1 {
      var rest := Join(Tables.CELL_SEP, cells[1..]);
      CellsClean(cells[1..]);
      assert Join(Tables.CELL_SEP, cells) == cells[0] + [BLANK] + ([Tables.BAR] + ([BLANK] + rest));
      FusesAround(cells[0], [BLANK], [Tables.BAR] + ([BLANK] + rest));
      SymbolFuses(Tables.BAR, [BLANK] + rest);
      SkipBlank([BLANK], rest);
    }
  }

  lemma {:induction false} LineClean(cells: Tables.Row)
    requires NoneFuses(cells)
    ensures FusesNothing(Tables.Line(cells))
  {
    hide Join, FusesNothing;
    var body := Join(Tables.CELL_SEP, cells);
    CellsClean(cells);
    assert Tables.Line(cells) == [Tables.BAR] + ([BLANK] + (body + [BLANK] + [Tables.BAR]));
    SymbolFuses(Tables.BAR, [BLANK] + (body + [BLANK] + [Tables.BAR]));
    SkipBlank([BLANK], body + [BLANK] + [Tables.BAR]);
    FusesAround(body, [BLANK], [Tables.BAR]);
    UnderscoreFreeStaysPut([Tables.BAR]);
  }

  lemma {:induction false} HeaderClean(headers: Tables.Row, width: nat)
    requires NoneFuses(headers) && (headers != [] ==> width == |headers|)
    ensures NoneFuses(Tables.HeaderCells(headers, width))
  {
    hide Tables.Cell, Tables.Decimal, FusesNothing;
    forall i | 0 <= i < width ensures FusesNothing(Tables.HeaderCells(headers, width)[i]) {
      if headers != [] {
        CellClean(headers[i]);
      } else {
        DecimalClean(i + 1);
        UnderscoreFreeStaysPut(Tables.HeaderCells(headers, width)[i]);
      }
    }
  }

  lemma {:induction false} RowClean(row: Tables.Row, width: nat)
    requires NoneFuses(row)
    ensures NoneFuses(Tables.RowCells(row, width))
  {
    hide Tables.Cell, FusesNothing;
    BlankFusesNothing([]);
    forall i | 0 <= i < width ensures FusesNothing(Tables.RowCells(row, width)[i]) {
      if i < |row| {
        CellClean(row[i]);
      }
    }
  }

  lemma {:induction false} RenderClean(headers: Tables.Row, rows: seq<Tables.Row>)
    requires NoneFuses(headers) && forall i :: 0 <= i < |rows| ==> NoneFuses(rows[i])
    ensures FusesNothing(Tables.Render(headers, rows))
  {
    hide Tables.Line, Tables.HeaderCells, Tables.RowCells, Join, FusesNothing;
    if headers == [] && rows == [] {
      BlankFusesNothing([]);
    } else {
      var width := Tables.Width(headers, rows);
      var head, body := Tables.HeadLines(headers, width), Tables.RowLines(rows, width);
      HeaderClean(headers, width);
      LineClean(Tables.HeaderCells(headers, width));
      DashesClean(width);
      forall i | 0 <= i < |body| ensures FusesNothing(body[i]) {
        RowClean(rows[i], width);
        LineClean(Tables.RowCells(rows[i], width));
      }
      NoneFusesAppend(head, body);
      FusesJoin([NEWLINE], head + body);
    }
  }

  lemma {:induction false} DashesClean(width: nat)
    ensures FusesNothing(Tables.Line(seq(width, _ => Tables.DASHES)))
  {
    hide FusesNothing;
    UnderscoreFreeStaysPut(Tables.DASHES);
    LineClean(seq(width, _ => Tables.DASHES));
  }
}
