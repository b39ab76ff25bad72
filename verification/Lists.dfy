/** List blocks: packed by lines, never broken inside a line. */
module Lists {
  import opened Text
  import opened Lexer
  import opened Tokenizer
  import opened Splitting
  import opened Items
  import opened Packing

  predicate FitsLines(cfg: ChunkingConfig, lines: seq<Str>)
  {
    Count(Join([NEWLINE], lines)) <= cfg.targetTokens && |Join([NEWLINE], lines)| <= cfg.maxChars
  }

  function Fits(cfg: ChunkingConfig): seq<Str> -> bool { lines => FitsLines(cfg, lines) }

  /** The item lines of a list. */
  function ItemLines(text: Str): (r: seq<Str>) { NonBlank(SplitOn([NEWLINE], text)) }

  function JoinBlocks(blocks: seq<seq<Str>>): (r: seq<Str>)
    ensures |r| == |blocks|
    ensures forall i :: 0 <= i < |r| ==> r[i] == Join([NEWLINE], blocks[i])
  {
    if blocks == [] then [] else [Join([NEWLINE], blocks[0])] + JoinBlocks(blocks[1..])
  }

  function ListPieces(cfg: ChunkingConfig, text: Str): (r: seq<Str>)
  {
    var t := Strip(text);
    if t == [] then []
    else if Count(t) <= cfg.targetTokens && |t| <= cfg.maxChars then [t]
    else JoinBlocks(Greedy([], ItemLines(t), Fits(cfg)))
  }

  function BlockItems(blocks: seq<seq<Str>>, origin: Origin): (r: seq<RawItem>)
  {
    Wrap(JoinBlocks(blocks), LIST, origin)
  }

  lemma BlockItemsCons(block: seq<Str>, blocks: seq<seq<Str>>, origin: Origin)
    ensures BlockItems([block] + blocks, origin) ==
            [NewItem(Join([NEWLINE], block), LIST, origin)] + BlockItems(blocks, origin)
  {
    hide NewItem, Join;
    assert ([block] + blocks)[1..] == blocks;
    WrapAppend([Join([NEWLINE], block)], JoinBlocks(blocks), LIST, origin);
    WrapOne(Join([NEWLINE], block), LIST, origin);
  }

  /** The items still to come when `open` is waiting to be emitted. */
  function LinesItems(cfg: ChunkingConfig, lines: seq<Str>, open: seq<Str>, origin: Origin): (r: seq<RawItem>)
  {
    BlockItems(Greedy(open, lines, Fits(cfg)), origin)
  }

  lemma {:induction false} LinesItemsStep(
      cfg: ChunkingConfig, lines: seq<Str>, i: nat, open: seq<Str>, origin: Origin)
    requires i < |lines|
    ensures LinesItems(cfg, lines[i..], open, origin) ==
      if open != [] && !FitsLines(cfg, open + [lines[i]])
      then [NewItem(Join([NEWLINE], open), LIST, origin)] + LinesItems(cfg, lines[i + 1..], [lines[i]], origin)
      else LinesItems(cfg, lines[i + 1..], open + [lines[i]], origin)
  {
    hide NewItem, Join, FitsLines, BlockItems, Greedy;
    GreedyStep(open, lines, i, Fits(cfg));
    BlockItemsCons(open, Greedy([lines[i]], lines[i + 1..], Fits(cfg)), origin);
  }

  lemma {:induction false} LinesItemsEnd(cfg: ChunkingConfig, open: seq<Str>, origin: Origin)
    ensures LinesItems(cfg, [], open, origin) ==
      if open == [] then [] else [NewItem(Join([NEWLINE], open), LIST, origin)]
  {
    hide NewItem, Join;
    if open != [] {
      BlockItemsCons(open, [], origin);
      assert [open] + [] == [open];
    }
  }

  method ChunkList(cfg: ChunkingConfig, block: Str, origin: Origin) returns (chunks: seq<RawItem>)
    ensures chunks == Wrap(ListPieces(cfg, block), LIST, origin)
  {
    hide Strip, Count, Join, ItemLines, Greedy, JoinBlocks, Wrap, NewItem, LinesItems;
    var text := Strip(block);
    if text == [] {
      return [];
    }
    var tokens := CountTokens(text);
    if tokens <= cfg.targetTokens && |text| <= cfg.maxChars {
      WrapOne(text, LIST, origin);
      return [NewItem(text, LIST, origin)];
    }
    var items := ItemLines(text);
    chunks := [];
    var current: seq<Str> := [];
    ghost var all := LinesItems(cfg, items, [], origin);
    SplitItems(cfg, block, origin);
    assert items[0..] == items;
    for i := 0 to |items|
      invariant chunks + LinesItems(cfg, items[i..], current, origin) == all
    {
      var test := Join([NEWLINE], current + [items[i]]);
      var testTokens := CountTokens(test);
      LinesItemsStep(cfg, items, i, current, origin);
      if current != [] && (testTokens > cfg.targetTokens || |test| > cfg.maxChars) {
        chunks := chunks + [NewItem(Join([NEWLINE], current), LIST, origin)];
        current := [items[i]];
      } else {
        current := current + [items[i]];
      }
    }
    assert items[|items|..] == [];
    LinesItemsEnd(cfg, current, origin);
    if current != [] {
      chunks := chunks + [NewItem(Join([NEWLINE], current), LIST, origin)];
    }
  }

  lemma {:induction false} SplitItems(cfg: ChunkingConfig, block: Str, origin: Origin)
    requires var t := Strip(block); t != [] && (Count(t) > cfg.targetTokens || |t| > cfg.maxChars)
    ensures Wrap(ListPieces(cfg, block), LIST, origin) == LinesItems(cfg, ItemLines(Strip(block)), [], origin)
  {
    hide Strip, Count, Wrap, ItemLines, Greedy, JoinBlocks;
  }

  // ---------------------------------------------------------------- optimal packing

  lemma FitsHereditary(cfg: ChunkingConfig)
    ensures Hereditary(Fits(cfg))
  {
    hide Count, Join, TotalCount, SumLen;
    var fits := Fits(cfg);
    forall b: seq<Str>, i, j | 0 <= i < j <= |b| && fits(b)
      ensures fits(b[i..j])
    {
      CountJoin([NEWLINE], b);
      CountJoin([NEWLINE], b[i..j]);
      JoinLength([NEWLINE], b);
      JoinLength([NEWLINE], b[i..j]);
      TotalsPart(b, i, j);
    }
  }

  /** When a list is split, no order-preserving split of its lines into single lines and
      blocks within the token and character limits has fewer chunks. */
  lemma SplittingIsOptimal(cfg: ChunkingConfig, text: Str, rival: seq<seq<Str>>)
    requires ItemLines(Strip(text)) != []
    requires Partition(rival, ItemLines(Strip(text)), Fits(cfg))
    ensures |ListPieces(cfg, text)| <= |rival|
  {
    hide ItemLines, Strip, Count, Join;
    FitsHereditary(cfg);
    GreedyIsOptimal(ItemLines(Strip(text)), rival, Fits(cfg));
  }

  ghost predicate WithinLimits(cfg: ChunkingConfig, p: Str)
  {
    Count(p) <= cfg.targetTokens && |p| <= cfg.maxChars
  }

  lemma BlocksWithinLimits(cfg: ChunkingConfig, blocks: seq<seq<Str>>, lines: seq<Str>)
    requires Partition(blocks, lines, Fits(cfg))
    requires forall l :: l in lines ==> !IsBlank(l)
    ensures forall p :: p in JoinBlocks(blocks) ==>
              !IsBlank(p) && (p in lines || WithinLimits(cfg, p))
  {
    hide Count, Join, IsBlank;
    forall p | p in JoinBlocks(blocks)
      ensures !IsBlank(p) && (p in lines || WithinLimits(cfg, p))
    {
      var i :| 0 <= i < |blocks| && p == Join([NEWLINE], blocks[i]);
      assert Admissible(blocks[i], Fits(cfg));
      FlattenMembers(blocks, i);
      assert blocks[i][0] in lines;
      JoinNotBlank(blocks[i]);
      if |blocks[i]| == 1 {
        JoinOne(blocks[i]);
      }
    }
  }

  /** The pieces of a list carry exactly its tokens, in order, whatever the text; none is
      blank, and every piece is a single item line or within both limits. */
  lemma ListConserves(cfg: ChunkingConfig, text: Str)
    ensures Contents(ListPieces(cfg, text)) == Content(text)
    ensures forall p :: p in ListPieces(cfg, text) ==>
              !IsBlank(p) && (p in ItemLines(Strip(text)) || WithinLimits(cfg, p))
  {
    hide Strip, Count, Join, Content;
    var t := Strip(text);
    var _, _ := StripSplits(text);
    ContentStrip(text);
    if t == [] {
      ContentOfBlank(t);
    } else if Count(t) <= cfg.targetTokens && |t| <= cfg.maxChars {
      assert Contents([t]) == Content(t) + Contents([]);
      StripNotBlank(t);
    } else {
      var lines := ItemLines(t);
      var blocks := Greedy([], lines, Fits(cfg));
      GreedyIsPartition([], lines, Fits(cfg));
      assert [] + lines == lines;
      ContentsOfBlocks(blocks);
      ContentSplit([NEWLINE], t);
      ContentsNonBlank(SplitOn([NEWLINE], t));
      BlocksWithinLimits(cfg, blocks, lines);
    }
  }

  /** A list is split into pieces within a token limit, the code's own or more, if and only if
      every line of it is. */
  lemma {:induction false} ListWithinExactly(cfg: ChunkingConfig, text: Str, limit: nat)
    requires cfg.targetTokens <= limit
    ensures (forall p :: p in ListPieces(cfg, text) ==> Count(p) <= limit) <==>
            forall l :: l in ItemLines(Strip(text)) ==> Count(l) <= limit
  {
    hide Strip, Count, Join, Content, ItemLines, Greedy, JoinBlocks;
    var t := Strip(text);
    var lines := ItemLines(t);
    LinesSmaller(t);
    if t == [] {
      NoLines();
    } else if !(Count(t) <= cfg.targetTokens && |t| <= cfg.maxChars) {
      var blocks := Greedy([], lines, Fits(cfg));
      GreedyIsPartition([], lines, Fits(cfg));
      assert [] + lines == lines;
      LinesNotBlank(t);
      BlocksWithinLimits(cfg, blocks, lines);
      forall l | l in lines && forall p :: p in JoinBlocks(blocks) ==> Count(p) <= limit
        ensures Count(l) <= limit
      {
        LineInPiece(cfg, blocks, lines, l);
      }
    }
  }

  lemma {:induction false} NoLines()
    ensures ItemLines([]) == []
  {
    var parts := SplitOn([NEWLINE], []);
    var empty: Str := [];
    assert parts == [empty] && IsBlank(parts[0]) && parts[1..] == [];
    assert NonBlank(parts) == [] + NonBlank(parts[1..]);
  }

  lemma {:induction false} LinesNotBlank(t: Str)
    ensures forall l :: l in ItemLines(t) ==> !IsBlank(l)
  {
  }

  /** No line costs more than the list. */
  lemma {:induction false} LinesSmaller(t: Str)
    ensures forall l :: l in ItemLines(t) ==> Count(l) <= Count(t)
  {
    hide Count;
    var parts := SplitOn([NEWLINE], t);
    JoinSplit([NEWLINE], t);
    CountJoin([NEWLINE], parts);
    forall l | l in ItemLines(t) ensures Count(l) <= Count(t) {
      var i :| 0 <= i < |parts| && parts[i] == l;
      CountMember(parts, i);
    }
  }

  /** Some piece costs at least as much as the line. */
  lemma {:induction false} LineInPiece(cfg: ChunkingConfig, blocks: seq<seq<Str>>, lines: seq<Str>, l: Str)
    requires Partition(blocks, lines, Fits(cfg)) && l in lines
    ensures exists p :: p in JoinBlocks(blocks) && Count(l) <= Count(p)
  {
    hide Count, Join, TotalCount;
    BlockWith(blocks, l);
    var i :| 0 <= i < |blocks| && l in blocks[i];
    var k :| 0 <= k < |blocks[i]| && blocks[i][k] == l;
    CountJoin([NEWLINE], blocks[i]);
    CountMember(blocks[i], k);
    assert JoinBlocks(blocks)[i] == Join([NEWLINE], blocks[i]);
    assert Join([NEWLINE], blocks[i]) in JoinBlocks(blocks);
  }

  /** A list yields nothing if and only if it is blank. */
  lemma {:induction false} NoPiecesExactly(cfg: ChunkingConfig, text: Str)
    ensures ListPieces(cfg, text) == [] <==> IsBlank(text)
  {
    hide Strip, Count, Join, Greedy, IsBlank;
    var t := Strip(text);
    var _, _ := StripSplits(text);
    if t == [] {
      StripSplitsBlank(text);
    } else {
      StripNotBlank(t);
      var parts := SplitOn([NEWLINE], t);
      var lines := ItemLines(t);
      GreedyIsPartition([], lines, Fits(cfg));
      assert [] + lines == lines;
      if lines == [] {
        JoinSplit([NEWLINE], t);
        AllBlankJoin(parts);
        assert false;
      }
    }
  }

  lemma {:induction false} StripSplitsBlank(text: Str)
    ensures Strip(text) == [] <==> IsBlank(text)
  {
    var _, _ := StripSplits(text);
  }

  lemma {:induction false} AllBlankJoin(parts: seq<Str>)
    requires NonBlank(parts) == []
    ensures IsBlank(Join([NEWLINE], parts))
  {
    if parts != [] {
      AllBlankJoin(parts[1..]);
    }
  }

  lemma StripNotBlank(t: Str)
    requires t != [] && Stripped(t)
    ensures !IsBlank(t)
  {
    assert !IsSpace(t[0]);
  }

  lemma JoinOne(lines: seq<Str>)
    requires |lines| == 1
    ensures Join([NEWLINE], lines) == lines[0]
  {
  }

  lemma JoinNotBlank(lines: seq<Str>)
    requires lines != [] && !IsBlank(lines[0])
    ensures !IsBlank(Join([NEWLINE], lines))
  {
    var i :| 0 <= i < |lines[0]| && !IsSpace(lines[0][i]);
    assert Join([NEWLINE], lines)[i] == lines[0][i];
  }

  lemma {:induction false} ContentsOfBlocks(blocks: seq<seq<Str>>)
    ensures Contents(JoinBlocks(blocks)) == Contents(Flatten(blocks))
  {
    hide Join, Content;
    if blocks != [] {
      ContentsOfBlocks(blocks[1..]);
      ContentJoin([NEWLINE], blocks[0]);
      ContentsAppend(blocks[0], Flatten(blocks[1..]));
      assert JoinBlocks(blocks)[1..] == JoinBlocks(blocks[1..]);
    }
  }
}
