/** What merging and deduplication keep. */
module PipelineLaws {
  import opened Text
  import opened Lexer
  import opened Splitting
  import opened Items
  import opened Packing
  import opened Hierarchy
  import opened Pipeline

  // --------------------------------------------------------------------------- merging

  function OnlyTables(items: seq<RawItem>): (r: seq<RawItem>)
  {
    if items == [] then []
    else (if items[0].kind == TABLE then [items[0]] else []) + OnlyTables(items[1..])
  }

  lemma CompositeContent(a: RawItem, b: RawItem)
    ensures Content(Composite(a, b).content) == Content(a.content) + Content(b.content)
  {
    hide Content, Strip;
    ContentStrip(MergedContent(a, b));
    ContentAround(a.content, PARENT_SEP, b.content);
  }

  /** Merging keeps every token, in order, and every table item as it is. */
  lemma {:induction false} MergingConserves(cfg: ChunkingConfig, items: seq<RawItem>)
    ensures Contents(ContentsOf(Merged(cfg, items))) == Contents(ContentsOf(items))
    ensures OnlyTables(Merged(cfg, items)) == OnlyTables(items)
    decreases |items|
  {
    hide Content, Mergeable, Composite, Contents, ContentsOf, OnlyTables;
    if items != [] {
      if |items| >= 2 && Mergeable(cfg, items[0], items[1]) {
        var a, b, rest := items[0], items[1], items[2..];
        MergingConserves(cfg, rest);
        PairConserves(cfg, a, b, rest, Merged(cfg, rest));
        assert items == [a, b] + rest;
      } else {
        MergingConserves(cfg, items[1..]);
        ContentsOfOne(items[0], Merged(cfg, items[1..]));
        ContentsOfOne(items[0], items[1..]);
        assert items == [items[0]] + items[1..];
      }
    }
  }

  /** A merged pair in front of items that carry the same. */
  lemma {:induction false} PairConserves(
      cfg: ChunkingConfig, a: RawItem, b: RawItem, rest: seq<RawItem>, merged: seq<RawItem>)
    requires Mergeable(cfg, a, b) && Contents(ContentsOf(merged)) == Contents(ContentsOf(rest))
    requires OnlyTables(merged) == OnlyTables(rest)
    ensures Contents(ContentsOf([Composite(a, b)] + merged)) == Contents(ContentsOf([a, b] + rest))
    ensures OnlyTables([Composite(a, b)] + merged) == OnlyTables([a, b] + rest)
  {
    hide Content, Contents, ContentsOf, OnlyTables, MergedContent, Count;
    CompositeContent(a, b);
    ContentsOfTwo(a, b, rest);
    ContentsOfOne(Composite(a, b), merged);
    ContentsOfOne(a, [b] + rest);
    ContentsOfOne(b, rest);
    assert [a, b] + rest == [a] + ([b] + rest);
  }

  lemma ContentsOfOne(a: RawItem, rest: seq<RawItem>)
    ensures Contents(ContentsOf([a] + rest)) == Content(a.content) + Contents(ContentsOf(rest))
    ensures OnlyTables([a] + rest) == (if a.kind == TABLE then [a] else []) + OnlyTables(rest)
  {
    hide Content;
    assert ([a] + rest)[1..] == rest;
    assert ContentsOf([a] + rest)[1..] == ContentsOf(rest);
  }

  lemma ContentsOfTwo(a: RawItem, b: RawItem, rest: seq<RawItem>)
    ensures Contents(ContentsOf([a, b] + rest)) ==
            Content(a.content) + Content(b.content) + Contents(ContentsOf(rest))
  {
    hide Content, Contents, ContentsOf;
    assert [a, b] + rest == [a] + ([b] + rest);
    ContentsOfOne(a, [b] + rest);
    ContentsOfOne(b, rest);
  }

  /** `m` joins two neighbouring items, neither a table, and stays within the soft limits. */
  ghost predicate JoinsNeighbours(cfg: ChunkingConfig, m: RawItem, items: seq<RawItem>, j: nat)
    requires 1 <= j < |items|
  {
    m == Composite(items[j - 1], items[j]) &&
    items[j - 1].kind != TABLE && items[j].kind != TABLE &&
    Count(m.content) <= cfg.targetTokens && |m.content| <= cfg.maxChars
  }

  lemma CompositeWithin(cfg: ChunkingConfig, a: RawItem, b: RawItem)
    requires Mergeable(cfg, a, b)
    ensures Count(Composite(a, b).content) <= cfg.targetTokens
    ensures |Composite(a, b).content| <= cfg.maxChars
  {
    hide Content, SumCost;
    ContentStrip(MergedContent(a, b));
    Blocks.StripLength(MergedContent(a, b));
  }

  /** Every item after merging is an item from before, or two neighbours joined. */
  lemma {:induction false} MergedOrigins(cfg: ChunkingConfig, items: seq<RawItem>, m: RawItem)
    requires m in Merged(cfg, items)
    ensures m in items || exists j :: 1 <= j < |items| && JoinsNeighbours(cfg, m, items, j)
    decreases |items|
  {
    hide Composite, MergedContent, Count;
    if |items| >= 2 && Mergeable(cfg, items[0], items[1]) {
      if m == Composite(items[0], items[1]) {
        CompositeWithin(cfg, items[0], items[1]);
        assert JoinsNeighbours(cfg, m, items, 1);
      } else {
        MergedOrigins(cfg, items[2..], m);
        if m !in items {
          var j :| 1 <= j < |items[2..]| && JoinsNeighbours(cfg, m, items[2..], j);
          assert items[2..][j] == items[j + 2] && items[2..][j - 1] == items[j + 1];
          assert JoinsNeighbours(cfg, m, items, j + 2);
        }
      }
    } else if m != items[0] {
      MergedOrigins(cfg, items[1..], m);
      if m !in items {
        var j :| 1 <= j < |items[1..]| && JoinsNeighbours(cfg, m, items[1..], j);
        assert items[1..][j] == items[j + 1] && items[1..][j - 1] == items[j];
        assert JoinsNeighbours(cfg, m, items, j + 1);
      }
    }
  }

  /** What merging makes of a group: the item itself, or the composite of two. */
  ghost predicate MergesTo(cfg: ChunkingConfig, group: seq<RawItem>, m: RawItem)
  {
    (|group| == 1 && m == group[0]) ||
    (|group| == 2 && Mergeable(cfg, group[0], group[1]) && JoinsNeighbours(cfg, m, group, 1))
  }

  lemma PairJoins(cfg: ChunkingConfig, items: seq<RawItem>, group: seq<RawItem>)
    requires |items| >= 2 && group == items[..2] && Mergeable(cfg, items[0], items[1])
    ensures JoinsNeighbours(cfg, Composite(items[0], items[1]), group, 1)
  {
    hide Composite, MergedContent, Count;
    CompositeWithin(cfg, items[0], items[1]);
  }

  /** An item left alone could not have been joined with the item after it. */
  ghost predicate LeftAlone(cfg: ChunkingConfig, groups: seq<seq<RawItem>>, j: nat)
    requires 1 <= j < |groups|
  {
    |groups[j - 1]| == 1 && groups[j] != [] ==> !Mergeable(cfg, groups[j - 1][0], groups[j][0])
  }

  /** Merging partitions the items, in order, into groups of one or two, yields one item per
      group, and leaves no mergeable pair unmerged. */
  lemma {:induction false} MergingPartitions(cfg: ChunkingConfig, items: seq<RawItem>)
    returns (groups: seq<seq<RawItem>>)
    ensures Flatten(groups) == items && |groups| == |Merged(cfg, items)|
    ensures forall i :: 0 <= i < |groups| ==> MergesTo(cfg, groups[i], Merged(cfg, items)[i])
    ensures forall j :: 1 <= j < |groups| ==> LeftAlone(cfg, groups, j)
    decreases |items|
  {
    hide Composite, MergedContent, Count, JoinsNeighbours;
    if items == [] {
      groups := [];
    } else {
      var pair := |items| >= 2 && Mergeable(cfg, items[0], items[1]);
      var group := if pair then items[..2] else items[..1];
      if pair {
        PairJoins(cfg, items, group);
      }
      var rest := MergingPartitions(cfg, items[|group|..]);
      groups := [group] + rest;
      if rest != [] {
        assert MergesTo(cfg, rest[0], Merged(cfg, items[|group|..])[0]);
        assert rest[0][0] == Flatten(rest)[0] == items[|group|];
      }
      forall j | 1 <= j < |groups| ensures LeftAlone(cfg, groups, j) {
        if j > 1 {
          assert LeftAlone(cfg, rest, j - 1);
        }
      }
    }
  }

  /** An item over the target is never merged away. */
  lemma {:induction false} LargeSurvives(cfg: ChunkingConfig, items: seq<RawItem>, x: RawItem)
    requires x in items && Count(x.content) > cfg.targetTokens
    ensures x in Merged(cfg, items)
    decreases |items|
  {
    hide Composite, Count, MergedContent;
    if |items| >= 2 && Mergeable(cfg, items[0], items[1]) {
      PairIsSmall(cfg, items[0], items[1]);
      assert items == [items[0], items[1]] + items[2..];
      LargeSurvives(cfg, items[2..], x);
    } else if x != items[0] {
      LargeSurvives(cfg, items[1..], x);
    }
  }

  lemma {:induction false} PairIsSmall(cfg: ChunkingConfig, a: RawItem, b: RawItem)
    requires Mergeable(cfg, a, b)
    ensures Count(a.content) <= cfg.targetTokens && Count(b.content) <= cfg.targetTokens
  {
    hide Content, SumCost;
    ContentAround(a.content, PARENT_SEP, b.content);
  }

  // --------------------------------------------------------------------- deduplication

  /** `items` holds an item of this key. */
  predicate HasKey(items: seq<RawItem>, k: Key)
  {
    exists j :: 0 <= j < |items| && KeyOf(items[j]) == k
  }

  /** The items no earlier item shares its key with. */
  function KeepFirst(items: seq<RawItem>): (r: seq<RawItem>)
  {
    if items == [] then []
    else
      var front, last := items[..|items| - 1], items[|items| - 1];
      KeepFirst(front) + if HasKey(front, KeyOf(last)) then [] else [last]
  }

  lemma {:induction false} FirstsSnoc(items: seq<RawItem>, x: RawItem, seen: set<Key>)
    ensures Firsts(items + [x], seen) ==
      Firsts(items, seen) + if KeyOf(x) in seen || HasKey(items, KeyOf(x)) then [] else [x]
    decreases |items|
  {
    hide KeyOf;
    var all := items + [x];
    if items == [] {
      assert all[1..] == [];
    } else {
      var head := KeyOf(items[0]);
      assert all[1..] == items[1..] + [x];
      HasKeySplit(items, KeyOf(x));
      FirstsSnoc(items[1..], x, if head in seen then seen else seen + {head});
    }
  }

  lemma HasKeySplit(items: seq<RawItem>, k: Key)
    requires items != []
    ensures HasKey(items, k) <==> KeyOf(items[0]) == k || HasKey(items[1..], k)
  {
    hide KeyOf;
    if HasKey(items, k) && KeyOf(items[0]) != k {
      var j :| 0 <= j < |items| && KeyOf(items[j]) == k;
      assert items[1..][j - 1] == items[j];
    }
    if HasKey(items[1..], k) {
      var j :| 0 <= j < |items[1..]| && KeyOf(items[1..][j]) == k;
      assert items[j + 1] == items[1..][j];
    }
  }

  lemma {:induction false} NoFirsts()
    ensures Firsts([], {}) == []
  {
  }

  /** Deduplication keeps exactly the first item of each key. */
  lemma {:induction false} DedupKeepsFirst(items: seq<RawItem>)
    ensures Firsts(items, {}) == KeepFirst(items)
    decreases |items|
  {
    hide Firsts, KeyOf, HasKey;
    if items == [] {
      NoFirsts();
    } else {
      var front, last := items[..|items| - 1], items[|items| - 1];
      DedupKeepsFirst(front);
      FirstsSnoc(front, last, {});
      assert items == front + [last];
    }
  }

  ghost predicate DistinctKeys(items: seq<RawItem>)
  {
    forall i, j :: 0 <= i < j < |items| ==> KeyOf(items[i]) != KeyOf(items[j])
  }

  lemma {:induction false} FirstsDistinct(items: seq<RawItem>, seen: set<Key>)
    ensures DistinctKeys(Firsts(items, seen))
    ensures forall i :: 0 <= i < |Firsts(items, seen)| ==>
              KeyOf(Firsts(items, seen)[i]) !in seen && Firsts(items, seen)[i] in items
    decreases |items|
  {
    hide KeyOf;
    if items != [] {
      var head := KeyOf(items[0]);
      FirstsDistinct(items[1..], if head in seen then seen else seen + {head});
    }
  }

  lemma {:induction false} FirstsOfDistinct(items: seq<RawItem>, seen: set<Key>)
    requires DistinctKeys(items)
    requires forall i :: 0 <= i < |items| ==> KeyOf(items[i]) !in seen
    ensures Firsts(items, seen) == items
    decreases |items|
  {
    hide KeyOf;
    if items != [] {
      FirstsOfDistinct(items[1..], seen + {KeyOf(items[0])});
    }
  }

  /** Deduplicating twice is deduplicating once, and no two survivors share a key. */
  lemma DedupIdempotent(items: seq<RawItem>)
    ensures DistinctKeys(Firsts(items, {}))
    ensures Firsts(Firsts(items, {}), {}) == Firsts(items, {})
  {
    FirstsDistinct(items, {});
    FirstsOfDistinct(Firsts(items, {}), {});
  }

  /** Some survivor has the item's key. */
  lemma {:induction false} KeySurvives(items: seq<RawItem>, seen: set<Key>, x: RawItem)
    requires x in items && KeyOf(x) !in seen
    ensures exists y :: y in Firsts(items, seen) && KeyOf(y) == KeyOf(x)
    decreases |items|
  {
    hide KeyOf;
    var head := KeyOf(items[0]);
    if head == KeyOf(x) {
      assert items[0] in Firsts(items, seen);
    } else {
      assert x in items[1..];
      KeySurvives(items[1..], if head in seen then seen else seen + {head}, x);
    }
  }

  // ------------------------------------------------------------- what a key says of a text

  lemma {:induction false} CollapseWord(w: Str, rest: Str)
    requires forall i :: 0 <= i < |w| ==> !IsSpace(w[i])
    ensures Collapse(w + rest) == w + Collapse(rest)
  {
    if w == [] {
      assert w + rest == rest;
    } else {
      assert (w + rest)[1..] == w[1..] + rest;
      CollapseWord(w[1..], rest);
    }
  }

  lemma {:induction false} CollapseStart(s: Str)
    ensures Collapse(s) == [] || s == [] || IsSpace(Collapse(s)[0]) == IsSpace(s[0])
  {
  }

  /** Collapsing whitespace neither adds, drops nor changes a token. */
  lemma {:induction false} CollapseContent(s: Str)
    ensures Content(Collapse(s)) == Content(s)
    decreases |s|
  {
    hide Content, LStrip;
    if s == [] {
    } else if IsSpace(s[0]) {
      var rest := LStrip(s[1..]);
      LeadingBlank(s);
      CollapseContent(rest);
      ContentSkipBlank([BLANK], Collapse(rest));
    } else {
      var n := RunLen(s, NotSpace);
      var w, rest := s[..n], s[n..];
      RunAtLeastOne(s);
      assert s == w + rest;
      CollapseWord(w, rest);
      CollapseStart(rest);
      CollapseContent(rest);
      ContentAppend(w, rest);
      ContentAppend(w, Collapse(rest));
    }
  }

  predicate NotSpace(ch: Ch) { !IsSpace(ch) }

  lemma {:induction false} RunAtLeastOne(s: Str)
    requires s != [] && !IsSpace(s[0])
    ensures RunLen(s, NotSpace) > 0
  {
  }

  lemma {:induction false} LeadingBlank(s: Str)
    requires s != [] && IsSpace(s[0])
    ensures |LStrip(s[1..])| < |s| && Content(LStrip(s[1..])) == Content(s)
  {
    hide Content;
    var n := RunLen(s[1..], IsSpace);
    var blank := s[..n + 1];
    assert forall i :: 1 <= i < |blank| ==> blank[i] == s[1..][i - 1];
    assert s == blank + LStrip(s[1..]);
    ContentSkipBlank(blank, LStrip(s[1..]));
  }

  /** Items with equal keys have equal token counts. */
  lemma {:induction false} SameKeySameCount(a: RawItem, b: RawItem)
    requires KeyOf(a) == KeyOf(b)
    ensures Count(a.content) == Count(b.content)
  {
    hide Content, Strip, Collapse;
    CollapseContent(a.content);
    CollapseContent(b.content);
    ContentStrip(Collapse(a.content));
    ContentStrip(Collapse(b.content));
  }
}
