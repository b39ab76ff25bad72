/** Which items deduplication drops and which ones merging joins, told by what the items show. */
module Duplicates {
  import opened Wrappers
  import opened Text
  import opened Lexer
  import opened Sentences
  import opened SentenceLaws
  import opened Splitting
  import opened Items
  import opened Hierarchy
  import opened Pipeline
  import opened PipelineLaws

  // -------------------------------------------------------------------- normalised texts

  /** Words are not empty and hold no whitespace. */
  ghost predicate AreWords(words: seq<Str>)
  {
    forall i :: 0 <= i < |words| ==> words[i] != [] && forall k :: 0 <= k < |words[i]| ==> !IsSpace(words[i][k])
  }

  lemma {:induction false} WordsAreWords(s: Str)
    ensures AreWords(Words(s))
    decreases |s|
  {
    if s != [] {
      if IsSpace(s[0]) {
        WordsAreWords(s[1..]);
      } else {
        WordsAreWords(s[RunLen(s, InkCh)..]);
      }
    }
  }

  /** Splitting a text at whitespace undoes joining words with blanks. */
  lemma {:induction false} WordsOfJoin(words: seq<Str>)
    requires AreWords(words)
    ensures Words(Join([BLANK], words)) == words
  {
    hide Words;
    if words == [] {
      NoWords();
    } else if |words| == 1 {
      NoWords();
      WordsOfWord(words[0], []);
      assert words[0] + [] == words[0];
    } else {
      var rest := Join([BLANK], words[1..]);
      WordsOfJoin(words[1..]);
      assert Join([BLANK], words) == words[0] + ([BLANK] + rest);
      WordsOfWord(words[0], [BLANK] + rest);
      WordsSkip([BLANK], rest);
    }
  }

  lemma {:induction false} JoinCons(word: Str, words: seq<Str>)
    requires words != []
    ensures Join([BLANK], [word] + words) == word + [BLANK] + Join([BLANK], words)
  {
    assert ([word] + words)[1..] == words;
  }

  /** Collapsed text that starts with ink is its words, and perhaps one blank more. */
  lemma {:induction false} CollapseWords(s: Str)
    requires s != [] && !IsSpace(s[0])
    ensures Words(s) != []
    ensures Collapse(s) == Join([BLANK], Words(s)) || Collapse(s) == Join([BLANK], Words(s)) + [BLANK]
    decreases |s|
  {
    hide Words, Collapse, LStrip;
    RunFrom(s, 0, InkCh);
    assert s[0..] == s;
    FirstIsInk(s);
    var n := RunLen(s, InkCh);
    var w, rest := s[..n], s[n..];
    assert s == w + rest;
    NoWords();
    CollapseNothing();
    WordsOfWord(w, rest);
    CollapseWord(w, rest);
    if rest != [] {
      var later := LStrip(rest[1..]);
      CollapseBlank(rest);
      WordsLater(rest);
      if later != [] {
        CollapseWords(later);
        JoinCons(w, Words(later));
      }
    }
  }

  lemma {:induction false} CollapseNothing()
    ensures Collapse([]) == [] && Join([BLANK], []) == []
  {
  }

  lemma {:induction false} CollapseBlank(s: Str)
    requires s != [] && IsSpace(s[0])
    ensures Collapse(s) == [BLANK] + Collapse(LStrip(s[1..]))
    ensures |LStrip(s[1..])| < |s|
    ensures LStrip(s[1..]) == [] || !IsSpace(LStrip(s[1..])[0])
  {
    LStripSplits(s[1..]);
  }

  lemma {:induction false} WordsLater(s: Str)
    requires s != [] && IsSpace(s[0])
    ensures Words(s) == Words(LStrip(s[1..]))
  {
    hide Words, LStrip;
    var t := s[1..];
    LStripSplits(t);
    assert s == s[..1] + t;
    WordsSkip(s[..1], t);
    WordsSkip(t[..|t| - |LStrip(t)|], LStrip(t));
  }

  lemma {:induction false} JoinOfWords(words: seq<Str>)
    requires words != [] && AreWords(words)
    ensures var j := Join([BLANK], words); j != [] && Stripped(j)
  {
    if |words| > 1 {
      JoinOfWords(words[1..]);
      var j, rest := Join([BLANK], words), Join([BLANK], words[1..]);
      assert j == words[0] + [BLANK] + rest;
      assert j[0] == words[0][0] && j[|j| - 1] == rest[|rest| - 1];
    }
  }

  /** The normalised text is the words of the text with one blank between them. */
  lemma {:induction false} NormalisedIsWords(s: Str)
    ensures ContentHash(s) == Join([BLANK], Words(s))
  {
    hide Words, Collapse, Strip, LStrip;
    WordsAreWords(s);
    NoWords();
    CollapseNothing();
    StripOfBlank([]);
    if s != [] {
      if IsSpace(s[0]) {
        var later := LStrip(s[1..]);
        CollapseBlank(s);
        WordsLater(s);
        if later == [] {
          StripOfBlank([BLANK]);
          assert [BLANK] + [] == [BLANK];
        } else {
          CollapseWords(later);
          JoinOfWords(Words(s));
          StripAround([BLANK], Join([BLANK], Words(s)), Collapse(later));
        }
      } else {
        CollapseWords(s);
        JoinOfWords(Words(s));
        StripAround([], Join([BLANK], Words(s)), Collapse(s));
        assert [] + Collapse(s) == Collapse(s);
      }
    }
  }

  lemma {:induction false} StripAround(pre: Str, body: Str, s: Str)
    requires IsBlank(pre) && body != [] && Stripped(body) && (s == body || s == body + [BLANK])
    ensures Strip(pre + s) == body
  {
    hide Strip;
    if s == body {
      StripUnique(pre, body, []);
      assert pre + body + [] == pre + s;
    } else {
      StripUnique(pre, body, [BLANK]);
      assert pre + body + [BLANK] == pre + s;
    }
  }

  /** Two texts have the same content hash if and only if they have the same words. */
  lemma {:induction false} SameHashSameWords(a: Str, b: Str)
    ensures ContentHash(a) == ContentHash(b) <==> Words(a) == Words(b)
  {
    hide Words, ContentHash, Join;
    NormalisedIsWords(a);
    NormalisedIsWords(b);
    WordsAreWords(a);
    WordsAreWords(b);
    WordsOfJoin(Words(a));
    WordsOfJoin(Words(b));
  }

  // -------------------------------------------------------------------------- duplicates

  /** The heading context of an item; none counts as empty. */
  function ShownContext(x: RawItem): (r: Str)
  {
    match x.origin.headingContext case Some(c) => c case None => []
  }

  /** The same words under the same headings on the same page. */
  predicate Repeats(x: RawItem, y: RawItem)
  {
    Words(x.content) == Words(y.content) && ShownContext(x) == ShownContext(y) && x.origin.page == y.origin.page
  }

  lemma {:induction false} SameKeyRepeats(x: RawItem, y: RawItem)
    ensures KeyOf(x) == KeyOf(y) <==> Repeats(x, y)
  {
    hide Words, ContentHash;
    SameHashSameWords(x.content, y.content);
  }

  predicate RepeatsAny(items: seq<RawItem>, x: RawItem)
  {
    exists j :: 0 <= j < |items| && Repeats(items[j], x)
  }

  /** The items that repeat no earlier item. */
  function WithoutRepeats(items: seq<RawItem>): (r: seq<RawItem>)
  {
    if items == [] then []
    else
      var front, last := items[..|items| - 1], items[|items| - 1];
      WithoutRepeats(front) + if RepeatsAny(front, last) then [] else [last]
  }

  lemma {:induction false} HasKeyRepeats(items: seq<RawItem>, x: RawItem)
    ensures HasKey(items, KeyOf(x)) <==> RepeatsAny(items, x)
  {
    hide KeyOf, Repeats;
    forall j | 0 <= j < |items| ensures KeyOf(items[j]) == KeyOf(x) <==> Repeats(items[j], x) {
      SameKeyRepeats(items[j], x);
    }
  }

  /** An item is dropped if and only if an earlier item has the same words, the same heading context
      and the same page; the others stay, in order. */
  lemma {:induction false} DroppedExactly(items: seq<RawItem>)
    ensures Firsts(items, {}) == WithoutRepeats(items)
  {
    hide Firsts, KeyOf, HasKey, RepeatsAny;
    DedupKeepsFirst(items);
    KeepFirstIsWithoutRepeats(items);
  }

  lemma {:induction false} KeepFirstIsWithoutRepeats(items: seq<RawItem>)
    ensures KeepFirst(items) == WithoutRepeats(items)
    decreases |items|
  {
    hide KeyOf, HasKey, RepeatsAny;
    if items != [] {
      var front := items[..|items| - 1];
      KeepFirstIsWithoutRepeats(front);
      HasKeyRepeats(front, items[|items| - 1]);
    }
  }

  /** The same text on another page, or under another heading, is not a repeat. */
  lemma {:induction false} OtherPlacesStay(x: RawItem, y: RawItem)
    requires x.origin.page != y.origin.page || ShownContext(x) != ShownContext(y)
    ensures Firsts([x, y], {}) == [x, y]
  {
    hide Repeats, Firsts;
    DroppedExactly([x, y]);
    assert [x, y][..1] == [x] && [x][..0] == [];
    assert !Repeats(x, y) by { OtherPlace(x, y); }
    assert WithoutRepeats([x]) == [] + [x];
    assert WithoutRepeats([x, y]) == WithoutRepeats([x]) + if RepeatsAny([x], y) then [] else [y];
  }

  lemma {:induction false} OtherPlace(x: RawItem, y: RawItem)
    requires x.origin.page != y.origin.page || ShownContext(x) != ShownContext(y)
    ensures !Repeats(x, y)
  {
  }

  // ----------------------------------------------------------------------------- merging

  /** What may be joined: a small heading or text and the item after it, unless that is a table, if
      together they stay within the soft token limit and the character limit. */
  lemma {:induction false} MergeableExactly(cfg: ChunkingConfig, a: RawItem, b: RawItem)
    ensures Mergeable(cfg, a, b) <==>
      (a.kind == HEADING || a.kind == TEXT) && Count(a.content) < cfg.smallTokens && b.kind != TABLE &&
      Count(a.content) + Count(b.content) <= cfg.targetTokens && |a.content| + 2 + |b.content| <= cfg.maxChars
  {
    hide Content, SumCost;
    ContentAround(a.content, PARENT_SEP, b.content);
  }

  function Present(a: Option<Str>): (r: bool) { a.Some? && a.value != [] }

  /** What a merged pair shows: both texts, a blank line between them, and each piece of its origin
      from the first item where that has one, from the second otherwise. */
  lemma {:induction false} CompositeExactly(a: RawItem, b: RawItem)
    requires a.content != [] && Stripped(a.content) && b.content != [] && Stripped(b.content)
    ensures var m := Composite(a, b);
      m.content == a.content + [NEWLINE, NEWLINE] + b.content && m.kind == COMPOSITE && m.rows == b.rows &&
      m.origin.headingPath == (if a.origin.headingPath != [] then a else b).origin.headingPath &&
      m.origin.headingContext == (if Present(a.origin.headingContext) then a else b).origin.headingContext &&
      m.origin.section == (if Present(a.origin.section) then a else b).origin.section &&
      m.origin.page == (if a.origin.page.Some? && a.origin.page.value != 0 then a else b).origin.page
  {
    hide Strip;
    StripId(a.content + [NEWLINE, NEWLINE] + b.content);
  }
}
