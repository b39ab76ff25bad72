/** `str.split` at a fixed separator, and what token content survives splitting and joining. */
module Splitting {
  import opened Text
  import opened Lexer
  import opened Underscores

  /** Split at the leftmost, non-overlapping occurrences of `sep`. */
  function SplitOn(sep: Str, s: Str): (r: seq<Str>)
    requires sep != []
    ensures r != []
    decreases |s|
  {
    if s == [] then [[]]
    else if sep <= s then [[]] + SplitOn(sep, s[|sep|..])
    else
      var rest := SplitOn(sep, s[1..]);
      [[s[0]] + rest[0]] + rest[1..]
  }

  /** The parts that are not all whitespace. */
  function NonBlank(parts: seq<Str>): (r: seq<Str>)
    ensures forall i :: 0 <= i < |r| ==> !IsBlank(r[i]) && r[i] in parts
  {
    if parts == [] then []
    else (if IsBlank(parts[0]) then [] else [parts[0]]) + NonBlank(parts[1..])
  }

  /** Putting something in front of the first part puts it in front of the joined text. */
  lemma JoinFront(sep: Str, x: Str, parts: seq<Str>)
    requires parts != []
    ensures Join(sep, [x + parts[0]] + parts[1..]) == x + Join(sep, parts)
  {
    var front := [x + parts[0]] + parts[1..];
    assert front[1..] == parts[1..];
    if |parts| > 1 {
      var rest := Join(sep, parts[1..]);
      assert (x + parts[0]) + sep + rest == x + (parts[0] + sep + rest);
    }
  }

  lemma {:induction false} JoinSplit(sep: Str, s: Str)
    requires sep != []
    ensures Join(sep, SplitOn(sep, s)) == s
    decreases |s|
  {
    if s == [] {
    } else if sep <= s {
      JoinSplit(sep, s[|sep|..]);
      JoinCons(sep, [], SplitOn(sep, s[|sep|..]));
      assert s == [] + sep + s[|sep|..];
    } else {
      JoinSplit(sep, s[1..]);
      JoinFront(sep, [s[0]], SplitOn(sep, s[1..]));
      assert s == [s[0]] + s[1..];
    }
  }

  lemma JoinCons(sep: Str, x: Str, parts: seq<Str>)
    requires parts != []
    ensures Join(sep, [x] + parts) == x + sep + Join(sep, parts)
  {
    assert ([x] + parts)[1..] == parts;
  }

  /** The tokens of a list of texts, one after the other. */
  function Contents(parts: seq<Str>): (r: seq<Str>)
  {
    if parts == [] then [] else Content(parts[0]) + Contents(parts[1..])
  }

  lemma {:induction false} ContentsAppend(a: seq<Str>, b: seq<Str>)
    ensures Contents(a + b) == Contents(a) + Contents(b)
  {
    if a == [] {
      assert a + b == b;
    } else {
      assert (a + b)[1..] == a[1..] + b;
      ContentsAppend(a[1..], b);
    }
  }

  /** Joining with whitespace neither adds, drops nor changes a token. */
  lemma {:induction false} ContentJoin(sep: Str, parts: seq<Str>)
    requires sep != [] && IsBlank(sep)
    ensures Content(Join(sep, parts)) == Contents(parts)
  {
    if |parts| == 1 {
      assert Contents(parts) == Content(parts[0]) + Contents(parts[1..]);
    } else if |parts| > 1 {
      ContentJoin(sep, parts[1..]);
      ContentAround(parts[0], sep, Join(sep, parts[1..]));
    }
  }

  lemma ContentSplit(sep: Str, s: Str)
    requires sep != [] && IsBlank(sep)
    ensures Contents(SplitOn(sep, s)) == Content(s)
  {
    JoinSplit(sep, s);
    ContentJoin(sep, SplitOn(sep, s));
  }

  lemma {:induction false} ContentsNonBlank(parts: seq<Str>)
    ensures Contents(NonBlank(parts)) == Contents(parts)
  {
    if parts != [] {
      ContentsNonBlank(parts[1..]);
      if IsBlank(parts[0]) {
        ContentOfBlank(parts[0]);
        assert NonBlank(parts) == NonBlank(parts[1..]);
      } else {
        assert NonBlank(parts)[1..] == NonBlank(parts[1..]);
      }
    }
  }

  function StripAll(parts: seq<Str>): (r: seq<Str>)
    ensures |r| == |parts|
    ensures forall i :: 0 <= i < |r| ==> r[i] == Strip(parts[i])
  {
    seq(|parts|, i requires 0 <= i < |parts| => Strip(parts[i]))
  }

  lemma {:induction false} ContentsStripAll(parts: seq<Str>)
    ensures Contents(StripAll(parts)) == Contents(parts)
  {
    hide Strip;
    if parts != [] {
      ContentStrip(parts[0]);
      assert StripAll(parts)[1..] == StripAll(parts[1..]);
      ContentsStripAll(parts[1..]);
    }
  }

  lemma {:induction false} ContentsOwner(parts: seq<Str>, t: Str)
    requires t in Contents(parts)
    ensures exists i :: 0 <= i < |parts| && t in Content(parts[i])
  {
    hide Content;
    if t !in Content(parts[0]) {
      ContentsOwner(parts[1..], t);
      var i :| 0 <= i < |parts[1..]| && t in Content(parts[1..][i]);
      assert parts[i + 1] == parts[1..][i];
    }
  }

  lemma {:induction false} CostAtMostCount(toks: seq<Str>, t: Str)
    requires t in toks
    ensures Cost(t) <= SumCost(toks)
  {
    hide Cost;
    if toks[0] != t {
      CostAtMostCount(toks[1..], t);
    }
  }

  // ------------------------------------------------------------------------- sizes

  function TotalCount(parts: seq<Str>): (c: nat)
  {
    if parts == [] then 0 else Count(parts[0]) + TotalCount(parts[1..])
  }

  lemma {:induction false} TotalsAppend(a: seq<Str>, b: seq<Str>)
    ensures TotalCount(a + b) == TotalCount(a) + TotalCount(b)
    ensures SumLen(a + b) == SumLen(a) + SumLen(b)
  {
    if a == [] {
      assert a + b == b;
    } else {
      assert (a + b)[1..] == a[1..] + b;
      TotalsAppend(a[1..], b);
    }
  }

  lemma TotalsPart(parts: seq<Str>, i: nat, j: nat)
    requires i <= j <= |parts|
    ensures TotalCount(parts[i..j]) <= TotalCount(parts)
    ensures SumLen(parts[i..j]) <= SumLen(parts)
  {
    hide TotalCount, SumLen;
    var a, b, c := parts[..i], parts[i..j], parts[j..];
    assert parts == a + b + c;
    TotalsAppend(a + b, c);
    TotalsAppend(a, b);
  }

  lemma {:induction false} CountJoin(sep: Str, parts: seq<Str>)
    requires sep != [] && IsBlank(sep)
    ensures Count(Join(sep, parts)) == TotalCount(parts)
  {
    if |parts| > 1 {
      CountJoin(sep, parts[1..]);
      ContentAround(parts[0], sep, Join(sep, parts[1..]));
    }
  }

  /** No part is larger than all of them together. */
  lemma {:induction false} CountMember(parts: seq<Str>, i: nat)
    requires i < |parts|
    ensures Count(parts[i]) <= TotalCount(parts)
  {
    hide Count;
    if i > 0 {
      CountMember(parts[1..], i - 1);
    }
  }

  // --------------------------------------------------------------------- underscores

  lemma {:induction false} SplitFuses(sep: Str, s: Str)
    requires sep != [] && IsBlank(sep)
    ensures NoneFuses(SplitOn(sep, s)) <==> FusesNothing(s)
  {
    JoinSplit(sep, s);
    FusesJoin(sep, SplitOn(sep, s));
  }

  lemma {:induction false} NonBlankFuses(parts: seq<Str>)
    requires NoneFuses(parts)
    ensures NoneFuses(NonBlank(parts))
  {
    hide FusesNothing;
  }

  lemma {:induction false} StripAllFuses(parts: seq<Str>)
    requires NoneFuses(parts)
    ensures NoneFuses(StripAll(parts))
  {
    hide FusesNothing, Strip;
    forall i | 0 <= i < |parts| ensures FusesNothing(StripAll(parts)[i]) {
      FusesStrip(parts[i]);
    }
  }

  // --------------------------------------------------------------- character content

  /** The characters of a text other than whitespace and underscores. */
  function Ink(s: Str): (r: Str)
  {
    if s == [] then []
    else (if IsSpace(s[0]) || s[0].Underscore? then [] else [s[0]]) + Ink(s[1..])
  }

  lemma {:induction false} InkAppend(a: Str, b: Str)
    ensures Ink(a + b) == Ink(a) + Ink(b)
  {
    if a == [] {
      assert a + b == b;
    } else {
      assert (a + b)[1..] == a[1..] + b;
      InkAppend(a[1..], b);
    }
  }

  lemma {:induction false} InkBlank(s: Str)
    requires IsBlank(s)
    ensures Ink(s) == []
  {
    if s != [] {
      InkBlank(s[1..]);
    }
  }

  lemma InkStrip(s: Str)
    ensures Ink(Strip(s)) == Ink(s)
  {
    hide Strip;
    var pre, post := StripSplits(s);
    InkAppend(pre + Strip(s), post);
    InkAppend(pre, Strip(s));
    InkBlank(pre);
    InkBlank(post);
  }

  lemma {:induction false} InkDropUnderscores(s: Str)
    ensures Ink(DropUnderscores(s)) == Ink(s)
  {
    if s != [] {
      var rest := DropUnderscores(s[1..]);
      InkDropUnderscores(s[1..]);
      if s[0].Underscore? {
        assert DropUnderscores(s) == rest;
      } else {
        InkAppend([s[0]], rest);
        InkAppend([s[0]], s[1..]);
        assert s == [s[0]] + s[1..];
      }
    }
  }

  /** The ink of a list of texts is the ink of their concatenation. */
  function Inks(parts: seq<Str>): (r: Str)
  {
    if parts == [] then [] else Ink(parts[0]) + Inks(parts[1..])
  }

  lemma {:induction false} InksAppend(a: seq<Str>, b: seq<Str>)
    ensures Inks(a + b) == Inks(a) + Inks(b)
  {
    if a == [] {
      assert a + b == b;
    } else {
      assert (a + b)[1..] == a[1..] + b;
      InksAppend(a[1..], b);
    }
  }

  lemma {:induction false} InkJoin(sep: Str, parts: seq<Str>)
    requires IsBlank(sep)
    ensures Ink(Join(sep, parts)) == Inks(parts)
  {
    if |parts| == 1 {
      assert Inks(parts) == Ink(parts[0]) + Inks(parts[1..]);
    } else if |parts| > 1 {
      InkJoin(sep, parts[1..]);
      InkAppend(parts[0] + sep, Join(sep, parts[1..]));
      InkAppend(parts[0], sep);
      InkBlank(sep);
    }
  }

  lemma InkSplit(sep: Str, s: Str)
    requires sep != [] && IsBlank(sep)
    ensures Inks(SplitOn(sep, s)) == Ink(s)
  {
    JoinSplit(sep, s);
    InkJoin(sep, SplitOn(sep, s));
  }

  lemma {:induction false} InksNonBlank(parts: seq<Str>)
    ensures Inks(NonBlank(parts)) == Inks(parts)
  {
    if parts != [] {
      InksNonBlank(parts[1..]);
      if IsBlank(parts[0]) {
        InkBlank(parts[0]);
        assert NonBlank(parts) == NonBlank(parts[1..]);
      } else {
        assert NonBlank(parts)[1..] == NonBlank(parts[1..]);
      }
    }
  }

  lemma {:induction false} InksStripAll(parts: seq<Str>)
    ensures Inks(StripAll(parts)) == Inks(parts)
  {
    hide Strip;
    if parts != [] {
      InkStrip(parts[0]);
      assert StripAll(parts)[1..] == StripAll(parts[1..]);
      InksStripAll(parts[1..]);
    }
  }
}
