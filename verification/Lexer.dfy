/** The two token patterns of the multilingual token counter, as a leftmost,
    first-alternative, greedy lexer, and the laws everything else rests on. */
module Lexer {
  import opened Text

  // ------------------------------------------------------------ character classes

  predicate ArabicCh(ch: Ch) { ch.ArabicLetter? || ch.ArabicDigit? || ch.ArabicMark? }
  predicate WordCh(ch: Ch) { ch.Letter? || ch.Numeral? || ch.ArabicLetter? }
  predicate DigitCh(ch: Ch) { ch.Digit? || ch.ArabicDigit? }
  predicate DecimalSep(ch: Ch) { ch == Symbol('.') || ch == Symbol(',') }

  /** Length of the full token pattern's match at the start of `s`; 0 when no alternative
      matches, which happens at an underscore and nowhere else. */
  function MatchLen(s: Str): (m: nat)
    requires s != []
    ensures m <= |s|
    ensures m == 0 <==> s[0].Underscore?
    ensures forall i :: 0 <= i < m ==> (IsSpace(s[i]) <==> IsSpace(s[0])) && !s[i].Underscore?
  {
    if ArabicCh(s[0]) then RunLen(s, ArabicCh)
    else if WordCh(s[0]) then RunLen(s, WordCh)
    else if DigitCh(s[0]) then NumberLen(s)
    else if s[0].Symbol? then 1
    else if IsSpace(s[0]) then RunLen(s, IsSpace)
    else 0
  }

  /** Digits, then optionally one separator and more digits. */
  function NumberLen(s: Str): (m: nat)
    requires s != [] && DigitCh(s[0])
    ensures 0 < m <= |s|
    ensures forall i :: 0 <= i < m ==> DigitCh(s[i]) || DecimalSep(s[i])
  {
    var n := RunLen(s, DigitCh);
    if n + 1 < |s| && DecimalSep(s[n]) && DigitCh(s[n + 1])
    then n + 1 + RunLen(s[n + 1..], DigitCh)
    else n
  }

  /** All matches of the full pattern, in order. */
  function Fragments(s: Str): (f: seq<Str>)
  {
    if s == [] then []
    else if MatchLen(s) == 0 then Fragments(s[1..])
    else [s[..MatchLen(s)]] + Fragments(s[MatchLen(s)..])
  }

  /** All matches of the pattern without its whitespace alternative, in order. */
  function Content(s: Str): (f: seq<Str>)
  {
    if s == [] then []
    else if IsSpace(s[0]) || s[0].Underscore? then Content(s[1..])
    else [s[..MatchLen(s)]] + Content(s[MatchLen(s)..])
  }

  /** `str.isspace`: true of a non-empty run of whitespace. */
  predicate IsSpaceTok(t: Str) { t != [] && IsBlank(t) }

  /** The fragments that are not whitespace. */
  function Inked(f: seq<Str>): (r: seq<Str>)
  {
    if f == [] then []
    else (if IsSpaceTok(f[0]) then [] else [f[0]]) + Inked(f[1..])
  }

  // ------------------------------------------------------------------------ costs

  function Cost(tok: Str): (c: nat)
  {
    1 + if |tok| > 8 then (|tok| - 8) / 4 else 0
  }

  function SumCost(toks: seq<Str>): (c: nat)
  {
    if toks == [] then 0 else Cost(toks[0]) + SumCost(toks[1..])
  }

  /** The token count of a text. */
  function Count(s: Str): (c: nat) { SumCost(Content(s)) }

  lemma {:induction false} SumCostAppend(a: seq<Str>, b: seq<Str>)
    ensures SumCost(a + b) == SumCost(a) + SumCost(b)
  {
    if a == [] {
      assert a + b == b;
    } else {
      assert (a + b)[1..] == a[1..] + b;
      SumCostAppend(a[1..], b);
    }
  }

  lemma {:induction false} InkedAppend(a: seq<Str>, b: seq<Str>)
    ensures Inked(a + b) == Inked(a) + Inked(b)
  {
    if a == [] {
      assert a + b == b;
    } else {
      assert (a + b)[1..] == a[1..] + b;
      InkedAppend(a[1..], b);
    }
  }

  // ------------------------------------------------------------------- match laws

  lemma {:induction false} NumberLenCut(s: Str, k: nat)
    requires 0 < k <= |s| && DigitCh(s[0]) && NumberLen(s) <= k
    ensures NumberLen(s[..k]) == NumberLen(s)
  {
    hide RunLen;
    var t := s[..k];
    var n := RunLen(s, DigitCh);
    RunLenUnique(t, DigitCh, n);
    if n < NumberLen(s) {
      assert t[n + 1..] == s[n + 1..][..k - n - 1];
      RunLenUnique(t[n + 1..], DigitCh, NumberLen(s) - n - 1);
    }
  }

  /** A match does not depend on what follows it. */
  lemma MatchLenCut(s: Str, k: nat)
    requires 0 < k <= |s| && MatchLen(s) <= k
    ensures MatchLen(s[..k]) == MatchLen(s)
  {
    var t := s[..k];
    if ArabicCh(s[0]) {
      RunLenUnique(t, ArabicCh, MatchLen(s));
    } else if WordCh(s[0]) {
      RunLenUnique(t, WordCh, MatchLen(s));
    } else if DigitCh(s[0]) {
      NumberLenCut(s, k);
    } else if IsSpace(s[0]) {
      RunLenUnique(t, IsSpace, MatchLen(s));
    }
  }

  /** No match that starts on ink crosses whitespace. */
  lemma MatchLenBeforeSpace(a: Str, b: Str)
    requires a != [] && !IsSpace(a[0])
    requires b == [] || IsSpace(b[0])
    ensures MatchLen(a + b) == MatchLen(a)
  {
    var m := MatchLen(a + b);
    if b != [] {
      assert (a + b)[|a|] == b[0];
    }
    assert m <= |a|;
    MatchLenCut(a + b, |a|);
    assert (a + b)[..|a|] == a;
  }

  // ----------------------------------------------------------------- content laws

  lemma {:induction false} ContentSkipBlank(w: Str, s: Str)
    requires IsBlank(w)
    ensures Content(w + s) == Content(s)
  {
    hide MatchLen;
    if w == [] {
      assert w + s == s;
    } else {
      assert (w + s)[1..] == w[1..] + s;
      ContentSkipBlank(w[1..], s);
    }
  }

  /** Whitespace separates tokens: a text is lexed piecewise wherever the right part is
      empty or starts with whitespace. */
  lemma {:induction false} ContentAppend(a: Str, b: Str)
    requires b == [] || IsSpace(b[0])
    ensures Content(a + b) == Content(a) + Content(b)
    decreases |a|
  {
    hide MatchLen;
    if a == [] {
      assert a + b == b;
    } else if IsSpace(a[0]) || a[0].Underscore? {
      assert (a + b)[1..] == a[1..] + b;
      ContentAppend(a[1..], b);
    } else {
      MatchLenBeforeSpace(a, b);
      var m := MatchLen(a);
      assert (a + b)[..m] == a[..m];
      assert (a + b)[m..] == a[m..] + b;
      ContentAppend(a[m..], b);
    }
  }

  /** Cost is additive across any whitespace separator. */
  lemma ContentAround(a: Str, w: Str, b: Str)
    requires IsBlank(w) && w != []
    ensures Content(a + w + b) == Content(a) + Content(b)
    ensures Count(a + w + b) == Count(a) + Count(b)
  {
    assert a + w + b == a + (w + b);
    ContentAppend(a, w + b);
    ContentSkipBlank(w, b);
    SumCostAppend(Content(a), Content(b));
  }

  lemma ContentOfBlank(s: Str)
    requires IsBlank(s)
    ensures Content(s) == []
  {
    ContentSkipBlank(s, []);
    assert s + [] == s;
  }

  /** Whitespace at the ends costs nothing. */
  lemma ContentTrim(pre: Str, body: Str, post: Str)
    requires IsBlank(pre) && IsBlank(post)
    ensures Content(pre + body + post) == Content(body)
  {
    assert pre + body + post == pre + (body + post);
    ContentSkipBlank(pre, body + post);
    ContentAppend(body, post);
    ContentOfBlank(post);
  }

  lemma ContentStrip(s: Str)
    ensures Content(Strip(s)) == Content(s)
  {
    var pre, post := StripSplits(s);
    ContentTrim(pre, Strip(s), post);
  }

  // ---------------------------------------------------------- the two patterns agree

  /** The two patterns find the same non-space tokens. */
  lemma {:induction false} PatternsAgree(s: Str)
    ensures Content(s) == Inked(Fragments(s))
    decreases |s|
  {
    hide MatchLen;
    if s != [] {
      var m := MatchLen(s);
      if m == 0 {
        PatternsAgree(s[1..]);
      } else {
        PatternsAgree(s[m..]);
        if IsSpace(s[0]) {
          ContentSkipBlank(s[..m], s[m..]);
          assert s[..m] + s[m..] == s;
        } else {
          assert !IsSpaceTok(s[..m]);
        }
      }
    }
  }

  function DropUnderscores(s: Str): (r: Str)
    ensures UnderscoreFree(r)
    ensures UnderscoreFree(s) ==> r == s
  {
    if s == [] then []
    else (if s[0].Underscore? then [] else [s[0]]) + DropUnderscores(s[1..])
  }

  lemma {:induction false} DropUnderscoresStep(s: Str)
    requires s != []
    ensures DropUnderscores(s) == (if s[0].Underscore? then [] else [s[0]]) + DropUnderscores(s[1..])
  {
  }

  lemma {:induction false} DropUnderscoresNone()
    ensures DropUnderscores([]) == []
  {
  }

  lemma {:induction false} DropUnderscoresAppend(a: Str, b: Str)
    ensures DropUnderscores(a + b) == DropUnderscores(a) + DropUnderscores(b)
  {
    hide DropUnderscores;
    if a == [] {
      assert a + b == b;
      DropUnderscoresNone();
    } else {
      assert (a + b)[1..] == a[1..] + b;
      DropUnderscoresStep(a);
      DropUnderscoresStep(a + b);
      DropUnderscoresAppend(a[1..], b);
    }
  }

  /** Re-joining the fragments gives the text back with exactly its underscores removed. */
  lemma {:induction false} FragmentsConcat(s: Str)
    ensures Concat(Fragments(s)) == DropUnderscores(s)
    decreases |s|
  {
    hide MatchLen;
    if s != [] {
      var m := MatchLen(s);
      if m == 0 {
        FragmentsConcat(s[1..]);
      } else {
        FragmentsConcat(s[m..]);
        assert s == s[..m] + s[m..];
        DropUnderscoresAppend(s[..m], s[m..]);
        assert UnderscoreFree(s[..m]);
      }
    }
  }

  // ------------------------------------------------- pieces that lex back to themselves

  /** A list of pieces in which every piece is either whitespace or exactly the token that
      the lexer finds at its start. */
  ghost predicate Lexed(p: seq<Str>)
  {
    p == [] ||
    (p[0] != [] && Lexed(p[1..]) &&
     (IsBlank(p[0]) ||
      (!IsSpace(p[0][0]) && MatchLen(Concat(p)) == |p[0]|)))
  }

  lemma {:induction false} LexedSuffix(p: seq<Str>, i: nat)
    requires Lexed(p) && i <= |p|
    ensures Lexed(p[i..])
  {
    if i > 0 {
      LexedSuffix(p[1..], i - 1);
      assert p[1..][i - 1..] == p[i..];
    }
  }

  lemma {:induction false} LexedPrefix(p: seq<Str>, j: nat)
    requires Lexed(p) && j <= |p|
    ensures Lexed(p[..j])
  {
    hide MatchLen;
    if j > 0 {
      var q := p[..j];
      assert q[1..] == p[1..][..j - 1];
      LexedPrefix(p[1..], j - 1);
      assert p == q + p[j..];
      ConcatAppend(q, p[j..]);
      if !IsBlank(p[0]) {
        var s := Concat(p);
        assert s[..|Concat(q)|] == Concat(q);
        MatchLenCut(s, |Concat(q)|);
      }
    }
  }

  /** Such a list stands for its own tokens. */
  lemma {:induction false} LexedContent(p: seq<Str>)
    requires Lexed(p)
    ensures Content(Concat(p)) == Inked(p)
  {
    hide MatchLen;
    if p != [] {
      LexedContent(p[1..]);
      if IsBlank(p[0]) {
        ContentSkipBlank(p[0], Concat(p[1..]));
      } else {
        var s := Concat(p);
        assert s[..|p[0]|] == p[0] && s[|p[0]|..] == Concat(p[1..]);
      }
    }
  }

  lemma {:induction false} FragmentsLexed(s: Str)
    requires UnderscoreFree(s)
    ensures Lexed(Fragments(s)) && Concat(Fragments(s)) == s
    decreases |s|
  {
    hide MatchLen;
    FragmentsConcat(s);
    if s != [] {
      var m := MatchLen(s);
      FragmentsLexed(s[m..]);
      assert Fragments(s)[1..] == Fragments(s[m..]);
      assert Fragments(s)[0] == s[..m];
    }
  }

  /** The first `j` fragments of underscore-free text spell a prefix of it. */
  lemma FragmentsPrefix(s: Str, j: nat)
    requires UnderscoreFree(s) && j <= |Fragments(s)|
    ensures |Concat(Fragments(s)[..j])| <= |s|
    ensures Concat(Fragments(s)[..j]) == s[..|Concat(Fragments(s)[..j])|]
  {
    var f := Fragments(s);
    FragmentsLexed(s);
    assert f == f[..j] + f[j..];
    ConcatAppend(f[..j], f[j..]);
  }

  lemma {:induction false} PrefixRelexes(s: Str, j: nat)
    requires UnderscoreFree(s) && j <= |Fragments(s)|
    ensures Fragments(Concat(Fragments(s)[..j])) == Fragments(s)[..j]
    decreases |s|
  {
    hide MatchLen;
    if j > 0 {
      var m := MatchLen(s);
      var head, tail := s[..m], Fragments(s[m..])[..j - 1];
      PrefixRelexes(s[m..], j - 1);
      assert Fragments(s)[..j] == [head] + tail;
      var t := Concat([head] + tail);
      assert t == head + Concat(tail);
      FragmentsPrefix(s, j);
      MatchLenCut(s, |t|);
      assert t[..m] == head && t[m..] == Concat(tail);
    }
  }

  /** Any contiguous run of fragments of underscore-free text is found again, fragment for
      fragment, when the run is joined and lexed on its own. */
  lemma {:induction false} RunsRelex(s: Str, i: nat, j: nat)
    requires UnderscoreFree(s) && i <= j <= |Fragments(s)|
    ensures Fragments(Concat(Fragments(s)[i..j])) == Fragments(s)[i..j]
    decreases |s|
  {
    hide MatchLen;
    if i == 0 {
      PrefixRelexes(s, j);
      assert Fragments(s)[0..j] == Fragments(s)[..j];
    } else {
      var m := MatchLen(s);
      RunsRelex(s[m..], i - 1, j - 1);
      assert Fragments(s)[i..j] == Fragments(s[m..])[i - 1..j - 1];
    }
  }

  // ------------------------------------------------------------- the underscore caveat

  function Repeat(ch: Ch, n: nat): (r: Str)
    ensures |r| == n && forall i :: 0 <= i < n ==> r[i] == ch
  {
    if n == 0 then [] else [ch] + Repeat(ch, n - 1)
  }

  /** A run of letters up to an underscore or the end is one token. */
  lemma LetterRunContent(a: Str, rest: Str)
    requires a != [] && forall i :: 0 <= i < |a| ==> a[i].Letter?
    requires rest == [] || rest[0].Underscore?
    ensures Content(a + rest) == [a] + Content(rest)
  {
    var s := a + rest;
    RunLenUnique(s, WordCh, |a|);
    assert s[..|a|] == a && s[|a|..] == rest;
  }

  /** With an underscore, re-joining fragments can fuse words and change the count: two
      eight-letter words around an underscore cost 2, and 3 once the underscore is dropped. */
  lemma UnderscoreFusesWords(a: Str, b: Str)
    requires a == Repeat(Letter('a'), 8) && b == Repeat(Letter('b'), 8)
    ensures Count(a + [Underscore] + b) == 2
    ensures Count(Concat(Fragments(a + [Underscore] + b))) == 3
  {
    hide Repeat, Fragments, Concat, RunLen;
    var u := [Underscore] + b;
    assert a + [Underscore] + b == a + u && u[1..] == b && b + [] == b;
    LetterRunContent(b, []);
    LetterRunContent(a, u);
    assert Content(u) == Content(b) == [b];
    SumCostAppend([a], [b]);
    assert Content(a + u) == [a] + [b];
    FragmentsConcat(a + u);
    DropUnderscoresAppend(a, u);
    assert DropUnderscores(u) == b;
    assert (a + b) + [] == a + b;
    LetterRunContent(a + b, []);
  }
}
