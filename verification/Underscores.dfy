/** What removing underscores does to a text's tokens, exactly. */
module Underscores {
  import opened Text
  import opened Lexer

  /** No token of the text would go on past its end if all underscores were removed: no
      underscores stand between characters that the lexer would otherwise put into one match. */
  predicate FusesNothing(s: Str)
    decreases |s|
  {
    if s == [] then true
    else if IsSpace(s[0]) || s[0].Underscore? then FusesNothing(s[1..])
    else MatchLen(DropUnderscores(s)) == MatchLen(s) && FusesNothing(s[MatchLen(s)..])
  }

  /** The same for whitespace as well: no fragment of the text would go on. */
  predicate StaysPut(s: Str)
    decreases |s|
  {
    if s == [] then true
    else if s[0].Underscore? then StaysPut(s[1..])
    else MatchLen(DropUnderscores(s)) == MatchLen(s) && StaysPut(s[MatchLen(s)..])
  }

  lemma {:induction false} UnderscoreFreeStaysPut(s: Str)
    requires UnderscoreFree(s)
    ensures StaysPut(s) && FusesNothing(s)
    decreases |s|
  {
    hide MatchLen;
    if s != [] {
      UnderscoreFreeStaysPut(s[MatchLen(s)..]);
      if IsSpace(s[0]) {
        UnderscoreFreeStaysPut(s[1..]);
      }
    }
  }

  /** The text with its underscores removed, seen from its first fragment. */
  lemma {:induction false} DropAtMatch(s: Str)
    requires s != [] && !s[0].Underscore?
    ensures DropUnderscores(s) == s[..MatchLen(s)] + DropUnderscores(s[MatchLen(s)..])
    ensures DropUnderscores(s) != [] && DropUnderscores(s)[0] == s[0]
  {
    hide MatchLen;
    var m := MatchLen(s);
    assert s == s[..m] + s[m..];
    DropUnderscoresAppend(s[..m], s[m..]);
    assert UnderscoreFree(s[..m]);
  }

  lemma {:induction false} DropUnderscoresBlank(s: Str)
    requires IsBlank(s)
    ensures DropUnderscores(s) == s
  {
    assert UnderscoreFree(s);
  }

  // ------------------------------------------------------------------- tokens, exactly

  lemma {:induction false} SkipStep(s: Str)
    requires s != [] && (IsSpace(s[0]) || s[0].Underscore?)
    ensures Content(s) == Content(s[1..])
    ensures Content(DropUnderscores(s)) == Content(DropUnderscores(s[1..]))
  {
    hide MatchLen;
    if IsSpace(s[0]) {
      hide Content;
      ContentSkipBlank(s[..1], s[1..]);
      ContentSkipBlank(s[..1], DropUnderscores(s[1..]));
      assert s == s[..1] + s[1..];
      assert DropUnderscores(s) == s[..1] + DropUnderscores(s[1..]);
    } else {
      UnderscoreStep(s);
    }
  }

  /** The first token of a text and of the text without underscores. */
  lemma {:induction false} TokenStep(s: Str)
    requires s != [] && !IsSpace(s[0]) && !s[0].Underscore?
    ensures var d := DropUnderscores(s);
      d != [] &&
      var m, n := MatchLen(s), MatchLen(d);
      m <= |d| && d[..m] == s[..m] && d[m..] == DropUnderscores(s[m..]) &&
      Content(s) == [s[..m]] + Content(s[m..]) && Content(d) == [d[..n]] + Content(d[n..])
  {
    hide MatchLen, DropUnderscores;
    DropAtMatch(s);
  }

  /** If the tokens left after removing the underscores begin like the text's own tokens,
      nothing was fused: the first fused token would be longer than the one in its place. */
  lemma {:induction false} PrefixMeansNothingFused(s: Str, more: seq<Str>)
    requires Content(DropUnderscores(s)) <= Content(s) + more
    ensures FusesNothing(s)
    decreases |s|
  {
    hide MatchLen, Content, DropUnderscores;
    if s == [] {
    } else if IsSpace(s[0]) || s[0].Underscore? {
      SkipStep(s);
      PrefixMeansNothingFused(s[1..], more);
    } else {
      TokenStep(s);
      var d := DropUnderscores(s);
      var m, n := MatchLen(s), MatchLen(d);
      FirstsAgree(d[..n], Content(d[n..]), s[..m], Content(s[m..]), more);
      PrefixMeansNothingFused(s[m..], more);
    }
  }

  lemma {:induction false} FirstsAgree(x: Str, xs: seq<Str>, y: Str, ys: seq<Str>, more: seq<Str>)
    requires [x] + xs <= [y] + ys + more
    ensures x == y && xs <= ys + more
  {
    var all := [y] + ys + more;
    assert ([x] + xs)[0] == all[0];
    assert xs == ([x] + xs)[1..] <= all[1..] == ys + more;
  }

  lemma {:induction false} NothingFusedKeeps(s: Str)
    requires FusesNothing(s)
    ensures Content(DropUnderscores(s)) == Content(s)
    decreases |s|
  {
    hide MatchLen, Content, DropUnderscores;
    if s == [] {
      DropUnderscoresBlank(s);
    } else if IsSpace(s[0]) || s[0].Underscore? {
      SkipStep(s);
      NothingFusedKeeps(s[1..]);
    } else {
      TokenStep(s);
      NothingFusedKeeps(s[MatchLen(s)..]);
    }
  }

  /** Removing the underscores, which is what re-joining the fragments does, keeps the tokens
      if and only if no token would go on. */
  lemma {:induction false} RejoinKeepsTokensExactly(s: Str)
    ensures Content(Concat(Fragments(s))) == Content(s) <==> FusesNothing(s)
    ensures Content(DropUnderscores(s)) == Content(s) <==> FusesNothing(s)
  {
    hide Content, DropUnderscores;
    FragmentsConcat(s);
    if FusesNothing(s) {
      NothingFusedKeeps(s);
    }
    if Content(DropUnderscores(s)) == Content(s) {
      assert Content(s) + [] == Content(s);
      PrefixMeansNothingFused(s, []);
    }
  }

  // ---------------------------------------------------------------- fragments, exactly

  /** The first fragment of a text and of the text without underscores. */
  lemma {:induction false} FragmentStep(s: Str)
    requires s != [] && !s[0].Underscore?
    ensures var d := DropUnderscores(s);
      d != [] &&
      var m, n := MatchLen(s), MatchLen(d);
      m <= |d| && d[..m] == s[..m] && d[m..] == DropUnderscores(s[m..]) &&
      Fragments(s) == [s[..m]] + Fragments(s[m..]) && Fragments(d) == [d[..n]] + Fragments(d[n..])
  {
    hide MatchLen, DropUnderscores;
    DropAtMatch(s);
  }

  lemma {:induction false} UnderscoreStep(s: Str)
    requires s != [] && s[0].Underscore?
    ensures Fragments(s) == Fragments(s[1..]) && DropUnderscores(s) == DropUnderscores(s[1..])
  {
  }

  lemma {:induction false} StaysPutKeeps(s: Str)
    requires StaysPut(s)
    ensures Fragments(DropUnderscores(s)) == Fragments(s)
    decreases |s|
  {
    hide MatchLen;
    if s != [] {
      hide Fragments, DropUnderscores;
      if s[0].Underscore? {
        UnderscoreStep(s);
        StaysPutKeeps(s[1..]);
      } else {
        FragmentStep(s);
        StaysPutKeeps(s[MatchLen(s)..]);
      }
    }
  }

  lemma {:induction false} KeptMeansStaysPut(s: Str)
    requires Fragments(DropUnderscores(s)) == Fragments(s)
    ensures StaysPut(s)
    decreases |s|
  {
    hide MatchLen, Fragments, DropUnderscores;
    if s != [] {
      if s[0].Underscore? {
        UnderscoreStep(s);
        KeptMeansStaysPut(s[1..]);
      } else {
        FragmentStep(s);
        var d := DropUnderscores(s);
        var m, n := MatchLen(s), MatchLen(d);
        assert [s[..m]] + Fragments(s[m..]) + [] == [s[..m]] + Fragments(s[m..]);
        FirstsAgree(d[..n], Fragments(d[n..]), s[..m], Fragments(s[m..]), []);
        assert Fragments(d)[1..] == Fragments(s)[1..];
        KeptMeansStaysPut(s[m..]);
      }
    }
  }

  ghost predicate RunRelexes(s: Str, i: nat, j: nat)
    requires i <= j <= |Fragments(s)|
  {
    Fragments(Concat(Fragments(s)[i..j])) == Fragments(s)[i..j]
  }

  /** Every contiguous run of fragments, joined and lexed on its own, is found again fragment for
      fragment, if and only if no fragment of the text would go on. */
  lemma {:induction false} RunsRelexExactly(s: Str)
    ensures (forall i, j :: 0 <= i <= j <= |Fragments(s)| ==> RunRelexes(s, i, j)) <==> StaysPut(s)
  {
    hide Fragments, DropUnderscores, Concat;
    var f := Fragments(s);
    FragmentsConcat(s);
    if StaysPut(s) {
      StaysPutKeeps(s);
      forall i, j | 0 <= i <= j <= |f| ensures RunRelexes(s, i, j) {
        RunsRelex(DropUnderscores(s), i, j);
      }
    }
    if forall i, j :: 0 <= i <= j <= |f| ==> RunRelexes(s, i, j) {
      assert RunRelexes(s, 0, |f|);
      assert f[0..|f|] == f;
      KeptMeansStaysPut(s);
    }
  }

  // --------------------------------------------------------- cutting texts at whitespace

  lemma {:induction false} DropKeepsSpace(b: Str)
    requires b == [] || IsSpace(b[0])
    ensures DropUnderscores(b) == [] || IsSpace(DropUnderscores(b)[0])
  {
  }

  /** What follows a whitespace does not change where a token stops, with underscores or without. */
  lemma {:induction false} MatchBeforeSpace(a: Str, b: Str)
    requires a != [] && !IsSpace(a[0]) && !a[0].Underscore? && (b == [] || IsSpace(b[0]))
    ensures MatchLen(a + b) == MatchLen(a)
    ensures MatchLen(DropUnderscores(a + b)) == MatchLen(DropUnderscores(a))
  {
    hide MatchLen, DropUnderscores;
    MatchLenBeforeSpace(a, b);
    DropAtMatch(a);
    DropKeepsSpace(b);
    DropUnderscoresAppend(a, b);
    MatchLenBeforeSpace(DropUnderscores(a), DropUnderscores(b));
  }

  /** The condition holds piecewise wherever the right part is empty or starts with whitespace. */
  lemma {:induction false} FusesAppend(a: Str, b: Str)
    requires b == [] || IsSpace(b[0])
    ensures FusesNothing(a + b) <==> FusesNothing(a) && FusesNothing(b)
    decreases |a|
  {
    hide MatchLen, DropUnderscores;
    if a == [] {
      assert a + b == b;
    } else if IsSpace(a[0]) || a[0].Underscore? {
      assert (a + b)[1..] == a[1..] + b;
      FusesAppend(a[1..], b);
    } else {
      MatchBeforeSpace(a, b);
      assert (a + b)[MatchLen(a)..] == a[MatchLen(a)..] + b;
      FusesAppend(a[MatchLen(a)..], b);
    }
  }

  lemma {:induction false} BlankFusesNothing(s: Str)
    requires IsBlank(s)
    ensures FusesNothing(s)
  {
    UnderscoreFreeStaysPut(s);
  }

  lemma {:induction false} FusesAround(a: Str, w: Str, b: Str)
    requires IsBlank(w) && w != []
    ensures FusesNothing(a + w + b) <==> FusesNothing(a) && FusesNothing(b)
  {
    assert a + w + b == a + (w + b);
    FusesAppend(a, w + b);
    SkipBlank(w, b);
  }

  lemma {:induction false} SkipBlank(w: Str, s: Str)
    requires IsBlank(w)
    ensures FusesNothing(w + s) <==> FusesNothing(s)
  {
    if w == [] {
      assert w + s == s;
    } else {
      assert (w + s)[1..] == w[1..] + s;
      SkipBlank(w[1..], s);
    }
  }

  lemma {:induction false} FusesTrim(pre: Str, body: Str, post: Str)
    requires IsBlank(pre) && IsBlank(post)
    ensures FusesNothing(pre + body + post) <==> FusesNothing(body)
  {
    assert pre + body + post == pre + (body + post);
    SkipBlank(pre, body + post);
    FusesAppend(body, post);
    BlankFusesNothing(post);
  }

  lemma {:induction false} FusesStrip(s: Str)
    ensures FusesNothing(Strip(s)) <==> FusesNothing(s)
  {
    hide FusesNothing, Strip;
    var pre, post := StripSplits(s);
    FusesTrim(pre, Strip(s), post);
  }

  ghost predicate NoneFuses(parts: seq<Str>)
  {
    forall i :: 0 <= i < |parts| ==> FusesNothing(parts[i])
  }

  /** Joining with whitespace, and so splitting at it, keeps the condition. */
  lemma {:induction false} FusesJoin(sep: Str, parts: seq<Str>)
    requires sep != [] && IsBlank(sep)
    ensures FusesNothing(Join(sep, parts)) <==> NoneFuses(parts)
  {
    hide FusesNothing;
    if parts == [] {
      BlankFusesNothing([]);
    } else if |parts| > 1 {
      FusesJoin(sep, parts[1..]);
      FusesAround(parts[0], sep, Join(sep, parts[1..]));
      assert NoneFuses(parts) <==> FusesNothing(parts[0]) && NoneFuses(parts[1..]) by {
        assert forall i :: 1 <= i < |parts| ==> parts[i] == parts[1..][i - 1];
      }
    }
  }

  // ------------------------------------------------------------- fragments as token lists

  lemma {:induction false} LexedStep(s: Str)
    requires s != [] && MatchLen(s) > 0
    ensures var m := MatchLen(s);
      Lexed(Fragments(s)) <==> Lexed(Fragments(s[m..])) && (IsSpace(s[0]) || MatchLen(DropUnderscores(s)) == m)
  {
    hide MatchLen, DropUnderscores, Concat;
    var m := MatchLen(s);
    FragmentsConcat(s);
    assert Fragments(s)[0] == s[..m] && Fragments(s)[1..] == Fragments(s[m..]);
  }

  /** A token list that lexes back to itself, exactly: the fragments of a text in which nothing
      fuses. */
  lemma {:induction false} LexedFragmentsExactly(s: Str)
    ensures Lexed(Fragments(s)) <==> FusesNothing(s)
    decreases |s|
  {
    hide MatchLen, DropUnderscores, Lexed, Fragments;
    if s == [] {
      NothingLexed();
    } else if MatchLen(s) == 0 {
      UnderscoreStep(s);
      LexedFragmentsExactly(s[1..]);
    } else {
      LexedStep(s);
      FusesStep(s);
      LexedFragmentsExactly(s[MatchLen(s)..]);
    }
  }

  lemma {:induction false} FusesStep(s: Str)
    requires s != [] && MatchLen(s) > 0
    ensures var m := MatchLen(s);
      FusesNothing(s) <==> FusesNothing(s[m..]) && (IsSpace(s[0]) || MatchLen(DropUnderscores(s)) == m)
  {
    hide MatchLen, DropUnderscores;
    if IsSpace(s[0]) {
      hide FusesNothing;
      SkipBlank(s[..MatchLen(s)], s[MatchLen(s)..]);
      assert s[..MatchLen(s)] + s[MatchLen(s)..] == s;
    }
  }

  lemma {:induction false} NothingLexed()
    ensures Lexed(Fragments([]))
  {
  }

  // ------------------------------------------------------------------- leading fragments

  /** Where the first `k` fragments end in the text. */
  function FragmentsEnd(s: Str, k: nat): (e: nat)
    requires k <= |Fragments(s)|
    ensures e <= |s|
    decreases |s|
  {
    if k == 0 then 0
    else if MatchLen(s) == 0 then 1 + FragmentsEnd(s[1..], k)
    else MatchLen(s) + FragmentsEnd(s[MatchLen(s)..], k - 1)
  }

  lemma {:induction false} PrefixSkips(s: Str, k: nat)
    requires 0 < k <= |Fragments(s)| && MatchLen(s) == 0
    ensures k <= |Fragments(s[1..])| && s[..FragmentsEnd(s, k)][1..] == s[1..][..FragmentsEnd(s[1..], k)]
    ensures FragmentsEnd(s, k) > 0
  {
    hide MatchLen;
  }

  lemma {:induction false} PrefixMatches(s: Str, k: nat)
    requires 0 < k <= |Fragments(s)| && MatchLen(s) > 0
    ensures var m, p := MatchLen(s), s[..FragmentsEnd(s, k)];
      m <= |p| && p[..m] == s[..m] && MatchLen(p) == m &&
      k - 1 <= |Fragments(s[m..])| && p[m..] == s[m..][..FragmentsEnd(s[m..], k - 1)]
  {
    hide MatchLen;
    MatchLenCut(s, FragmentsEnd(s, k));
  }

  /** The text up to there has just these fragments. */
  lemma {:induction false} LeadingFragments(s: Str, k: nat)
    requires k <= |Fragments(s)|
    ensures Fragments(s[..FragmentsEnd(s, k)]) == Fragments(s)[..k]
    decreases |s|
  {
    hide MatchLen, FragmentsEnd;
    if k == 0 {
      NoFragments(s);
    } else if MatchLen(s) == 0 {
      PrefixSkips(s, k);
      LeadingFragments(s[1..], k);
    } else {
      PrefixMatches(s, k);
      LeadingFragments(s[MatchLen(s)..], k - 1);
    }
  }

  lemma {:induction false} NoFragments(s: Str)
    ensures s[..FragmentsEnd(s, 0)] == [] && Fragments([]) == []
  {
  }

  lemma {:induction false} DropOfPrefix(s: Str, e: nat)
    requires e <= |s|
    ensures DropUnderscores(s[..e]) <= DropUnderscores(s)
  {
    assert s == s[..e] + s[e..];
    DropUnderscoresAppend(s[..e], s[e..]);
  }

  /** Nothing fuses in the leading fragments of a text in which nothing fuses. */
  lemma {:induction false} LeadingFuseNothing(s: Str, k: nat)
    requires FusesNothing(s) && k <= |Fragments(s)|
    ensures FusesNothing(s[..FragmentsEnd(s, k)])
    decreases |s|
  {
    hide Content, Lexed;
    LexedFragmentsExactly(s);
    LexedPrefix(Fragments(s), k);
    LeadingFragments(s, k);
    LexedFragmentsExactly(s[..FragmentsEnd(s, k)]);
  }

  /** A text without tokens fuses none. */
  lemma {:induction false} NoTokensNothingFused(s: Str)
    requires Content(s) == []
    ensures FusesNothing(s)
    decreases |s|
  {
    hide MatchLen, DropUnderscores;
    if s != [] {
      NoTokensNothingFused(s[1..]);
    }
  }
}
