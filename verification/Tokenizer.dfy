/** The token counter's operations: counting and truncation as the loops they are. */
module Tokenizer {
  import opened Text
  import opened Lexer
  import opened Underscores

  /** What one fragment adds to a running count: nothing for whitespace. */
  function SubCount(tok: Str): (c: nat) { if IsSpaceTok(tok) then 0 else Cost(tok) }

  lemma SumCostInkedCons(f: seq<Str>)
    requires f != []
    ensures SumCost(Inked(f)) == SubCount(f[0]) + SumCost(Inked(f[1..]))
  {
    if IsSpaceTok(f[0]) {
      assert Inked(f) == Inked(f[1..]);
    } else {
      assert Inked(f)[1..] == Inked(f[1..]);
    }
  }

  lemma {:induction false} SumCostInkedSnoc(f: seq<Str>, tok: Str)
    ensures SumCost(Inked(f + [tok])) == SumCost(Inked(f)) + SubCount(tok)
  {
    InkedAppend(f, [tok]);
    SumCostAppend(Inked(f), Inked([tok]));
  }

  method CountTokens(text: Str) returns (total: nat)
    ensures total == Count(text)
  {
    if text == [] || Strip(text) == [] {
      var _, _ := StripSplits(text);
      ContentOfBlank(text);
      return 0;
    }
    var matches := Content(text);
    total := 0;
    for i := 0 to |matches|
      invariant total + SumCost(matches[i..]) == SumCost(matches)
    {
      assert matches[i..][1..] == matches[i + 1..];
      total := total + 1;
      var length := |matches[i]|;
      if length > 8 {
        total := total + (length - 8) / 4;
      }
    }
  }

  /** The number of leading fragments whose summed cost stays within `budget`. */
  function FitCount(frags: seq<Str>, budget: int): (k: nat)
    ensures k <= |frags|
  {
    if frags == [] || SubCount(frags[0]) > budget then 0
    else 1 + FitCount(frags[1..], budget - SubCount(frags[0]))
  }

  function Truncate(text: Str, maxTokens: int): (r: Str)
  {
    if text == [] || maxTokens <= 0 then []
    else RStrip(Concat(Fragments(text)[..FitCount(Fragments(text), maxTokens)]))
  }

  method TruncateToTokens(text: Str, maxTokens: int) returns (r: Str)
    ensures r == Truncate(text, maxTokens)
  {
    hide Fragments, RStrip, Concat;
    if text == [] || maxTokens <= 0 {
      return [];
    }
    var tokens := Fragments(text);
    var accumulated: seq<Str> := [];
    var count := 0;
    var i := 0;
    while i < |tokens|
      invariant i <= |tokens| && accumulated == tokens[..i]
      invariant i + FitCount(tokens[i..], maxTokens - count) == FitCount(tokens, maxTokens)
    {
      var sub := if !IsSpaceTok(tokens[i]) then Cost(tokens[i]) else 0;
      if count + sub > maxTokens {
        break;
      }
      assert tokens[i..][1..] == tokens[i + 1..];
      accumulated := accumulated + [tokens[i]];
      count := count + sub;
      i := i + 1;
    }
    r := RStrip(Concat(accumulated));
  }

  // ------------------------------------------------------------- how far a budget goes

  lemma {:induction false} FitCountExact(frags: seq<Str>, budget: int)
    requires budget >= 0
    ensures var k := FitCount(frags, budget);
      SumCost(Inked(frags[..k])) <= budget &&
      forall j :: k < j <= |frags| ==> SumCost(Inked(frags[..j])) > budget
  {
    var k := FitCount(frags, budget);
    if k == 0 {
      forall j | 0 < j <= |frags| ensures SumCost(Inked(frags[..j])) > budget {
        SumCostInkedCons(frags[..j]);
      }
    } else {
      var sub := SubCount(frags[0]);
      FitCountExact(frags[1..], budget - sub);
      forall j | 0 < j <= |frags|
        ensures SumCost(Inked(frags[..j])) == sub + SumCost(Inked(frags[1..][..j - 1]))
      {
        assert frags[..j][1..] == frags[1..][..j - 1];
        SumCostInkedCons(frags[..j]);
      }
    }
  }

  lemma ContentRStrip(s: Str)
    ensures Content(RStrip(s)) == Content(s)
  {
    var r := RStrip(s);
    assert s == [] + r + s[|r|..];
    ContentTrim([], r, s[|r|..]);
    assert [] + r == r;
  }

  /** The part of the text whose fragments fit the budget. */
  function Kept(text: Str, maxTokens: nat): (r: Str)
    ensures r <= text
  {
    text[..FragmentsEnd(text, FitCount(Fragments(text), maxTokens))]
  }

  /** What truncation returns: the kept part without its underscores, right-stripped. */
  lemma {:induction false} TruncateKeeps(text: Str, maxTokens: nat)
    requires maxTokens > 0
    ensures Truncate(text, maxTokens) == RStrip(DropUnderscores(Kept(text, maxTokens)))
    ensures Content(Truncate(text, maxTokens)) == Content(DropUnderscores(Kept(text, maxTokens)))
    ensures Content(Kept(text, maxTokens)) == Inked(Fragments(text)[..FitCount(Fragments(text), maxTokens)])
  {
    hide Content, Fragments, DropUnderscores, FragmentsEnd, FitCount;
    var k := FitCount(Fragments(text), maxTokens);
    LeadingFragments(text, k);
    FragmentsConcat(Kept(text, maxTokens));
    PatternsAgree(Kept(text, maxTokens));
    ContentRStrip(DropUnderscores(Kept(text, maxTokens)));
    if text == [] {
      NothingKept();
    }
  }

  lemma {:induction false} NothingKept()
    ensures DropUnderscores([]) == [] && RStrip([]) == []
  {
  }

  /** The fragments that fit carry a prefix of the tokens, and the next token overflows. */
  lemma FitCountLongest(f: seq<Str>, budget: nat)
    ensures var kept := Inked(f[..FitCount(f, budget)]);
      kept <= Inked(f) &&
      (|kept| < |Inked(f)| ==> SumCost(Inked(f)[..|kept| + 1]) > budget)
  {
    hide FitCount, SumCost, Cost;
    var k := FitCount(f, budget);
    FitCountExact(f, budget);
    InkedAppend(f[..k], f[k..]);
    assert f == f[..k] + f[k..];
    if k < |f| {
      SumCostInkedSnoc(f[..k], f[k]);
      InkedAppend(f[..k], [f[k]]);
      assert f[..k + 1] == f[..k] + [f[k]];
      assert Inked(f)[..|Inked(f[..k])| + 1] == Inked(f[..k + 1]);
    }
  }

  /** `r` carries the longest prefix of the text's tokens that is within the budget. */
  ghost predicate LongestWithin(text: Str, maxTokens: nat, r: Str)
  {
    var n := |Content(r)|;
    Count(r) <= maxTokens && n <= |Content(text)| && Content(r) == Content(text)[..n] &&
    (n < |Content(text)| ==> SumCost(Content(text)[..n + 1]) > maxTokens)
  }

  lemma {:induction false} FittingIsLongest(text: Str, maxTokens: nat, r: Str)
    requires Content(r) == Inked(Fragments(text)[..FitCount(Fragments(text), maxTokens)])
    ensures LongestWithin(text, maxTokens, r)
  {
    hide Content, Fragments, FitCount, SumCost;
    FitCountExact(Fragments(text), maxTokens);
    FitCountLongest(Fragments(text), maxTokens);
    PatternsAgree(text);
  }

  /** Truncation returns the longest prefix of the tokens within the budget if and only if no
      underscores keep tokens of the kept part from growing together. */
  lemma {:induction false} TruncateExactly(text: Str, maxTokens: nat)
    ensures LongestWithin(text, maxTokens, Truncate(text, maxTokens)) <==> FusesNothing(Kept(text, maxTokens))
  {
    hide Content, Fragments, FitCount, SumCost, FragmentsEnd, DropUnderscores;
    var kept := Kept(text, maxTokens);
    if maxTokens == 0 {
      NothingWithin(text);
    } else {
      TruncateKeeps(text, maxTokens);
      RejoinKeepsTokensExactly(kept);
      if FusesNothing(kept) {
        FittingIsLongest(text, maxTokens, Truncate(text, maxTokens));
      }
      if LongestWithin(text, maxTokens, Truncate(text, maxTokens)) {
        TokensOfKept(text, maxTokens);
        var more := Content(text)[|Content(kept)|..];
        assert Content(kept) + more == Content(text);
        PrefixMeansNothingFused(kept, more);
      }
    }
  }

  /** The kept part carries the first tokens of the text. */
  lemma {:induction false} TokensOfKept(text: Str, maxTokens: nat)
    requires maxTokens > 0
    ensures Content(Kept(text, maxTokens)) <= Content(text)
  {
    hide Content, Fragments, FitCount, SumCost, Kept;
    TruncateKeeps(text, maxTokens);
    FitCountLongest(Fragments(text), maxTokens);
    PatternsAgree(text);
  }

  lemma {:induction false} NothingWithin(text: Str)
    ensures LongestWithin(text, 0, []) && FusesNothing(Kept(text, 0))
  {
    hide Fragments, FragmentsEnd, FitCount;
    var k := FitCount(Fragments(text), 0);
    assert Content(text) != [] ==> Content(text)[..1] == [Content(text)[0]];
    LeadingFragments(text, k);
    PatternsAgree(Kept(text, 0));
    FitCountExact(Fragments(text), 0);
    NoTokensNothingFused(Kept(text, 0));
  }

  /** In particular for every text in which nothing fuses, such as underscore-free text: the
      result is a prefix of the text without its underscores, within the budget, and carries
      the longest prefix of its tokens that fits. */
  lemma {:induction false} TruncateIsLongestPrefix(text: Str, maxTokens: nat)
    requires FusesNothing(text)
    ensures Truncate(text, maxTokens) <= DropUnderscores(text)
    ensures LongestWithin(text, maxTokens, Truncate(text, maxTokens))
  {
    hide Content, Fragments, FitCount, FragmentsEnd, DropUnderscores, LongestWithin;
    LeadingFuseNothing(text, FitCount(Fragments(text), maxTokens));
    TruncateExactly(text, maxTokens);
    if maxTokens > 0 {
      TruncateKeeps(text, maxTokens);
      DropOfPrefix(text, |Kept(text, maxTokens)|);
      assert text[..|Kept(text, maxTokens)|] == Kept(text, maxTokens);
    }
  }

  lemma {:induction false} FitCountAll(frags: seq<Str>, budget: int)
    requires SumCost(Inked(frags)) <= budget
    ensures FitCount(frags, budget) == |frags|
  {
    if frags != [] {
      SumCostInkedCons(frags);
      FitCountAll(frags[1..], budget - SubCount(frags[0]));
    }
  }

  /** Text already within the budget comes back whole, up to underscores and trailing
      whitespace. */
  lemma {:induction false} TruncateKeepsFitting(text: Str, maxTokens: nat)
    requires Count(text) <= maxTokens
    ensures Truncate(text, maxTokens) == RStrip(DropUnderscores(text))
    ensures UnderscoreFree(text) ==> Truncate(text, maxTokens) == RStrip(text)
  {
    hide Fragments, DropUnderscores;
    var f := Fragments(text);
    PatternsAgree(text);
    FragmentsConcat(text);
    if text == [] {
      NothingKept();
    } else if maxTokens == 0 {
      NoTokensLeavesBlank(text);
      StripOfBlank(DropUnderscores(text));
    } else {
      FitCountAll(f, maxTokens);
      assert f[..|f|] == f;
    }
  }

  lemma {:induction false} NoTokensLeavesBlank(text: Str)
    requires Count(text) == 0
    ensures IsBlank(DropUnderscores(text))
    decreases |text|
  {
    hide MatchLen;
    if text != [] && (IsSpace(text[0]) || text[0].Underscore?) {
      NoTokensLeavesBlank(text[1..]);
    }
  }

  lemma {:induction false} TruncateUnderscoreFree(text: Str, maxTokens: nat)
    ensures UnderscoreFree(Truncate(text, maxTokens))
  {
    hide Content, Fragments, FitCount, DropUnderscores, Kept;
    if maxTokens > 0 {
      TruncateKeeps(text, maxTokens);
    }
  }

  /** Truncating twice is truncating once if and only if the first result met the budget. */
  lemma {:induction false} TruncateIdempotentExactly(text: Str, maxTokens: nat)
    ensures Truncate(Truncate(text, maxTokens), maxTokens) == Truncate(text, maxTokens) <==>
            Count(Truncate(text, maxTokens)) <= maxTokens
  {
    hide Content, SumCost;
    var r := Truncate(text, maxTokens);
    TruncateUnderscoreFree(text, maxTokens);
    UnderscoreFreeStaysPut(r);
    TruncateIsLongestPrefix(r, maxTokens);
    if Count(r) <= maxTokens {
      TruncateKeepsFitting(r, maxTokens);
      RightStripped(text, maxTokens);
    }
  }

  lemma {:induction false} RightStripped(text: Str, maxTokens: nat)
    ensures RStrip(Truncate(text, maxTokens)) == Truncate(text, maxTokens)
  {
    hide Fragments, FitCount, Concat;
  }

  /** In particular for every text of which nothing fuses in the kept part. */
  lemma {:induction false} TruncateIdempotent(text: Str, maxTokens: nat)
    requires FusesNothing(Kept(text, maxTokens))
    ensures Truncate(Truncate(text, maxTokens), maxTokens) == Truncate(text, maxTokens)
  {
    hide Content, Kept, Truncate;
    TruncateExactly(text, maxTokens);
    TruncateIdempotentExactly(text, maxTokens);
  }

  /** The condition can fail: with a budget of 2, two eight-letter words around an
      underscore come back fused into a text that counts 3. */
  lemma TruncateOverrunsOnUnderscore(a: Str, b: Str)
    requires a == Repeat(Letter('a'), 8) && b == Repeat(Letter('b'), 8)
    ensures Count(Truncate(a + [Underscore] + b, 2)) == 3
  {
    var s := a + [Underscore] + b;
    var f := Fragments(s);
    UnderscoreFusesWords(a, b);
    PatternsAgree(s);
    FitCountAll(f, 2);
    assert f[..|f|] == f;
    ContentRStrip(Concat(f));
  }
}
