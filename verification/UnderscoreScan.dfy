/** The condition that underscores fuse nothing, read off the characters from left to right. */
module UnderscoreScan {
  import opened Text
  import opened Lexer
  import opened Underscores

  /** What is being read: nothing that can go on, an Arabic run, a word, the digits of a number
      before its separator, the separator, or the digits after it. */
  datatype State = Fresh | InArabic | InWord | InNumber | AtPoint | InFraction

  /** The character belongs to the token being read. */
  predicate GoesOn(q: State, ch: Ch)
  {
    match q
    case Fresh => false
    case InArabic => ArabicCh(ch)
    case InWord => WordCh(ch)
    case InNumber => DigitCh(ch)
    case AtPoint => DigitCh(ch)
    case InFraction => DigitCh(ch)
  }

  function Start(ch: Ch): (q: State)
  {
    if ArabicCh(ch) then InArabic else if WordCh(ch) then InWord else if DigitCh(ch) then InNumber else Fresh
  }

  function Next(q: State, ch: Ch): (r: State)
  {
    if GoesOn(q, ch) then (if q == AtPoint then InFraction else q)
    else if q == InNumber && DecimalSep(ch) then AtPoint
    else Start(ch)
  }

  /** No underscore stands between a character and one that would go on with its token.  `gap`
      says that underscores came since; a separator after a number keeps it open. */
  predicate NothingMeets(s: Str, q: State, gap: bool)
    decreases |s|
  {
    if s == [] then true
    else if s[0].Underscore? then NothingMeets(s[1..], q, true)
    else if GoesOn(q, s[0]) then !gap && NothingMeets(s[1..], Next(q, s[0]), false)
    else NothingMeets(s[1..], Next(q, s[0]), gap && Next(q, s[0]) == AtPoint)
  }

  predicate StartsDigit(s: Str) { s != [] && DigitCh(s[0]) }

  predicate StartsPoint(s: Str) { s != [] && DecimalSep(s[0]) && StartsDigit(s[1..]) }

  lemma {:induction false} FreshGap(s: Str)
    ensures NothingMeets(s, Fresh, true) <==> NothingMeets(s, Fresh, false)
  {
  }

  /** A token that has ended, other than a number that may still get its fraction. */
  lemma {:induction false} AtEnd(r: Str, q: State, gap: bool)
    requires q != InNumber && (gap || r == [] || !GoesOn(q, r[0]))
    ensures var d := DropUnderscores(r);
      NothingMeets(r, q, gap) <==> (d == [] || !GoesOn(q, d[0])) && NothingMeets(r, Fresh, false)
    decreases |r|
  {
    if r != [] && r[0].Underscore? {
      AtEnd(r[1..], q, true);
      FreshGap(r[1..]);
    }
  }

  /** A number that has ended before any separator. */
  lemma {:induction false} AtNumberEnd(r: Str, gap: bool)
    requires gap || (!StartsDigit(r) && !StartsPoint(r))
    ensures var d := DropUnderscores(r);
      NothingMeets(r, InNumber, gap) <==> !StartsDigit(d) && !StartsPoint(d) && NothingMeets(r, Fresh, false)
    decreases |r|
  {
    hide DropUnderscores, NothingMeets;
    if r == [] {
      DropUnderscoresNone();
      ReadNothing(InNumber, gap);
      ReadNothing(Fresh, false);
    } else {
      DropUnderscoresStep(r);
      ReadStep(r, InNumber, gap);
      ReadStep(r, Fresh, false);
      if r[0].Underscore? {
        AtNumberEnd(r[1..], true);
        FreshGap(r[1..]);
      } else if DecimalSep(r[0]) {
        assert DropUnderscores(r)[1..] == DropUnderscores(r[1..]);
        AtEnd(r[1..], AtPoint, gap);
      }
    }
  }

  lemma {:induction false} ReadNothing(q: State, gap: bool)
    ensures NothingMeets([], q, gap)
  {
  }

  lemma {:induction false} ReadStep(s: Str, q: State, gap: bool)
    requires s != []
    ensures NothingMeets(s, q, gap) <==>
      if s[0].Underscore? then NothingMeets(s[1..], q, true)
      else if GoesOn(q, s[0]) then !gap && NothingMeets(s[1..], Next(q, s[0]), false)
      else NothingMeets(s[1..], Next(q, s[0]), gap && Next(q, s[0]) == AtPoint)
  {
  }

  /** Reading on inside a token. */
  lemma {:induction false} ReadRun(s: Str, q: State, n: nat)
    requires n <= |s| && q != AtPoint && forall i :: 0 <= i < n ==> GoesOn(q, s[i])
    ensures NothingMeets(s, q, false) <==> NothingMeets(s[n..], q, false)
  {
    if n > 0 {
      ReadRun(s[1..], q, n - 1);
      assert s[1..][n - 1..] == s[n..];
    }
  }

  /** A run in the text without underscores ends where it did, or goes on. */
  lemma {:induction false} RunStops(a: Str, d: Str, p: Ch -> bool)
    requires forall i :: 0 <= i < |a| ==> p(a[i])
    ensures RunLen(a + d, p) == |a| <==> d == [] || !p(d[0])
    ensures RunLen(a + d, p) >= |a|
  {
    var s := a + d;
    if d == [] || !p(d[0]) {
      RunLenUnique(s, p, |a|);
    } else {
      var n := RunLen(s, p);
      assert s[|a|] == d[0];
      if n <= |a| {
        assert false;
      }
    }
  }

  /** A token that is one run of characters. */
  lemma {:induction false} RunMeets(s: Str, q: State, p: Ch -> bool)
    requires s != [] && !s[0].Underscore? && (q == InArabic || q == InWord) && Start(s[0]) == q
    requires forall ch :: GoesOn(q, ch) <==> p(ch)
    requires MatchLen(s) == RunLen(s, p) && MatchLen(DropUnderscores(s)) == RunLen(DropUnderscores(s), p)
    ensures NothingMeets(s, Fresh, false) <==>
            MatchLen(DropUnderscores(s)) == MatchLen(s) && NothingMeets(s[MatchLen(s)..], Fresh, false)
  {
    hide MatchLen, DropUnderscores;
    var m := MatchLen(s);
    DropAtMatch(s);
    assert p(s[0]);
    assert NothingMeets(s, Fresh, false) <==> NothingMeets(s, q, false);
    ReadRun(s, q, m);
    AtEnd(s[m..], q, false);
    RunStops(s[..m], DropUnderscores(s[m..]), p);
  }

  /** What `NumberLen` makes of digits and what follows. */
  lemma {:induction false} NumberStops(a: Str, d: Str)
    requires a != [] && forall i :: 0 <= i < |a| ==> DigitCh(a[i])
    ensures NumberLen(a + d) == |a| <==> !StartsDigit(d) && !StartsPoint(d)
  {
    var s, n := a + d, |a|;
    RunStops(a, d, DigitCh);
    if !StartsDigit(d) && d != [] {
      assert s[n] == d[0] && s[n + 1..] == d[1..];
    }
  }

  /** The same after a separator. */
  lemma {:induction false} FractionStops(a: Str, sep: Ch, b: Str, d: Str)
    requires a != [] && (forall i :: 0 <= i < |a| ==> DigitCh(a[i])) && DecimalSep(sep)
    requires b != [] && forall i :: 0 <= i < |b| ==> DigitCh(b[i])
    ensures var s := a + [sep] + b + d;
      DigitCh(s[0]) && (NumberLen(s) == |a + [sep] + b| <==> !StartsDigit(d))
  {
    var s := a + [sep] + b + d;
    RunStops(a, [sep] + (b + d), DigitCh);
    assert s == a + ([sep] + (b + d)) && s[|a|] == sep && s[|a| + 1..] == b + d;
    RunStops(b, d, DigitCh);
  }

  lemma {:induction false} NumberMeets(s: Str)
    requires s != [] && DigitCh(s[0]) && !ArabicCh(s[0])
    ensures NothingMeets(s, Fresh, false) <==>
            MatchLen(DropUnderscores(s)) == MatchLen(s) && NothingMeets(s[MatchLen(s)..], Fresh, false)
  {
    hide DropUnderscores, NothingMeets, NumberLen, RunLen, StartsDigit, StartsPoint;
    var k, m := RunLen(s, DigitCh), NumberLen(s);
    var d := DropUnderscores(s[m..]);
    NumberShape(s);
    DropAtMatch(s);
    ReadStep(s, Fresh, false);
    ReadStep(s, InNumber, false);
    ReadRun(s, InNumber, k);
    if m == k {
      AtNumberEnd(s[k..], false);
      NumberStops(s[..k], d);
    } else {
      FractionStops(s[..k], s[k], s[k + 1..m], d);
      FractionMeets(s, k, m);
      FractionEnds(s[m..]);
    }
  }

  /** A number is digits, or digits, a separator and digits. */
  lemma {:induction false} NumberShape(s: Str)
    requires s != [] && DigitCh(s[0])
    ensures var k, m := RunLen(s, DigitCh), NumberLen(s);
      0 < k <= m <= |s| && (forall i :: 0 <= i < k ==> DigitCh(s[i])) &&
      if m == k then !StartsDigit(s[k..]) && !StartsPoint(s[k..])
      else
        k + 1 < m && DecimalSep(s[k]) && (forall i :: k < i < m ==> DigitCh(s[i])) && !StartsDigit(s[m..]) &&
        s[..m] == s[..k] + [s[k]] + s[k + 1..m]
  {
    hide RunLen;
    var k, m := RunLen(s, DigitCh), NumberLen(s);
    FirstDigitRuns(s);
    if m == k {
      if k < |s| {
        assert s[k..][0] == s[k] && s[k..][1..] == s[k + 1..];
        assert k + 1 < |s| ==> s[k + 1..][0] == s[k + 1];
      }
    } else {
      FractionShape(s, k);
    }
  }

  lemma {:induction false} FirstDigitRuns(s: Str)
    requires s != [] && DigitCh(s[0])
    ensures RunLen(s, DigitCh) > 0
  {
  }

  lemma {:induction false} FractionShape(s: Str, k: nat)
    requires k + 1 < |s| && DigitCh(s[k + 1])
    ensures var m := k + 1 + RunLen(s[k + 1..], DigitCh);
      k + 1 < m <= |s| && (forall i :: k < i < m ==> DigitCh(s[i])) && !StartsDigit(s[m..]) &&
      s[..m] == s[..k] + [s[k]] + s[k + 1..m]
  {
    hide RunLen;
    var after := s[k + 1..];
    var n := RunLen(after, DigitCh);
    assert after[0] == s[k + 1];
    forall i | k < i < k + 1 + n ensures DigitCh(s[i]) {
      assert after[i - k - 1] == s[i];
    }
    assert n < |after| ==> after[n] == s[k + 1 + n];
  }

  lemma {:induction false} FractionEnds(r: Str)
    requires !StartsDigit(r)
    ensures NothingMeets(r, InFraction, false) <==>
            !StartsDigit(DropUnderscores(r)) && NothingMeets(r, Fresh, false)
  {
    hide DropUnderscores, NothingMeets;
    AtEnd(r, InFraction, false);
  }

  lemma {:induction false} FractionMeets(s: Str, k: nat, m: nat)
    requires k + 1 < m <= |s| && DecimalSep(s[k])
    requires forall i :: k < i < m ==> DigitCh(s[i])
    ensures NothingMeets(s[k..], InNumber, false) <==> NothingMeets(s[m..], InFraction, false)
  {
    var after := s[k + 1..];
    assert s[k..][1..] == after && after[1..] == s[k + 2..];
    assert NothingMeets(s[k..], InNumber, false) <==> NothingMeets(after, AtPoint, false);
    assert NothingMeets(after, AtPoint, false) <==> NothingMeets(after[1..], InFraction, false);
    ReadRun(s[k + 2..], InFraction, m - k - 2);
    assert s[k + 2..][m - k - 2..] == s[m..];
  }

  /** Nothing fuses in a text if and only if reading it character by character never finds an
      underscore between a character and one that would go on with its token. */
  lemma {:induction false} FusesNothingByCharacters(s: Str)
    ensures FusesNothing(s) <==> NothingMeets(s, Fresh, false)
    decreases |s|
  {
    hide MatchLen, DropUnderscores;
    if s != [] {
      if IsSpace(s[0]) || s[0].Underscore? {
        FusesNothingByCharacters(s[1..]);
        FreshGap(s[1..]);
      } else {
        FusesNothingByCharacters(s[MatchLen(s)..]);
        TokenMeets(s);
      }
    }
  }

  lemma {:induction false} TokenMeets(s: Str)
    requires s != [] && !IsSpace(s[0]) && !s[0].Underscore?
    ensures NothingMeets(s, Fresh, false) <==>
            MatchLen(DropUnderscores(s)) == MatchLen(s) && NothingMeets(s[MatchLen(s)..], Fresh, false)
  {
    hide DropUnderscores, RunLen, NumberLen;
    DropAtMatch(s);
    if ArabicCh(s[0]) {
      RunMeets(s, InArabic, ArabicCh);
    } else if WordCh(s[0]) {
      RunMeets(s, InWord, WordCh);
    } else if DigitCh(s[0]) {
      NumberMeets(s);
    }
  }
}
