/** The regular expressions of the source under a backtracking matcher, and the hand-written lexer
    and splitter as what that matcher finds. */
module PatternMatch {
  import opened Wrappers
  import opened Text
  import opened Lexer

  // ------------------------------------------------------------------------- the matcher

  /** Patterns over character classes.  Repetitions are greedy. */
  datatype Pattern =
    | One(c: Ch -> bool)
    | Many(c: Ch -> bool, least: nat)
    | Then(first: Pattern, second: Pattern)
    | Or(first: Pattern, second: Pattern)
    | Maybe(inner: Pattern)

  /** The lengths `hi`, `hi - 1`, ..., `lo`. */
  function Down(hi: nat, lo: nat): (r: seq<nat>)
    decreases hi
  {
    if hi < lo then [] else if hi == 0 then [0] else [hi] + Down(hi - 1, lo)
  }

  /** The lengths of all matches at the start of `s`, in the order a backtracking matcher tries
      them. */
  function Lengths(p: Pattern, s: Str): (r: seq<nat>)
    ensures forall i :: 0 <= i < |r| ==> r[i] <= |s|
    decreases p, 0
  {
    match p
    case One(c) => if s != [] && c(s[0]) then [1] else []
    case Many(c, least) => DownBounded(RunLen(s, c), least); Down(RunLen(s, c), least)
    case Then(a, b) => Continue(b, s, Lengths(a, s))
    case Or(a, b) => Lengths(a, s) + Lengths(b, s)
    case Maybe(a) => Lengths(a, s) + [0]
  }

  /** Each way to go on after a first part, in order. */
  function Continue(p: Pattern, s: Str, firsts: seq<nat>): (r: seq<nat>)
    requires forall i :: 0 <= i < |firsts| ==> firsts[i] <= |s|
    ensures forall i :: 0 <= i < |r| ==> r[i] <= |s|
    decreases p, 1, |firsts|
  {
    if firsts == [] then []
    else Shifted(Lengths(p, s[firsts[0]..]), firsts[0]) + Continue(p, s, firsts[1..])
  }

  function Shifted(ns: seq<nat>, d: nat): (r: seq<nat>)
    ensures |r| == |ns| && forall i :: 0 <= i < |r| ==> r[i] == ns[i] + d
  {
    seq(|ns|, i requires 0 <= i < |ns| => ns[i] + d)
  }

  lemma {:induction false} DownBounded(hi: nat, lo: nat)
    ensures forall i :: 0 <= i < |Down(hi, lo)| ==> lo <= Down(hi, lo)[i] <= hi
    ensures if lo <= hi then Down(hi, lo) != [] && Down(hi, lo)[0] == hi else Down(hi, lo) == []
    decreases hi
  {
    if hi > 0 {
      DownBounded(hi - 1, lo);
    }
  }

  /** The match that is taken: the first one. */
  function Match(p: Pattern, s: Str): (r: Option<nat>)
  {
    if Lengths(p, s) == [] then None else Some(Lengths(p, s)[0])
  }

  /** `findall`: the leftmost matches, one after the other.  Matches here are never empty. */
  function FindAll(p: Pattern, s: Str): (r: seq<Str>)
    decreases |s|
  {
    if s == [] then []
    else
      var m := Match(p, s);
      if m.None? || m.value == 0 || m.value > |s| then FindAll(p, s[1..])
      else [s[..m.value]] + FindAll(p, s[m.value..])
  }

  // ------------------------------------------------------------------ the token patterns

  predicate WordClass(ch: Ch)
  {
    ch.ArabicLetter? || ch.ArabicDigit? || ch.Letter? || ch.Numeral? || ch.Digit? || ch.Underscore?
  }

  predicate DigitClass(ch: Ch) { ch.Digit? || ch.ArabicDigit? }

  predicate SpaceClass(ch: Ch) { ch.Space? }

  predicate ArabicClass(ch: Ch) { ch.ArabicLetter? || ch.ArabicDigit? || ch.ArabicMark? }

  /** `[^\W\d_]` */
  predicate AlphaClass(ch: Ch) { WordClass(ch) && !DigitClass(ch) && !ch.Underscore? }

  /** `[.,]` */
  predicate PointClass(ch: Ch) { ch == Symbol('.') || ch == Symbol(',') }

  /** `[^\w\s]` */
  predicate OtherClass(ch: Ch) { !WordClass(ch) && !SpaceClass(ch) }

  /** `\d+(?:[.,]\d+)?` */
  const NUMBER := Then(Many(DigitClass, 1), Maybe(Then(One(PointClass), Many(DigitClass, 1))))

  const CONTENT_PATTERN := Or(Many(ArabicClass, 1), Or(Many(AlphaClass, 1), Or(NUMBER, One(OtherClass))))

  const TOKEN_PATTERN :=
    Or(Many(ArabicClass, 1), Or(Many(AlphaClass, 1), Or(NUMBER, Or(One(OtherClass), Many(SpaceClass, 1)))))

  lemma {:induction false} SameRunLen(s: Str, p: Ch -> bool, q: Ch -> bool)
    requires forall i :: 0 <= i < |s| ==> p(s[i]) == q(s[i])
    ensures RunLen(s, p) == RunLen(s, q)
  {
    RunLenUnique(s, q, RunLen(s, p));
  }

  lemma {:induction false} ManyFirst(s: Str, c: Ch -> bool, least: nat)
    ensures Match(Many(c, least), s) == if RunLen(s, c) < least then None else Some(RunLen(s, c))
  {
    DownBounded(RunLen(s, c), least);
  }

  lemma {:induction false} OrFirst(s: Str, a: Pattern, b: Pattern)
    ensures Match(Or(a, b), s) == if Match(a, s).Some? then Match(a, s) else Match(b, s)
  {
  }

  lemma {:induction false} OneFirst(s: Str, c: Ch -> bool)
    ensures Match(One(c), s) == if s != [] && c(s[0]) then Some(1) else None
  {
  }

  /** If the first try of the first part can go on, that is the match. */
  lemma {:induction false} ThenFirst(s: Str, a: Pattern, b: Pattern)
    requires Match(a, s).Some? ==> Match(a, s).value <= |s| && Match(b, s[Match(a, s).value..]).Some?
    ensures Match(Then(a, b), s) ==
      if Match(a, s).None? then None else Some(Match(a, s).value + Match(b, s[Match(a, s).value..]).value)
  {
    hide Lengths;
    ThenUnfolds(s, a, b);
    var firsts := Lengths(a, s);
    if firsts != [] {
      assert Continue(b, s, firsts)[0] == Shifted(Lengths(b, s[firsts[0]..]), firsts[0])[0];
    }
  }

  lemma {:induction false} ThenUnfolds(s: Str, a: Pattern, b: Pattern)
    ensures Lengths(Then(a, b), s) == Continue(b, s, Lengths(a, s))
  {
  }

  lemma {:induction false} MaybeFirst(s: Str, a: Pattern)
    ensures Match(Maybe(a), s) == if Match(a, s).Some? then Match(a, s) else Some(0)
  {
  }

  /** Digits, and a point with digits after it if they follow. */
  lemma {:induction false} NumberFirst(s: Str)
    requires s != []
    ensures Match(NUMBER, s) == if DigitCh(s[0]) then Some(NumberLen(s)) else None
  {
    hide Match, RunLen;
    SameRunLen(s, DigitClass, DigitCh);
    ManyFirst(s, DigitClass, 1);
    FirstDigit(s);
    var n := RunLen(s, DigitCh);
    if n > 0 {
      var rest := s[n..];
      PointFirst(rest);
      if rest != [] {
        assert rest[0] == s[n] && rest[1..] == s[n + 1..];
      }
      MaybeFirst(rest, Then(One(PointClass), Many(DigitClass, 1)));
      ThenFirst(s, Many(DigitClass, 1), Maybe(Then(One(PointClass), Many(DigitClass, 1))));
    } else {
      ThenFirst(s, Many(DigitClass, 1), Maybe(Then(One(PointClass), Many(DigitClass, 1))));
    }
  }

  lemma {:induction false} FirstDigit(s: Str)
    requires s != []
    ensures RunLen(s, DigitCh) > 0 <==> DigitCh(s[0])
  {
  }

  lemma {:induction false} PointFirst(s: Str)
    ensures Match(Then(One(PointClass), Many(DigitClass, 1)), s) ==
      if |s| > 1 && DecimalSep(s[0]) && DigitCh(s[1]) then Some(1 + RunLen(s[1..], DigitCh)) else None
  {
    hide RunLen, Match;
    if s != [] && PointClass(s[0]) {
      SameRunLen(s[1..], DigitClass, DigitCh);
      ManyFirst(s[1..], DigitClass, 1);
      if s[1..] != [] {
        FirstDigit(s[1..]);
      } else {
        NothingRuns(DigitCh);
      }
      OneThen(s, Many(DigitClass, 1));
    } else {
      OneThenNot(s, Many(DigitClass, 1));
    }
  }

  lemma {:induction false} OneThenNot(s: Str, b: Pattern)
    requires s == [] || !PointClass(s[0])
    ensures Match(Then(One(PointClass), b), s) == None
  {
    ThenUnfolds(s, One(PointClass), b);
    assert Lengths(One(PointClass), s) == [];
  }

  lemma {:induction false} NothingRuns(p: Ch -> bool)
    ensures RunLen([], p) == 0
  {
  }

  lemma {:induction false} OneThen(s: Str, b: Pattern)
    requires s != [] && PointClass(s[0])
    ensures Match(Then(One(PointClass), b), s) ==
      if Match(b, s[1..]).None? then None else Some(1 + Match(b, s[1..]).value)
  {
    var firsts: seq<nat> := [1];
    assert Lengths(One(PointClass), s) == firsts;
    assert firsts[1..] == [];
    ThenUnfolds(s, One(PointClass), b);
    assert Continue(b, s, firsts) == Shifted(Lengths(b, s[1..]), 1) + Continue(b, s, firsts[1..]);
    assert Continue(b, s, firsts[1..]) == [];
  }

  lemma {:induction false} ClassesAgree(s: Str)
    ensures RunLen(s, ArabicClass) == RunLen(s, ArabicCh) && RunLen(s, AlphaClass) == RunLen(s, WordCh)
    ensures RunLen(s, SpaceClass) == RunLen(s, IsSpace)
  {
    SameRunLen(s, ArabicClass, ArabicCh);
    SameRunLen(s, AlphaClass, WordCh);
    SameRunLen(s, SpaceClass, IsSpace);
  }

  lemma {:induction false} RunsStart(s: Str, p: Ch -> bool)
    requires s != []
    ensures RunLen(s, p) > 0 <==> p(s[0])
  {
  }

  /** At every position, the lexer's match is the one the matcher takes for the token pattern; for the
      pattern without its whitespace alternative the same, except that whitespace does not match. */
  lemma {:induction false} MatchLenIsMatch(s: Str)
    requires s != []
    ensures Match(TOKEN_PATTERN, s) == if MatchLen(s) == 0 then None else Some(MatchLen(s))
    ensures Match(CONTENT_PATTERN, s) == if MatchLen(s) == 0 || IsSpace(s[0]) then None else Some(MatchLen(s))
  {
    hide Match, RunLen, NumberLen;
    ClassesAgree(s);
    RunsStart(s, ArabicCh);
    RunsStart(s, WordCh);
    RunsStart(s, IsSpace);
    ManyFirst(s, ArabicClass, 1);
    ManyFirst(s, AlphaClass, 1);
    ManyFirst(s, SpaceClass, 1);
    NumberFirst(s);
    OneFirst(s, OtherClass);
    OrFirst(s, One(OtherClass), Many(SpaceClass, 1));
    OrFirst(s, NUMBER, One(OtherClass));
    OrFirst(s, NUMBER, Or(One(OtherClass), Many(SpaceClass, 1)));
    OrFirst(s, Many(AlphaClass, 1), Or(NUMBER, One(OtherClass)));
    OrFirst(s, Many(AlphaClass, 1), Or(NUMBER, Or(One(OtherClass), Many(SpaceClass, 1))));
    OrFirst(s, Many(ArabicClass, 1), Or(Many(AlphaClass, 1), Or(NUMBER, One(OtherClass))));
    OrFirst(s, Many(ArabicClass, 1),
            Or(Many(AlphaClass, 1), Or(NUMBER, Or(One(OtherClass), Many(SpaceClass, 1)))));
  }

  /** The fragments of a text are what the token pattern finds in it. */
  lemma {:induction false} FragmentsAreFound(s: Str)
    ensures FindAll(TOKEN_PATTERN, s) == Fragments(s)
    decreases |s|
  {
    hide Match, MatchLen;
    if s != [] {
      MatchLenIsMatch(s);
      FragmentsAreFound(s[if MatchLen(s) == 0 then 1 else MatchLen(s)..]);
    }
  }

  /** The tokens that are counted are what the content pattern finds. */
  lemma {:induction false} ContentIsFound(s: Str)
    ensures FindAll(CONTENT_PATTERN, s) == Content(s)
    decreases |s|
  {
    hide Match, MatchLen;
    if s != [] {
      MatchLenIsMatch(s);
      ContentIsFound(s[if MatchLen(s) == 0 || IsSpace(s[0]) then 1 else MatchLen(s)..]);
    }
  }
}
