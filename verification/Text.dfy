/** Text as the chunking engine sees it: a sequence of characters, each carrying the
    Unicode class that the token patterns and the whitespace functions look at.
    Text is taken to be in NFKC form already. */
module Text {

  /** One character.  The constructor is its class:
      - `ArabicLetter`, `ArabicDigit`, `ArabicMark`: the characters of the Arabic word class;
        the letters and digits among them are also word characters, the marks are not;
      - `Letter`: any other word character that is neither a digit nor an underscore;
      - `Numeral`: such a character that `str.isdigit` nevertheless accepts;
      - `Digit`: any other decimal digit;
      - `Symbol`: neither a word character nor whitespace. */
  datatype Ch =
    | ArabicLetter(c: char)
    | ArabicDigit(c: char)
    | ArabicMark(c: char)
    | Letter(c: char)
    | Numeral(c: char)
    | Digit(c: char)
    | Symbol(c: char)
    | Underscore
    | Space(c: char)

  type Str = seq<Ch>

  const NEWLINE := Space('\n')
  const BLANK := Space(' ')

  predicate IsSpace(ch: Ch) { ch.Space? }

  predicate IsBlank(s: Str) { forall i :: 0 <= i < |s| ==> IsSpace(s[i]) }

  predicate UnderscoreFree(s: Str) { Underscore !in s }

  /** Length of the longest prefix all of whose characters are in class `p`. */
  function RunLen(s: Str, p: Ch -> bool): (n: nat)
    ensures n <= |s|
    ensures forall i :: 0 <= i < n ==> p(s[i])
    ensures n < |s| ==> !p(s[n])
  {
    if s == [] || !p(s[0]) then 0 else 1 + RunLen(s[1..], p)
  }

  /** A run is determined by its text: the only length with the run's two properties. */
  lemma {:induction false} RunLenUnique(s: Str, p: Ch -> bool, n: nat)
    requires n <= |s|
    requires forall i :: 0 <= i < n ==> p(s[i])
    requires n < |s| ==> !p(s[n])
    ensures RunLen(s, p) == n
  {
    if n > 0 {
      RunLenUnique(s[1..], p, n - 1);
    }
  }

  // ---------------------------------------------------------------- stripping

  function LStrip(s: Str): (r: Str) { s[RunLen(s, IsSpace)..] }

  function RStrip(s: Str): (r: Str)
    ensures |r| <= |s| && r == s[..|r|]
    ensures forall i :: |r| <= i < |s| ==> IsSpace(s[i])
    ensures r != [] ==> !IsSpace(r[|r| - 1])
  {
    if s == [] || !IsSpace(s[|s| - 1]) then s
    else RStrip(s[..|s| - 1])
  }

  function Strip(s: Str): (r: Str) { RStrip(LStrip(s)) }

  /** No whitespace at either end. */
  predicate Stripped(s: Str) { s != [] ==> !IsSpace(s[0]) && !IsSpace(s[|s| - 1]) }

  /** Stripping cuts `s` into whitespace, the stripped text, and whitespace. */
  lemma StripSplits(s: Str) returns (pre: Str, post: Str)
    ensures s == pre + Strip(s) + post
    ensures IsBlank(pre) && IsBlank(post)
    ensures Stripped(Strip(s))
    ensures Strip(s) == [] <==> IsBlank(s)
  {
    hide LStrip, RStrip, IsBlank, Stripped;
    var rest := LStrip(s);
    LStripSplits(s);
    pre := s[..|s| - |rest|];
    post := rest[|RStrip(rest)|..];
    RStripSplits(rest);
  }

  lemma {:induction false} LStripSplits(s: Str)
    ensures var rest := LStrip(s);
      |rest| <= |s| && s == s[..|s| - |rest|] + rest && IsBlank(s[..|s| - |rest|]) &&
      (rest == [] || !IsSpace(rest[0])) && (rest == [] <==> IsBlank(s))
  {
    hide RunLen;
    var n := RunLen(s, IsSpace);
    assert s == s[..n] + LStrip(s);
    assert n < |s| ==> LStrip(s)[0] == s[n];
  }

  /** Right-stripping a text that does not start with whitespace. */
  lemma {:induction false} RStripSplits(rest: Str)
    requires rest == [] || !IsSpace(rest[0])
    ensures var r := RStrip(rest);
      |r| <= |rest| && rest == r + rest[|r|..] && IsBlank(rest[|r|..]) && Stripped(r) && (r == [] <==> rest == [])
  {
    hide RStrip;
    var r := RStrip(rest);
    if r != [] {
      assert r[0] == rest[0];
    } else if rest != [] {
      assert false;
    }
  }

  /** The only way to write `s` as whitespace, a stripped non-empty text and whitespace. */
  lemma StripUnique(pre: Str, body: Str, post: Str)
    requires IsBlank(pre) && IsBlank(post) && Stripped(body) && body != []
    ensures Strip(pre + body + post) == body
  {
    var s := pre + body + post;
    RunLenUnique(s, IsSpace, |pre|);
    var rest := s[|pre|..];
    assert rest == body + post;
    var r := RStrip(rest);
    assert !IsSpace(rest[|body| - 1]);
    assert forall i :: |body| <= i < |rest| ==> rest[i] == post[i - |body|];
    assert r == body;
  }

  lemma StripId(s: Str)
    requires Stripped(s)
    ensures Strip(s) == s
  {
    if s != [] {
      StripUnique([], s, []);
      assert [] + s + [] == s;
    }
  }

  lemma StripOfBlank(s: Str)
    requires IsBlank(s)
    ensures Strip(s) == [] && RStrip(s) == []
  {
    var _, _ := StripSplits(s);
  }

  // ------------------------------------------------------- gluing texts together

  function Concat(parts: seq<Str>): (r: Str)
  {
    if parts == [] then [] else parts[0] + Concat(parts[1..])
  }

  lemma {:induction false} ConcatAppend(a: seq<Str>, b: seq<Str>)
    ensures Concat(a + b) == Concat(a) + Concat(b)
  {
    if a == [] {
      assert a + b == b;
    } else {
      assert (a + b)[1..] == a[1..] + b;
      ConcatAppend(a[1..], b);
    }
  }

  function Join(sep: Str, parts: seq<Str>): (r: Str)
  {
    if parts == [] then []
    else if |parts| == 1 then parts[0]
    else parts[0] + sep + Join(sep, parts[1..])
  }

  function SumLen(parts: seq<Str>): nat
  {
    if parts == [] then 0 else |parts[0]| + SumLen(parts[1..])
  }

  lemma {:induction false} JoinLength(sep: Str, parts: seq<Str>)
    requires parts != []
    ensures |Join(sep, parts)| == SumLen(parts) + |sep| * (|parts| - 1)
  {
    if |parts| > 1 {
      JoinLength(sep, parts[1..]);
    }
  }
}
