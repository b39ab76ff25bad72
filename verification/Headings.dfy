/** The heading stack, and what it remembers of a document's headings. */
module Headings {
  import opened Text

  datatype Heading = Heading(level: int, title: Str)

  /** Drop headings from the end while they are at `level` or deeper. */
  function PopTo(stack: seq<Heading>, level: int): (r: seq<Heading>)
  {
    if stack != [] && stack[|stack| - 1].level >= level then PopTo(stack[..|stack| - 1], level) else stack
  }

  /** What an update records: nothing for a blank title; otherwise the stripped title at a
      level of at least 1. */
  function Recorded(h: Heading): (r: seq<Heading>)
  {
    if Strip(h.title) == [] then [] else [Heading(if h.level < 1 then 1 else h.level, Strip(h.title))]
  }

  function Push(stack: seq<Heading>, h: Heading): (r: seq<Heading>)
  {
    if Recorded(h) == [] then stack else PopTo(stack, Recorded(h)[0].level) + Recorded(h)
  }

  function Titles(stack: seq<Heading>): (r: seq<Str>)
    ensures |r| == |stack| && forall i :: 0 <= i < |r| ==> r[i] == stack[i].title
  {
    if stack == [] then [] else [stack[0].title] + Titles(stack[1..])
  }

  const PATH_SEP: Str := [BLANK, Symbol('>'), BLANK]

  function Context(stack: seq<Heading>): (r: Str) { Join(PATH_SEP, Titles(stack)) }

  class HeadingPathTracker {
    var stack: seq<Heading>

    constructor ()
      ensures stack == []
    {
      stack := [];
    }

    method Update(level: int, title: Str)
      modifies this
      ensures stack == Push(old(stack), Heading(level, title))
    {
      hide Strip;
      var cleaned := Strip(title);
      if cleaned == [] {
        return;
      }
      var norm := if level < 1 then 1 else level;
      while stack != [] && stack[|stack| - 1].level >= norm
        invariant PopTo(stack, norm) == PopTo(old(stack), norm)
        decreases |stack|
      {
        stack := stack[..|stack| - 1];
      }
      stack := stack + [Heading(norm, cleaned)];
    }

    method Reset()
      modifies this
      ensures stack == []
    {
      stack := [];
    }
  }

  // ------------------------------------------------------------- the stack and its history

  /** The stack after a whole history of updates. */
  function StackOf(history: seq<Heading>): (r: seq<Heading>)
  {
    if history == [] then [] else Push(StackOf(history[..|history| - 1]), history[|history| - 1])
  }

  /** The headings a history records. */
  function AllRecorded(history: seq<Heading>): (r: seq<Heading>)
  {
    if history == [] then [] else Recorded(history[0]) + AllRecorded(history[1..])
  }

  /** The headings that no later heading of the same or a smaller level number closes. */
  function StillOpen(hs: seq<Heading>): (r: seq<Heading>)
  {
    if hs == [] then []
    else (if forall k :: 1 <= k < |hs| ==> hs[k].level > hs[0].level then [hs[0]] else []) +
         StillOpen(hs[1..])
  }

  ghost predicate Increasing(stack: seq<Heading>)
  {
    forall i, j :: 0 <= i < j < |stack| ==> stack[i].level < stack[j].level
  }

  function Shallower(hs: seq<Heading>, level: int): (r: seq<Heading>)
  {
    if hs == [] then [] else (if hs[0].level < level then [hs[0]] else []) + Shallower(hs[1..], level)
  }

  lemma {:induction false} ShallowerAll(hs: seq<Heading>, level: int)
    requires forall i :: 0 <= i < |hs| ==> hs[i].level < level
    ensures Shallower(hs, level) == hs
  {
    if hs != [] {
      ShallowerAll(hs[1..], level);
    }
  }

  lemma {:induction false} ShallowerAppend(a: seq<Heading>, b: seq<Heading>, level: int)
    ensures Shallower(a + b, level) == Shallower(a, level) + Shallower(b, level)
  {
    if a == [] {
      assert a + b == b;
    } else {
      assert (a + b)[1..] == a[1..] + b;
      ShallowerAppend(a[1..], b, level);
    }
  }

  /** On a stack of increasing levels, popping from the end removes exactly the headings at
      the new level or deeper. */
  lemma {:induction false} PopIsFilter(stack: seq<Heading>, level: int)
    requires Increasing(stack)
    ensures PopTo(stack, level) == Shallower(stack, level)
    decreases |stack|
  {
    if stack != [] {
      var front, last := stack[..|stack| - 1], stack[|stack| - 1];
      assert stack == front + [last];
      if last.level >= level {
        PopIsFilter(front, level);
        ShallowerAppend(front, [last], level);
      } else {
        ShallowerAll(stack, level);
      }
    }
  }

  /** The first heading, if no later one closes it. */
  function HeadOpen(hs: seq<Heading>): (r: seq<Heading>)
    requires hs != []
  {
    if forall k :: 1 <= k < |hs| ==> hs[k].level > hs[0].level then [hs[0]] else []
  }

  lemma {:induction false} HeadStaysOpen(hs: seq<Heading>, h: Heading)
    requires hs != []
    ensures HeadOpen(hs + [h]) == Shallower(HeadOpen(hs), h.level)
  {
    var all := hs + [h];
    assert all[|hs|] == h;
    assert forall k :: 0 <= k < |hs| ==> all[k] == hs[k];
  }

  /** A new heading closes the open headings at its level or deeper and opens itself. */
  lemma {:induction false} StillOpenSnoc(hs: seq<Heading>, h: Heading)
    ensures StillOpen(hs + [h]) == Shallower(StillOpen(hs), h.level) + [h]
  {
    if hs == [] {
      assert (hs + [h])[1..] == [];
    } else {
      hide Shallower;
      StillOpenSnoc(hs[1..], h);
      assert (hs + [h])[1..] == hs[1..] + [h];
      HeadStaysOpen(hs, h);
      ShallowerAppend(HeadOpen(hs), StillOpen(hs[1..]), h.level);
    }
  }

  lemma {:induction false} ShallowerIncreasing(hs: seq<Heading>, level: int)
    requires Increasing(hs)
    ensures var r := Shallower(hs, level);
      Increasing(r) &&
      (forall i :: 0 <= i < |r| ==> r[i].level < level) &&
      (forall i :: 0 <= i < |r| && hs != [] ==> hs[0].level <= r[i].level)
  {
    if hs != [] {
      ShallowerIncreasing(hs[1..], level);
    }
  }

  lemma {:induction false} AllRecordedSnoc(history: seq<Heading>, h: Heading)
    ensures AllRecorded(history + [h]) == AllRecorded(history) + Recorded(h)
  {
    hide Recorded;
    if history == [] {
      assert (history + [h])[1..] == [];
    } else {
      assert (history + [h])[1..] == history[1..] + [h];
      AllRecordedSnoc(history[1..], h);
    }
  }

  /** After any sequence of updates, the stack is exactly the recorded headings that no later
      heading of equal or smaller level has closed, and its levels strictly increase. */
  lemma {:induction false} StackRefinesHistory(history: seq<Heading>)
    ensures StackOf(history) == StillOpen(AllRecorded(history))
    ensures Increasing(StackOf(history))
    decreases |history|
  {
    hide Recorded, AllRecorded, StillOpen, Shallower, PopTo;
    if history == [] {
      NothingOpen();
    } else {
      var before, h := history[..|history| - 1], history[|history| - 1];
      StackRefinesHistory(before);
      AllRecordedSnoc(before, h);
      assert history == before + [h];
      RecordedOne(h);
      if Recorded(h) != [] {
        var x := Recorded(h)[0];
        assert Recorded(h) == [x];
        PopIsFilter(StackOf(before), x.level);
        ShallowerIncreasing(StackOf(before), x.level);
        StillOpenSnoc(AllRecorded(before), x);
      } else {
        assert AllRecorded(history) == AllRecorded(before);
      }
    }
  }

  lemma NothingOpen()
    ensures StillOpen(AllRecorded([])) == []
  {
  }

  lemma RecordedOne(h: Heading)
    ensures |Recorded(h)| <= 1
  {
  }
}
