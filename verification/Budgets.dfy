/** Token, step and tool-call budgets of one agent run. */
module Budgets {
  import opened Wrappers

  datatype Dimension = TotalTokens | InputTokens | OutputTokens | Steps | ToolCalls

  datatype Caps = Caps(total: int, input: int, output: int)

  datatype Usage = Usage(total: int, input: int, output: int)

  const NO_USAGE := Usage(0, 0, 0)

  /** `int(n * 0.8)`: four fifths, truncated toward zero. */
  function FourFifths(n: int): int { if n >= 0 then 4 * n / 5 else -(4 * -n / 5) }

  /** `int(n * 0.2)`. */
  function OneFifth(n: int): int { if n >= 0 then n / 5 else -(-n / 5) }

  /** The caps of a budget; a limit of 0 counts as not given. */
  function MakeCaps(maxTokens: nat, maxInput: nat, maxOutput: nat, maxTotal: nat): (c: Caps)
  {
    var total := if maxTotal != 0 then maxTotal else maxTokens;
    Caps(total,
         if maxInput != 0 then maxInput else FourFifths(total),
         if maxOutput != 0 then maxOutput else OneFifth(total))
  }

  function AtLeastZero(n: int): int { if n < 0 then 0 else n }

  /** Usage after reporting `count` tokens, or an explicit split if either part is positive. */
  function Consumed(u: Usage, count: int, input: int, output: int): (r: Usage)
  {
    if input > 0 || output > 0 then
      Usage(u.total + AtLeastZero(input + output), u.input + AtLeastZero(input), u.output + AtLeastZero(output))
    else
      Usage(u.total + AtLeastZero(count), u.input + FourFifths(count), u.output + (count - FourFifths(count)))
  }

  /** The first cap exceeded, in the order they are checked. */
  function Exceeded(c: Caps, u: Usage): (d: Option<Dimension>)
  {
    if u.total > c.total then Some(TotalTokens)
    else if u.input > c.input then Some(InputTokens)
    else if u.output > c.output then Some(OutputTokens)
    else None
  }

  class TokenBudget {
    const caps: Caps
    var total: int
    var input: int
    var output: int

    constructor (maxTokens: nat, maxInput: nat, maxOutput: nat, maxTotal: nat)
      ensures caps == MakeCaps(maxTokens, maxInput, maxOutput, maxTotal)
      ensures Used() == NO_USAGE
    {
      caps := MakeCaps(maxTokens, maxInput, maxOutput, maxTotal);
      total, input, output := 0, 0, 0;
    }

    function Used(): (u: Usage)
      reads this
    {
      Usage(total, input, output)
    }

    /** Would these additional tokens exceed a cap? */
    method Check(additional: int, moreInput: int, moreOutput: int) returns (error: Option<Dimension>)
      ensures error.None? <==>
        total + additional <= caps.total &&
        (moreInput > 0 ==> input + moreInput <= caps.input) &&
        (moreOutput > 0 ==> output + moreOutput <= caps.output)
      ensures error == Some(TotalTokens) <==> total + additional > caps.total
      ensures error == Some(InputTokens) ==> moreInput > 0 && input + moreInput > caps.input
      ensures error == Some(OutputTokens) ==> !(moreInput > 0 && input + moreInput > caps.input)
      ensures error.Some? ==> error.value in {TotalTokens, InputTokens, OutputTokens}
    {
      if total + additional > caps.total {
        return Some(TotalTokens);
      }
      if moreInput > 0 && input + moreInput > caps.input {
        return Some(InputTokens);
      }
      if moreOutput > 0 && output + moreOutput > caps.output {
        return Some(OutputTokens);
      }
      return None;
    }

    method Consume(count: int, moreInput: int, moreOutput: int) returns (error: Option<Dimension>)
      modifies this
      ensures Used() == Consumed(old(Used()), count, moreInput, moreOutput)
      ensures error == Exceeded(caps, Used())
    {
      if moreInput > 0 || moreOutput > 0 {
        input := input + AtLeastZero(moreInput);
        output := output + AtLeastZero(moreOutput);
        total := total + AtLeastZero(moreInput + moreOutput);
      } else {
        total := total + AtLeastZero(count);
        input := input + FourFifths(count);
        output := output + (count - FourFifths(count));
      }
      if total > caps.total {
        return Some(TotalTokens);
      }
      if input > caps.input {
        return Some(InputTokens);
      }
      if output > caps.output {
        return Some(OutputTokens);
      }
      return None;
    }
  }

  class StepBudget {
    const maxSteps: nat
    const maxToolCalls: nat
    var steps: nat
    var toolCalls: nat

    constructor (maxSteps: nat, maxToolCalls: nat)
      ensures this.maxSteps == maxSteps && this.maxToolCalls == maxToolCalls
      ensures steps == 0 && toolCalls == 0
    {
      this.maxSteps, this.maxToolCalls := maxSteps, maxToolCalls;
      steps, toolCalls := 0, 0;
    }

    method CheckStep() returns (error: Option<Dimension>)
      ensures error.None? <==> steps < maxSteps
    {
      return if steps >= maxSteps then Some(Steps) else None;
    }

    method CheckToolCall() returns (error: Option<Dimension>)
      ensures error.None? <==> toolCalls < maxToolCalls
    {
      return if toolCalls >= maxToolCalls then Some(ToolCalls) else None;
    }

    method ConsumeStep() returns (error: Option<Dimension>)
      modifies this
      ensures steps == old(steps) + 1 && toolCalls == old(toolCalls)
      ensures error.None? <==> steps <= maxSteps
    {
      steps := steps + 1;
      return if steps > maxSteps then Some(Steps) else None;
    }

    method ConsumeToolCall() returns (error: Option<Dimension>)
      modifies this
      ensures toolCalls == old(toolCalls) + 1 && steps == old(steps)
      ensures error.None? <==> toolCalls <= maxToolCalls
    {
      toolCalls := toolCalls + 1;
      return if toolCalls > maxToolCalls then Some(ToolCalls) else None;
    }
  }

  // -------------------------------------------------------------------------- arithmetic

  predicate Balanced(u: Usage) { u.input + u.output == u.total }

  /** A proportional report keeps input plus output equal to the total exactly when the count
      is not negative. */
  lemma BalancedExactly(u: Usage, count: int)
    requires Balanced(u)
    ensures Balanced(Consumed(u, count, 0, 0)) <==> count >= 0
  {
  }

  /** A negative count is one that breaks the balance. */
  lemma NegativeCountUnbalances()
    ensures !Balanced(Consumed(NO_USAGE, -5, 0, 0))
  {
  }

  /** Four fifths are truncated toward zero, for counts of either sign. */
  lemma {:induction false} FourFifthsTruncate(n: int)
    ensures n >= 0 ==> 5 * FourFifths(n) <= 4 * n < 5 * FourFifths(n) + 5
    ensures n <= 0 ==> 5 * FourFifths(n) - 5 < 4 * n <= 5 * FourFifths(n)
  {
  }

  /** The cap that is reported: the total first, then the input, then the output. */
  lemma {:induction false} ExceededExactly(c: Caps, u: Usage)
    ensures Exceeded(c, u).None? <==> u.total <= c.total && u.input <= c.input && u.output <= c.output
    ensures Exceeded(c, u) == Some(TotalTokens) <==> u.total > c.total
    ensures Exceeded(c, u) == Some(InputTokens) <==> u.total <= c.total && u.input > c.input
    ensures Exceeded(c, u) == Some(OutputTokens) <==> u.total <= c.total && u.input <= c.input && u.output > c.output
  {
  }

  /** A report with explicit parts charges each part as given; it keeps the balance if and only if
      neither part is negative. */
  lemma {:induction false} ExplicitReport(u: Usage, count: int, input: int, output: int)
    requires Balanced(u) && (input > 0 || output > 0)
    ensures Balanced(Consumed(u, count, input, output)) <==> input >= 0 && output >= 0
    ensures input >= 0 && output >= 0 ==>
      Consumed(u, count, input, output) == Usage(u.total + input + output, u.input + input, u.output + output)
  {
  }

  /** The caps of a budget: a limit that is given holds as given, and one that is not is four fifths or
      one fifth of the total, rounded down. */
  lemma {:induction false} CapsExactly(maxTokens: nat, maxInput: nat, maxOutput: nat, maxTotal: nat)
    ensures var c := MakeCaps(maxTokens, maxInput, maxOutput, maxTotal);
      (maxTotal > 0 ==> c.total == maxTotal) && (maxTotal == 0 ==> c.total == maxTokens) &&
      (maxInput > 0 ==> c.input == maxInput) && (maxOutput > 0 ==> c.output == maxOutput) &&
      (maxInput == 0 ==> 5 * c.input <= 4 * c.total < 5 * c.input + 5) &&
      (maxOutput == 0 ==> 5 * c.output <= c.total < 5 * c.output + 5)
  {
  }

  /** Usage after a sequence of proportional reports. */
  function After(u: Usage, counts: seq<int>): (r: Usage)
  {
    if counts == [] then u else Consumed(After(u, counts[..|counts| - 1]), counts[|counts| - 1], 0, 0)
  }

  function Sum(counts: seq<int>): (s: int)
  {
    if counts == [] then 0 else Sum(counts[..|counts| - 1]) + counts[|counts| - 1]
  }

  ghost predicate NonNegative(counts: seq<int>)
  {
    forall i :: 0 <= i < |counts| ==> counts[i] >= 0
  }

  /** None of the reports in the sequence raises. */
  ghost predicate NeverRaises(c: Caps, counts: seq<int>)
  {
    forall k :: 1 <= k <= |counts| ==> Exceeded(c, After(NO_USAGE, counts[..k])).None?
  }

  /** How far the truncated parts can drift from exact fifths over a run. */
  lemma {:induction false} SharesBounded(counts: seq<int>)
    requires NonNegative(counts)
    ensures var u := After(NO_USAGE, counts);
      Balanced(u) && u.total == Sum(counts) &&
      5 * u.input <= 4 * Sum(counts) && 5 * u.output <= Sum(counts) + 4 * |counts|
  {
    if counts != [] {
      SharesBounded(counts[..|counts| - 1]);
    }
  }

  /** What the output share is charged in all: each report's fifth, rounded up. */
  function UpFifths(counts: seq<int>): (s: int)
  {
    if counts == [] then 0 else UpFifths(counts[..|counts| - 1]) + (counts[|counts| - 1] + 4) / 5
  }

  lemma {:induction false} OutputIsUpFifths(counts: seq<int>)
    requires NonNegative(counts)
    ensures var u := After(NO_USAGE, counts);
      u.output == UpFifths(counts) && u.input <= 4 * UpFifths(counts) && u.total <= 5 * UpFifths(counts)
  {
    if counts != [] {
      OutputIsUpFifths(counts[..|counts| - 1]);
    }
  }

  lemma {:induction false} UpFifthsPrefix(counts: seq<int>, k: nat)
    requires NonNegative(counts) && k <= |counts|
    ensures UpFifths(counts[..k]) <= UpFifths(counts)
    decreases |counts| - k
  {
    if k == |counts| {
      assert counts[..k] == counts;
    } else {
      UpFifthsPrefix(counts, k + 1);
      assert counts[..k + 1][..k] == counts[..k];
    }
  }

  /** With the default shares the output share alone decides: reports keep within every cap
      exactly when their rounded-up fifths keep within a fifth of the maximum. */
  lemma WithinCapsExactly(maxTokens: nat, counts: seq<int>)
    requires NonNegative(counts)
    ensures Exceeded(MakeCaps(maxTokens, 0, 0, 0), After(NO_USAGE, counts)).None? <==>
            UpFifths(counts) <= maxTokens / 5
  {
    OutputIsUpFifths(counts);
  }

  /** A run of reports never raises if and only if their rounded-up fifths sum to at most a
      fifth of the maximum. */
  lemma NeverRaisesExactly(maxTokens: nat, counts: seq<int>)
    requires NonNegative(counts)
    ensures NeverRaises(MakeCaps(maxTokens, 0, 0, 0), counts) <==> UpFifths(counts) <= maxTokens / 5
  {
    var c := MakeCaps(maxTokens, 0, 0, 0);
    forall k | 1 <= k <= |counts|
      ensures Exceeded(c, After(NO_USAGE, counts[..k])).None? <==> UpFifths(counts[..k]) <= maxTokens / 5
    {
      WithinCapsExactly(maxTokens, counts[..k]);
    }
    if UpFifths(counts) <= maxTokens / 5 {
      forall k | 1 <= k <= |counts| ensures Exceeded(c, After(NO_USAGE, counts[..k])).None? {
        UpFifthsPrefix(counts, k);
      }
    } else {
      assert counts[..|counts|] == counts;
    }
  }

  lemma {:induction false} UpFifthsBounded(counts: seq<int>)
    requires NonNegative(counts)
    ensures 5 * UpFifths(counts) <= Sum(counts) + 4 * |counts|
  {
    if counts != [] {
      UpFifthsBounded(counts[..|counts| - 1]);
    }
  }

  /** In particular, `n` reports totalling `T` never raise when `T + 4n <= 5 * (max / 5)`. */
  lemma RoomyRunNeverRaises(maxTokens: nat, counts: seq<int>)
    requires NonNegative(counts)
    requires Sum(counts) + 4 * |counts| <= 5 * (maxTokens / 5)
    ensures NeverRaises(MakeCaps(maxTokens, 0, 0, 0), counts)
  {
    UpFifthsBounded(counts);
    NeverRaisesExactly(maxTokens, counts);
  }

  /** Without that room rounding alone can raise: two reports of one token against a budget of
      five exceed the output share while the total is far below the cap. */
  lemma RoundingCanRaise()
    ensures var u := Consumed(Consumed(NO_USAGE, 1, 0, 0), 1, 0, 0);
      u.total == 2 && Exceeded(MakeCaps(5, 0, 0, 0), u) == Some(OutputTokens)
  {
    assert FourFifths(1) == 0;
  }

  /** Along a balanced run the total cap needs no check of its own: it follows from the two
      part caps. */
  lemma TotalCapFollows(maxTokens: nat, counts: seq<int>)
    requires NonNegative(counts)
    ensures var c := MakeCaps(maxTokens, 0, 0, 0);
      var u := After(NO_USAGE, counts);
      u.input <= c.input && u.output <= c.output ==> u.total <= c.total
  {
    SharesBounded(counts);
  }
}
