/** The session status machine and the plan validator. */
module AgentPlan {
  import opened Wrappers

  datatype Status =
    | CREATED | PLANNING | PLANNED | AWAITING_APPROVAL | EXECUTING | PAUSED
    | COMPLETED | FAILED | CANCELLED | BUDGET_EXCEEDED

  /** The statuses a session may be moved to. */
  function Allowed(s: Status): (r: set<Status>)
  {
    match s
    case CREATED => {PLANNING, CANCELLED, FAILED}
    case PLANNING => {PLANNED, FAILED, CANCELLED}
    case PLANNED => {AWAITING_APPROVAL, EXECUTING, CANCELLED, FAILED}
    case AWAITING_APPROVAL => {EXECUTING, CANCELLED, FAILED, PAUSED}
    case EXECUTING => {AWAITING_APPROVAL, PAUSED, COMPLETED, FAILED, CANCELLED, BUDGET_EXCEEDED}
    case PAUSED => {EXECUTING, CANCELLED, FAILED}
    case COMPLETED => {}
    case CANCELLED => {}
    case FAILED => {}
    case BUDGET_EXCEEDED => {}
  }

  predicate ValidTransition(from: Status, to: Status) { to in Allowed(from) }

  predicate IsTerminal(s: Status) { Allowed(s) == {} }

  /** Reachable in at most `n` transitions. */
  ghost predicate Reaches(from: Status, to: Status, n: nat)
    decreases n
  {
    from == to || (n > 0 && exists mid :: mid in Allowed(from) && Reaches(mid, to, n - 1))
  }

  /** No sequence of valid transitions leaves a terminal status, and from every other status a
      session can still be cancelled at once. */
  lemma {:induction false} TerminalIsFinal(s: Status, to: Status, n: nat)
    ensures IsTerminal(s) ==> (Reaches(s, to, n) <==> s == to)
    ensures !IsTerminal(s) ==> ValidTransition(s, CANCELLED)
  {
  }

  // ----------------------------------------------------------------------- plan validation

  /** A planned step.  `reasonLength` is the length of the stripped rationale, `rawLength`
      that of the rationale as given. */
  datatype PlanStep = PlanStep(
    sequence: nat,
    tool: string,
    input: string,
    requiresApproval: bool,
    reasonLength: nat,
    rawLength: nat)

  datatype PlanError =
    | NoSteps | TooManySteps | TooManyTokens | TooCostly
    | SequenceMismatch(index: nat) | DuplicateSequence(sequence: nat) | UnknownTool(tool: string)
    | ReasonTooShort(sequence: nat) | ReasonTooLong(sequence: nat)

  predicate GoodStep(step: PlanStep, index: nat, tools: set<string>)
  {
    step.sequence == index && step.tool in tools && step.reasonLength >= 3 && step.rawLength <= 500
  }

  predicate GoodPlan(steps: seq<PlanStep>, tools: set<string>)
  {
    forall i :: 0 <= i < |steps| ==> GoodStep(steps[i], i + 1, tools)
  }

  method ValidatePlan(
      steps: seq<PlanStep>, tools: set<string>, maxSteps: nat, maxTokens: int, maxCost: real,
      estimatedTokens: int, estimatedCost: real)
    returns (error: Option<PlanError>)
    ensures error.None? <==>
      0 < |steps| <= maxSteps && estimatedTokens <= maxTokens && estimatedCost <= maxCost && GoodPlan(steps, tools)
    ensures error.Some? ==> !error.value.DuplicateSequence?
  {
    if steps == [] {
      return Some(NoSteps);
    }
    if |steps| > maxSteps {
      return Some(TooManySteps);
    }
    if estimatedTokens > maxTokens {
      return Some(TooManyTokens);
    }
    if estimatedCost > maxCost {
      return Some(TooCostly);
    }
    var seen: set<nat> := {};
    for i := 0 to |steps|
      invariant forall j :: 0 <= j < i ==> GoodStep(steps[j], j + 1, tools)
      invariant forall n :: n in seen ==> 1 <= n <= i
    {
      var step := steps[i];
      if step.sequence != i + 1 {
        return Some(SequenceMismatch(i + 1));
      }
      if step.sequence in seen {
        return Some(DuplicateSequence(step.sequence));
      }
      seen := seen + {step.sequence};
      if step.tool !in tools {
        return Some(UnknownTool(step.tool));
      }
      if step.reasonLength < 3 {
        return Some(ReasonTooShort(step.sequence));
      }
      if step.rawLength > 500 {
        return Some(ReasonTooLong(step.sequence));
      }
    }
    return None;
  }
}
