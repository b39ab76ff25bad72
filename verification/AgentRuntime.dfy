/** One agent session: step execution, approval gate, checkpoints, and the service calls. */
module AgentRuntime {
  import opened Wrappers
  import opened AgentPlan
  import opened Budgets

  datatype StepStatus = PENDING | RUNNING | STEP_COMPLETED | STEP_FAILED

  /** A stored plan step.  `input` is the serialised tool input; its hash is represented by
      the text itself, so equal hashes are equal inputs. */
  datatype Step = Step(
    sequence: nat,
    tool: string,
    input: string,
    requiresApproval: bool,
    status: StepStatus,
    data: string,
    tokens: nat)

  /** Step records are identified by their position in the session. */
  datatype Checkpoint = Checkpoint(step: nat, tool: string, input: string, data: string)

  datatype ApprovalStatus = APPROVAL_PENDING | APPROVED | REJECTED | EXPIRED

  datatype Approval = Approval(step: nat, status: ApprovalStatus)

  /** One real tool execution, recorded for the model: which step, which call, and whether an
      approval stood in `APPROVED` for the step at that moment. */
  datatype Execution = Execution(step: nat, tool: string, input: string, approved: bool)

  datatype Session = Session(
    status: Status,
    currentStep: nat,
    maxSteps: nat,
    totalTokens: int,
    steps: seq<Step>,
    checkpoints: seq<Checkpoint>,
    approvals: seq<Approval>,
    executions: seq<Execution>)

  datatype Tool = Tool(idempotent: bool)

  datatype Config = Config(
    registry: map<string, Tool>,
    approvalTools: set<string>,
    maxTokens: nat,
    profileMaxSteps: nat,
    maxToolCalls: nat,
    loopThreshold: nat)

  datatype ToolResult = Output(data: string, tokens: nat) | Raised

  /** What a step meets outside the model: the policy's and the input schema's verdict, the
      clock, the tool, and the cost budget. */
  datatype World = World(authorized: bool, validInput: bool, inTime: bool, result: ToolResult, costOk: bool)

  datatype StepResult =
    | Finished(data: string, tokens: nat, ran: bool)
    | Broke(overBudget: bool, ran: bool)

  // ----------------------------------------------------------------------- loop detection

  type Call = (string, string)

  function Occurrences(history: seq<Call>, call: Call): (n: nat)
  {
    if history == [] then 0
    else (if history[|history| - 1] == call then 1 else 0) + Occurrences(history[..|history| - 1], call)
  }

  class LoopDetector {
    const threshold: nat
    var history: seq<Call>

    constructor (threshold: nat)
      ensures this.threshold == threshold && history == []
    {
      this.threshold := threshold;
      history := [];
    }

    /** Record the call; it is refused once it has been recorded `threshold` times. */
    method RecordAndCheck(tool: string, input: string) returns (refused: bool)
      modifies this
      ensures history == old(history) + [(tool, input)]
      ensures refused <==> Occurrences(history, (tool, input)) >= threshold
    {
      history := history + [(tool, input)];
      var count := 0;
      assert history[..|history|] == history;
      for i := 0 to |history|
        invariant count == Occurrences(history[..i], (tool, input))
      {
        assert history[..i + 1][..i] == history[..i];
        if history[i] == (tool, input) {
          count := count + 1;
        }
      }
      return count >= threshold;
    }
  }

  // ----------------------------------------------------------------------------- replay

  /** The checkpoint at `i` is of this call and no later one is. */
  ghost predicate LastOfCall(cps: seq<Checkpoint>, i: nat, tool: string, input: string)
    requires i < |cps|
  {
    cps[i].tool == tool && cps[i].input == input &&
    forall k :: i < k < |cps| ==> cps[k].tool != tool || cps[k].input != input
  }

  /** The latest checkpoint of the same call. */
  function FindCheckpoint(cps: seq<Checkpoint>, tool: string, input: string): (r: Option<Checkpoint>)
    ensures r.Some? ==> exists i :: 0 <= i < |cps| && cps[i] == r.value && LastOfCall(cps, i, tool, input)
    ensures r.None? ==> forall i :: 0 <= i < |cps| ==> cps[i].tool != tool || cps[i].input != input
  {
    if cps == [] then None
    else
      var last := cps[|cps| - 1];
      if last.tool == tool && last.input == input then Some(last)
      else FindCheckpoint(cps[..|cps| - 1], tool, input)
  }

  /** The request at `i` is of this step and no later one is. */
  ghost predicate LastOfStep(approvals: seq<Approval>, i: nat, step: nat)
    requires i < |approvals|
  {
    approvals[i].step == step && forall k :: i < k < |approvals| ==> approvals[k].step != step
  }

  /** The latest approval request of a step. */
  function LatestApproval(approvals: seq<Approval>, step: nat): (r: Option<Approval>)
    ensures r.Some? ==> exists i :: 0 <= i < |approvals| && approvals[i] == r.value && LastOfStep(approvals, i, step)
    ensures r.None? ==> forall i :: 0 <= i < |approvals| ==> approvals[i].step != step
  {
    if approvals == [] then None
    else if approvals[|approvals| - 1].step == step then Some(approvals[|approvals| - 1])
    else LatestApproval(approvals[..|approvals| - 1], step)
  }

  // --------------------------------------------------------------------- executing one step

  /** What one run accumulates. */
  datatype RunState = RunState(history: seq<Call>, usage: Usage, steps: nat, toolCalls: nat)

  const FRESH_RUN := RunState([], NO_USAGE, 0, 0)

  function StepCap(cfg: Config, s: Session): nat { if s.maxSteps != 0 then s.maxSteps else cfg.profileMaxSteps }

  function CapsOf(cfg: Config): Caps { MakeCaps(cfg.maxTokens, 0, 0, 0) }

  /** The part of a step after the tool answered: budgets are charged, then checked. */
  function Charge(cfg: Config, stepCap: nat, run: RunState, data: string, tokens: nat, costOk: bool)
    : (r: (StepResult, RunState))
  {
    var charged := RunState(run.history, Consumed(run.usage, tokens, 0, 0), run.steps + 1, run.toolCalls + 1);
    if run.steps + 1 > stepCap then (Broke(true, true), run.(steps := run.steps + 1))
    else if run.toolCalls + 1 > cfg.maxToolCalls then
      (Broke(true, true), run.(steps := run.steps + 1, toolCalls := run.toolCalls + 1))
    else if Exceeded(CapsOf(cfg), charged.usage).Some? || !costOk then (Broke(true, true), charged)
    else (Finished(data, tokens, true), charged)
  }

  function ExecuteStep(
      cfg: Config, stepCap: nat, cps: seq<Checkpoint>, tool: string, input: string, w: World, run: RunState)
    : (r: (StepResult, RunState))
  {
    if tool !in cfg.registry then (Broke(false, false), run)
    else
      var recorded := run.(history := run.history + [(tool, input)]);
      if Occurrences(recorded.history, (tool, input)) >= cfg.loopThreshold then (Broke(false, false), recorded)
      else if cfg.registry[tool].idempotent && FindCheckpoint(cps, tool, input).Some? then
        (Finished(FindCheckpoint(cps, tool, input).value.data, 0, false), recorded)
      else if !w.authorized || !w.validInput then (Broke(false, false), recorded)
      else if run.steps >= stepCap || run.toolCalls >= cfg.maxToolCalls || !w.inTime ||
              run.usage.total > CapsOf(cfg).total then (Broke(true, false), recorded)
      else
        match w.result
        case Raised => (Broke(false, true), recorded)
        case Output(data, tokens) => Charge(cfg, stepCap, recorded, data, tokens, w.costOk)
  }

  /** The objects one run works with. */
  class Run {
    const cfg: Config
    const detector: LoopDetector
    const tokenBudget: TokenBudget
    const stepBudget: StepBudget

    constructor (cfg: Config, stepCap: nat)
      ensures Valid() && fresh(detector) && fresh(tokenBudget) && fresh(stepBudget)
      ensures this.cfg == cfg && stepBudget.maxSteps == stepCap && State() == FRESH_RUN
    {
      this.cfg := cfg;
      detector := new LoopDetector(cfg.loopThreshold);
      tokenBudget := new TokenBudget(cfg.maxTokens, 0, 0, 0);
      stepBudget := new StepBudget(stepCap, cfg.maxToolCalls);
    }

    ghost predicate Valid()
    {
      detector.threshold == cfg.loopThreshold && tokenBudget.caps == CapsOf(cfg) &&
      stepBudget.maxToolCalls == cfg.maxToolCalls
    }

    ghost function State(): (r: RunState)
      reads detector, tokenBudget, stepBudget
    {
      RunState(detector.history, tokenBudget.Used(), stepBudget.steps, stepBudget.toolCalls)
    }

    method ChargeBudgets(data: string, tokens: nat, costOk: bool) returns (r: StepResult)
      requires Valid()
      modifies tokenBudget, stepBudget
      ensures (r, State()) == Charge(cfg, stepBudget.maxSteps, old(State()), data, tokens, costOk)
    {
      var overSteps := stepBudget.ConsumeStep();
      if overSteps.Some? {
        return Broke(true, true);
      }
      var overCalls := stepBudget.ConsumeToolCall();
      if overCalls.Some? {
        return Broke(true, true);
      }
      var overTokens := tokenBudget.Consume(tokens, 0, 0);
      if overTokens.Some? || !costOk {
        return Broke(true, true);
      }
      return Finished(data, tokens, true);
    }

    method PreFlight(w: World) returns (over: bool)
      requires Valid()
      ensures over <==>
        stepBudget.steps >= stepBudget.maxSteps || stepBudget.toolCalls >= cfg.maxToolCalls ||
        !w.inTime || tokenBudget.total > CapsOf(cfg).total
    {
      var steps := stepBudget.CheckStep();
      var calls := stepBudget.CheckToolCall();
      var tokens := tokenBudget.Check(0, 0, 0);
      return steps.Some? || calls.Some? || !w.inTime || tokens.Some?;
    }

    method Execute(cps: seq<Checkpoint>, tool: string, input: string, w: World) returns (r: StepResult)
      requires Valid()
      modifies detector, tokenBudget, stepBudget
      ensures (r, State()) == ExecuteStep(cfg, stepBudget.maxSteps, cps, tool, input, w, old(State()))
    {
      if tool !in cfg.registry {
        return Broke(false, false);
      }
      var looping := detector.RecordAndCheck(tool, input);
      if looping {
        return Broke(false, false);
      }
      if cfg.registry[tool].idempotent {
        var existing := FindCheckpoint(cps, tool, input);
        if existing.Some? {
          return Finished(existing.value.data, 0, false);
        }
      }
      if !w.authorized || !w.validInput {
        return Broke(false, false);
      }
      var over := PreFlight(w);
      if over {
        return Broke(true, false);
      }
      match w.result
      case Raised =>
        return Broke(false, true);
      case Output(data, tokens) =>
        r := ChargeBudgets(data, tokens, w.costOk);
    }
  }

  // ------------------------------------------------------------------- executing a session

  predicate Gated(cfg: Config, step: Step) { step.requiresApproval || step.tool in cfg.approvalTools }

  /** The gate's verdict on a step. */
  datatype Gate = Open | AskFirst | Waiting | Denied

  function GateOf(cfg: Config, s: Session, i: nat): (g: Gate)
    requires i < |s.steps|
  {
    if !Gated(cfg, s.steps[i]) then Open
    else
      match LatestApproval(s.approvals, i)
      case None => AskFirst
      case Some(a) =>
        if a.status == APPROVAL_PENDING then Waiting
        else if a.status == APPROVED then Open
        else Denied
  }

  function IsApproved(s: Session, i: nat): bool
  {
    LatestApproval(s.approvals, i).Some? && LatestApproval(s.approvals, i).value.status == APPROVED
  }

  /** The log after a step that may have executed its tool. */
  function Logged(s: Session, i: nat, ran: bool): (r: seq<Execution>)
    requires i < |s.steps|
  {
    if ran then s.executions + [Execution(i, s.steps[i].tool, s.steps[i].input, IsApproved(s, i))]
    else s.executions
  }

  function StepDone(s: Session, i: nat, data: string, tokens: nat, ran: bool): (r: Session)
    requires i < |s.steps|
  {
    var step := s.steps[i];
    s.(steps := s.steps[i := step.(status := STEP_COMPLETED, data := data, tokens := tokens)],
       checkpoints := s.checkpoints + [Checkpoint(i, step.tool, step.input, data)],
       currentStep := step.sequence,
       executions := Logged(s, i, ran))
  }

  function StepBroken(s: Session, i: nat, overBudget: bool, ran: bool): (r: Session)
    requires i < |s.steps|
  {
    s.(steps := s.steps[i := s.steps[i].(status := STEP_FAILED)],
       status := if overBudget then BUDGET_EXCEEDED else FAILED,
       executions := Logged(s, i, ran))
  }

  /** The session, and what the run accumulated, after executing the steps from position `i`. */
  function RunFrom(cfg: Config, s: Session, i: nat, worlds: seq<World>, run: RunState)
    : (r: (Session, RunState))
    requires i <= |s.steps| == |worlds|
    decreases |s.steps| - i
  {
    if i == |s.steps| then (s.(status := COMPLETED, totalTokens := run.usage.total), run)
    else if s.status == CANCELLED then (s.(status := FAILED), run)
    else if s.steps[i].status == STEP_COMPLETED then RunFrom(cfg, s, i + 1, worlds, run)
    else
      match GateOf(cfg, s, i)
      case AskFirst =>
        (s.(approvals := s.approvals + [Approval(i, APPROVAL_PENDING)], status := AWAITING_APPROVAL), run)
      case Waiting => (s.(status := AWAITING_APPROVAL), run)
      case Denied => (s.(status := FAILED), run)
      case Open =>
        var (result, after) :=
          ExecuteStep(cfg, StepCap(cfg, s), s.checkpoints, s.steps[i].tool, s.steps[i].input, worlds[i], run);
        match result
        case Finished(data, tokens, ran) =>
          RunFrom(cfg, StepDone(s, i, data, tokens, ran), i + 1, worlds, after)
        case Broke(overBudget, ran) => (StepBroken(s, i, overBudget, ran), after)
  }

  datatype Reply = Answered(status: Status) | Forbidden | IllegalTransition | NotFound

  function Executed(cfg: Config, s: Session, worlds: seq<World>): (r: (Session, Reply))
    requires |s.steps| == |worlds|
  {
    if s.status != EXECUTING && !ValidTransition(s.status, EXECUTING) then (s, IllegalTransition)
    else
      var ended := RunFrom(cfg, s.(status := EXECUTING), 0, worlds, FRESH_RUN).0;
      (ended, Answered(ended.status))
  }

  // ------------------------------------------------------------------------ service calls

  function Start(cfg: Config, s: Session, permitted: bool, worlds: seq<World>): (r: (Session, Reply))
    requires |s.steps| == |worlds|
  {
    if !permitted then (s, Forbidden) else Executed(cfg, s, worlds)
  }

  function Resume(cfg: Config, s: Session, permitted: bool, worlds: seq<World>): (r: (Session, Reply))
    requires |s.steps| == |worlds|
  {
    if !permitted then (s, Forbidden)
    else if s.status !in {PAUSED, AWAITING_APPROVAL} && !ValidTransition(s.status, EXECUTING) then
      (s, IllegalTransition)
    else Executed(cfg, s.(status := EXECUTING), worlds)
  }

  function Cancel(s: Session): (r: (Session, Reply))
  {
    if ValidTransition(s.status, CANCELLED) then (s.(status := CANCELLED), Answered(CANCELLED))
    else (s, IllegalTransition)
  }

  /** An operator's decision on an approval request; it may also overwrite an earlier one. */
  function Decide(s: Session, request: nat, approve: bool): (r: (Session, Reply))
  {
    if request >= |s.approvals| then (s, NotFound)
    else
      var decided := s.approvals[request].(status := if approve then APPROVED else REJECTED);
      (s.(approvals := s.approvals[request := decided]), Answered(s.status))
  }

  // --------------------------------------------------------------------- the session record

  class AgentSession {
    const cfg: Config
    var status: Status
    var currentStep: nat
    var maxSteps: nat
    var totalTokens: int
    var steps: seq<Step>
    var checkpoints: seq<Checkpoint>
    var approvals: seq<Approval>
    ghost var executions: seq<Execution>

    constructor (cfg: Config, maxSteps: nat, steps: seq<Step>)
      ensures this.cfg == cfg
      ensures State() == Session(PLANNED, 0, maxSteps, 0, steps, [], [], [])
    {
      this.cfg := cfg;
      status, currentStep, totalTokens := PLANNED, 0, 0;
      this.maxSteps, this.steps := maxSteps, steps;
      checkpoints, approvals, executions := [], [], [];
    }

    ghost function State(): (s: Session)
      reads this
    {
      Session(status, currentStep, maxSteps, totalTokens, steps, checkpoints, approvals, executions)
    }

    /** The gate before a step; a missing request is created on the way. */
    method PassGate(i: nat) returns (open: bool)
      requires i < |steps|
      modifies this`status, this`approvals
      ensures open <==> GateOf(cfg, old(State()), i) == Open
      ensures State() ==
        match GateOf(cfg, old(State()), i)
        case Open => old(State())
        case AskFirst =>
          old(State()).(approvals := old(approvals) + [Approval(i, APPROVAL_PENDING)], status := AWAITING_APPROVAL)
        case Waiting => old(State()).(status := AWAITING_APPROVAL)
        case Denied => old(State()).(status := FAILED)
    {
      if !Gated(cfg, steps[i]) {
        return true;
      }
      var request := LatestApproval(approvals, i);
      if request.None? {
        approvals := approvals + [Approval(i, APPROVAL_PENDING)];
        status := AWAITING_APPROVAL;
        return false;
      }
      if request.value.status == APPROVAL_PENDING {
        status := AWAITING_APPROVAL;
        return false;
      }
      if request.value.status != APPROVED {
        status := FAILED;
        return false;
      }
      return true;
    }

    method CompleteStep(i: nat, data: string, tokens: nat, ghost ran: bool)
      requires i < |steps|
      modifies this
      ensures State() == StepDone(old(State()), i, data, tokens, ran)
    {
      executions := Logged(State(), i, ran);
      steps := steps[i := steps[i].(status := STEP_COMPLETED, data := data, tokens := tokens)];
      checkpoints := checkpoints + [Checkpoint(i, steps[i].tool, steps[i].input, data)];
      currentStep := steps[i].sequence;
    }

    method BreakStep(i: nat, overBudget: bool, ghost ran: bool)
      requires i < |steps|
      modifies this
      ensures State() == StepBroken(old(State()), i, overBudget, ran)
    {
      executions := Logged(State(), i, ran);
      steps := steps[i := steps[i].(status := STEP_FAILED)];
      status := if overBudget then BUDGET_EXCEEDED else FAILED;
    }

    /** The step loop of a run. */
    method ExecuteSteps(worlds: seq<World>)
      requires |steps| == |worlds|
      modifies this
      ensures State() == RunFrom(cfg, old(State()), 0, worlds, FRESH_RUN).0
    {
      hide ExecuteStep, StepDone, StepBroken, GateOf;
      ghost var goal := RunFrom(cfg, State(), 0, worlds, FRESH_RUN);
      var run := new Run(cfg, if maxSteps != 0 then maxSteps else cfg.profileMaxSteps);
      var i := 0;
      while i < |steps|
        invariant i <= |steps| == |worlds|
        invariant run.Valid() && run.cfg == cfg && run.stepBudget.maxSteps == StepCap(cfg, State())
        invariant fresh(run.detector) && fresh(run.tokenBudget) && fresh(run.stepBudget)
        invariant RunFrom(cfg, State(), i, worlds, run.State()) == goal
        decreases |worlds| - i
      {
        var step := steps[i];
        if status == CANCELLED {
          status := FAILED;
          return;
        }
        if step.status == STEP_COMPLETED {
          i := i + 1;
          continue;
        }
        var open := PassGate(i);
        if !open {
          return;
        }
        var result := run.Execute(checkpoints, step.tool, step.input, worlds[i]);
        match result {
          case Finished(data, tokens, ran) =>
            StepDoneShape(State(), i, data, tokens, ran);
            CompleteStep(i, data, tokens, ran);
          case Broke(overBudget, ran) =>
            BreakStep(i, overBudget, ran);
            return;
        }
        i := i + 1;
      }
      status := COMPLETED;
      totalTokens := run.tokenBudget.total;
    }

    method ExecuteSession(worlds: seq<World>) returns (reply: Reply)
      requires |steps| == |worlds|
      modifies this
      ensures (State(), reply) == Executed(cfg, old(State()), worlds)
    {
      if status != EXECUTING {
        if !ValidTransition(status, EXECUTING) {
          return IllegalTransition;
        }
        status := EXECUTING;
      }
      ExecuteSteps(worlds);
      return Answered(status);
    }

    method StartSession(permitted: bool, worlds: seq<World>) returns (reply: Reply)
      requires |steps| == |worlds|
      modifies this
      ensures (State(), reply) == Start(cfg, old(State()), permitted, worlds)
    {
      if !permitted {
        return Forbidden;
      }
      reply := ExecuteSession(worlds);
    }

    method ResumeSession(permitted: bool, worlds: seq<World>) returns (reply: Reply)
      requires |steps| == |worlds|
      modifies this
      ensures (State(), reply) == Resume(cfg, old(State()), permitted, worlds)
    {
      if !permitted {
        return Forbidden;
      }
      if status !in {PAUSED, AWAITING_APPROVAL} && !ValidTransition(status, EXECUTING) {
        return IllegalTransition;
      }
      status := EXECUTING;
      reply := ExecuteSession(worlds);
    }

    method CancelSession() returns (reply: Reply)
      modifies this
      ensures (State(), reply) == Cancel(old(State()))
    {
      if !ValidTransition(status, CANCELLED) {
        return IllegalTransition;
      }
      status := CANCELLED;
      return Answered(CANCELLED);
    }

    method ResolveApproval(request: nat, approve: bool) returns (reply: Reply)
      modifies this
      ensures (State(), reply) == Decide(old(State()), request, approve)
    {
      if request >= |approvals| {
        return NotFound;
      }
      var decision := if approve then APPROVED else REJECTED;
      approvals := approvals[request := approvals[request].(status := decision)];
      return Answered(status);
    }
  }

  // ---------------------------------------------------------------------- new sessions

  /** The step records of a plan. */
  function StepsOf(plan: seq<PlanStep>): (r: seq<Step>)
    ensures |r| == |plan|
    ensures forall i :: 0 <= i < |r| ==>
      r[i] == Step(plan[i].sequence, plan[i].tool, plan[i].input, plan[i].requiresApproval, PENDING, "", 0)
  {
    seq(|plan|, i requires 0 <= i < |plan| =>
      Step(plan[i].sequence, plan[i].tool, plan[i].input, plan[i].requiresApproval, PENDING, "", 0))
  }

  method MaterialiseSteps(plan: seq<PlanStep>) returns (steps: seq<Step>)
    ensures steps == StepsOf(plan)
  {
    steps := [];
    for i := 0 to |plan|
      invariant steps == StepsOf(plan)[..i]
    {
      var p := plan[i];
      steps := steps + [Step(p.sequence, p.tool, p.input, p.requiresApproval, PENDING, "", 0)];
    }
  }

  /** A session is created for exactly the plans the validator accepts. */
  method CreateSession(
      cfg: Config, plan: seq<PlanStep>, maxSteps: nat, maxTokens: nat, maxCost: real, estimatedCost: real)
    returns (error: Option<PlanError>, session: AgentSession?)
    ensures error.None? <==>
      0 < |plan| <= maxSteps && estimatedCost <= maxCost && GoodPlan(plan, cfg.registry.Keys)
    ensures error.None? <==> session != null
    ensures session != null ==>
      fresh(session) && session.cfg == cfg &&
      session.State() == Session(PLANNED, 0, maxSteps, 0, StepsOf(plan), [], [], [])
  {
    error := ValidatePlan(plan, cfg.registry.Keys, maxSteps, maxTokens, maxCost, 0, estimatedCost);
    if error.Some? {
      return error, null;
    }
    var steps := MaterialiseSteps(plan);
    session := new AgentSession(cfg, maxSteps, steps);
  }

  lemma StepDoneShape(s: Session, i: nat, data: string, tokens: nat, ran: bool)
    requires i < |s.steps|
    ensures var t := StepDone(s, i, data, tokens, ran);
      |t.steps| == |s.steps| && t.maxSteps == s.maxSteps && t.status == s.status
  {
  }
}
