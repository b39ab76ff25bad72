/** What every sequential history of a session keeps, and what one run is bounded by. */
module AgentHistory {
  import opened AgentPlan
  import opened Budgets
  import opened AgentRuntime

  // ------------------------------------------------------------------------- the invariant

  /** Steps are numbered 1..n and the completed ones are exactly the first `currentStep`. */
  ghost predicate Prefix(s: Session)
  {
    s.currentStep <= |s.steps| &&
    (forall i :: 0 <= i < |s.steps| ==> s.steps[i].sequence == i + 1) &&
    forall i :: 0 <= i < |s.steps| ==> (s.steps[i].status == STEP_COMPLETED <==> i < s.currentStep)
  }

  /** One checkpoint per completed step, in step order, holding its call and its data. */
  ghost predicate Checkpointed(s: Session)
    requires s.currentStep <= |s.steps|
  {
    |s.checkpoints| == s.currentStep &&
    forall i :: 0 <= i < s.currentStep ==>
      s.checkpoints[i] == Checkpoint(i, s.steps[i].tool, s.steps[i].input, s.steps[i].data)
  }

  /** At most one approval request per step. */
  ghost predicate OneRequestPerStep(s: Session)
  {
    forall i, j :: 0 <= i < j < |s.approvals| ==> s.approvals[i].step != s.approvals[j].step
  }

  predicate SameCall(a: Step, b: Step) { a.tool == b.tool && a.input == b.input }

  predicate Idempotent(cfg: Config, tool: string) { tool in cfg.registry && cfg.registry[tool].idempotent }

  /** Every real execution is of a step's own call; no step is executed twice; a gated step is
      executed only while its approval stands; an idempotent call is not executed again after a
      step that made the same call; and only the last execution can lack a completed step, in
      which case the session has ended. */
  ghost predicate ExecutionsSound(cfg: Config, s: Session)
    requires s.currentStep <= |s.steps|
  {
    (forall k :: 0 <= k < |s.executions| ==>
      var e := s.executions[k];
      e.step < |s.steps| && e.tool == s.steps[e.step].tool && e.input == s.steps[e.step].input &&
      (Gated(cfg, s.steps[e.step]) ==> e.approved) &&
      (Idempotent(cfg, e.tool) ==> forall i :: 0 <= i < e.step ==> !SameCall(s.steps[i], s.steps[e.step])) &&
      e.step <= s.currentStep && (e.step == s.currentStep ==> IsTerminal(s.status))) &&
    forall k, l :: 0 <= k < l < |s.executions| ==> s.executions[k].step < s.executions[l].step
  }

  /** A completed step that repeats an earlier idempotent call shows the same data at no cost. */
  ghost predicate ReplaysExact(cfg: Config, s: Session)
    requires s.currentStep <= |s.steps|
  {
    forall i, j ::
      0 <= i < j < s.currentStep && SameCall(s.steps[i], s.steps[j]) && Idempotent(cfg, s.steps[j].tool) ==>
        s.steps[j].data == s.steps[i].data && s.steps[j].tokens == 0
  }

  ghost predicate Inv(cfg: Config, s: Session)
  {
    Prefix(s) && Checkpointed(s) && OneRequestPerStep(s) && ExecutionsSound(cfg, s) && ReplaysExact(cfg, s) &&
    (s.status == COMPLETED ==> s.currentStep == |s.steps|)
  }

  /** A newly planned session. */
  ghost predicate Planned(s: Session)
  {
    s.status == PLANNED && s.currentStep == 0 && s.checkpoints == [] && s.approvals == [] &&
    s.executions == [] &&
    forall i :: 0 <= i < |s.steps| ==> s.steps[i].sequence == i + 1 && s.steps[i].status == PENDING
  }

  /** The session created for an accepted plan is newly planned, its steps those of the plan. */
  lemma AcceptedPlanIsPlanned(plan: seq<PlanStep>, tools: set<string>, maxSteps: nat)
    requires GoodPlan(plan, tools)
    ensures Planned(Session(PLANNED, 0, maxSteps, 0, StepsOf(plan), [], [], []))
  {
    assert forall i :: 0 <= i < |plan| ==> GoodStep(plan[i], i + 1, tools);
  }

  lemma PlannedInv(cfg: Config, s: Session)
    requires Planned(s)
    ensures Inv(cfg, s)
  {
  }

  // --------------------------------------------------------------------------- single steps

  lemma {:induction false} FindAmongCheckpoints(cps: seq<Checkpoint>, tool: string, input: string)
    ensures var r := FindCheckpoint(cps, tool, input);
      r.Some? ==> exists i :: 0 <= i < |cps| && cps[i] == r.value
  {
  }

  /** A finished step either replayed the data of an earlier identical call or really ran, and
      then no identical idempotent call precedes it. */
  lemma {:induction false} FinishedStep(cfg: Config, s: Session, w: World, run: RunState)
    requires Inv(cfg, s) && s.currentStep < |s.steps|
    requires ExecuteStep(cfg, StepCap(cfg, s), s.checkpoints, s.steps[s.currentStep].tool,
                         s.steps[s.currentStep].input, w, run).0.Finished?
    ensures var r := ExecuteStep(cfg, StepCap(cfg, s), s.checkpoints, s.steps[s.currentStep].tool,
                                 s.steps[s.currentStep].input, w, run).0;
      var step := s.steps[s.currentStep];
      forall i :: 0 <= i < s.currentStep && SameCall(s.steps[i], step) && Idempotent(cfg, step.tool) ==>
        !r.ran && r.tokens == 0 && r.data == s.steps[i].data
  {
    var step := s.steps[s.currentStep];
    var found := FindCheckpoint(s.checkpoints, step.tool, step.input);
    forall i | 0 <= i < s.currentStep && SameCall(s.steps[i], step) && Idempotent(cfg, step.tool)
      ensures found.Some? && found.value.data == s.steps[i].data
    {
      assert s.checkpoints[i].tool == step.tool && s.checkpoints[i].input == step.input;
      FindAmongCheckpoints(s.checkpoints, step.tool, step.input);
      var j :| 0 <= j < |s.checkpoints| && s.checkpoints[j] == found.value;
      assert SameCall(s.steps[j], s.steps[i]);
      assert i < j ==> SameCall(s.steps[i], s.steps[j]);
    }
  }

  /** A tool really runs only if no completed step made the same idempotent call. */
  lemma {:induction false} RanStep(cfg: Config, s: Session, w: World, run: RunState)
    requires Inv(cfg, s) && s.currentStep < |s.steps|
    requires
      var r := ExecuteStep(cfg, StepCap(cfg, s), s.checkpoints, s.steps[s.currentStep].tool,
                           s.steps[s.currentStep].input, w, run).0;
      r.ran
    ensures forall i :: 0 <= i < s.currentStep && Idempotent(cfg, s.steps[s.currentStep].tool) ==>
              !SameCall(s.steps[i], s.steps[s.currentStep])
  {
    var step := s.steps[s.currentStep];
    forall i | 0 <= i < s.currentStep && Idempotent(cfg, step.tool)
      ensures !SameCall(s.steps[i], step)
    {
      assert s.checkpoints[i].tool == s.steps[i].tool && s.checkpoints[i].input == s.steps[i].input;
    }
  }

  lemma LoggedSound(cfg: Config, s: Session, ran: bool, k: nat)
    requires Inv(cfg, s) && s.currentStep < |s.steps| && !IsTerminal(s.status)
    requires GateOf(cfg, s, s.currentStep) == Open
    requires k < |Logged(s, s.currentStep, ran)|
    ensures var log := Logged(s, s.currentStep, ran);
      if k < |s.executions| then log[k] == s.executions[k] && log[k].step < s.currentStep
      else ran && log[k].step == s.currentStep && log[k].tool == s.steps[s.currentStep].tool &&
           log[k].input == s.steps[s.currentStep].input &&
           (Gated(cfg, s.steps[s.currentStep]) ==> log[k].approved)
  {
  }

  /** What a session keeps from one moment to a later one: its plan, its finished steps with
      their data, and its log of executions. */
  ghost predicate Extends(a: Session, b: Session)
  {
    |a.steps| == |b.steps| && a.currentStep <= b.currentStep && a.currentStep <= |a.steps| &&
    a.executions <= b.executions &&
    forall i :: 0 <= i < |a.steps| ==>
      SameCall(a.steps[i], b.steps[i]) && (i < a.currentStep ==> a.steps[i] == b.steps[i])
  }

  lemma ExtendsTransitive(a: Session, b: Session, c: Session)
    requires Extends(a, b) && Extends(b, c)
    ensures Extends(a, c)
  {
  }

  predicate Ended(status: Status) { status in {AWAITING_APPROVAL, COMPLETED, FAILED, BUDGET_EXCEEDED} }

  lemma {:induction false} StepDoneKeepsInv(cfg: Config, s: Session, w: World, run: RunState)
    requires Inv(cfg, s) && s.currentStep < |s.steps| && s.status == EXECUTING
    requires GateOf(cfg, s, s.currentStep) == Open
    requires ExecuteStep(cfg, StepCap(cfg, s), s.checkpoints, s.steps[s.currentStep].tool,
                         s.steps[s.currentStep].input, w, run).0.Finished?
    ensures var r := ExecuteStep(cfg, StepCap(cfg, s), s.checkpoints, s.steps[s.currentStep].tool,
                                 s.steps[s.currentStep].input, w, run).0;
      var t := StepDone(s, s.currentStep, r.data, r.tokens, r.ran);
      Inv(cfg, t) && Extends(s, t) && t.currentStep == s.currentStep + 1 && t.status == EXECUTING
  {
    hide ExecuteStep, GateOf;
    var i := s.currentStep;
    var r := ExecuteStep(cfg, StepCap(cfg, s), s.checkpoints, s.steps[i].tool, s.steps[i].input, w, run).0;
    var t := StepDone(s, i, r.data, r.tokens, r.ran);
    FinishedStep(cfg, s, w, run);
    if r.ran {
      RanStep(cfg, s, w, run);
    }
    forall k | 0 <= k < |t.executions| {
      LoggedSound(cfg, s, r.ran, k);
    }
    assert ExecutionsSound(cfg, t);
    assert ReplaysExact(cfg, t);
  }

  lemma {:induction false} StepBrokenKeepsInv(cfg: Config, s: Session, w: World, run: RunState)
    requires Inv(cfg, s) && s.currentStep < |s.steps| && s.status == EXECUTING
    requires GateOf(cfg, s, s.currentStep) == Open
    requires ExecuteStep(cfg, StepCap(cfg, s), s.checkpoints, s.steps[s.currentStep].tool,
                         s.steps[s.currentStep].input, w, run).0.Broke?
    ensures var r := ExecuteStep(cfg, StepCap(cfg, s), s.checkpoints, s.steps[s.currentStep].tool,
                                 s.steps[s.currentStep].input, w, run).0;
      var t := StepBroken(s, s.currentStep, r.overBudget, r.ran);
      Inv(cfg, t) && Extends(s, t) && Ended(t.status)
  {
    hide ExecuteStep, GateOf;
    var i := s.currentStep;
    var r := ExecuteStep(cfg, StepCap(cfg, s), s.checkpoints, s.steps[i].tool, s.steps[i].input, w, run).0;
    var t := StepBroken(s, i, r.overBudget, r.ran);
    if r.ran {
      RanStep(cfg, s, w, run);
    }
    forall k | 0 <= k < |t.executions| {
      LoggedSound(cfg, s, r.ran, k);
    }
    assert ExecutionsSound(cfg, t);
  }

  /** A live session may be given any status, though `COMPLETED` only at the end of the plan. */
  lemma {:induction false} StatusKeepsInv(cfg: Config, s: Session, status: Status, total: int)
    requires Inv(cfg, s) && !IsTerminal(s.status)
    requires status == COMPLETED ==> s.currentStep == |s.steps|
    ensures var t := s.(status := status, totalTokens := total); Inv(cfg, t) && Extends(s, t)
  {
    assert ExecutionsSound(cfg, s.(status := status, totalTokens := total));
  }

  /** A new approval request may be filed for a step that has none. */
  lemma {:induction false} AskingKeepsInv(cfg: Config, s: Session, i: nat)
    requires Inv(cfg, s) && i < |s.steps| && GateOf(cfg, s, i) == AskFirst
    ensures var t := s.(approvals := s.approvals + [Approval(i, APPROVAL_PENDING)]); Inv(cfg, t) && Extends(s, t)
  {
    assert ExecutionsSound(cfg, s.(approvals := s.approvals + [Approval(i, APPROVAL_PENDING)]));
  }

  /** Stopping at a closed gate. */
  lemma GateKeepsInv(cfg: Config, s: Session, i: nat)
    requires Inv(cfg, s) && i < |s.steps| && s.status == EXECUTING
    ensures var t := s.(status := AWAITING_APPROVAL); Inv(cfg, t) && Extends(s, t)
    ensures var t := s.(status := FAILED); Inv(cfg, t) && Extends(s, t)
    ensures GateOf(cfg, s, i) == AskFirst ==>
      var t := s.(approvals := s.approvals + [Approval(i, APPROVAL_PENDING)], status := AWAITING_APPROVAL);
      Inv(cfg, t) && Extends(s, t)
  {
    hide Inv, GateOf;
    StatusKeepsInv(cfg, s, AWAITING_APPROVAL, s.totalTokens);
    StatusKeepsInv(cfg, s, FAILED, s.totalTokens);
    if GateOf(cfg, s, i) == AskFirst {
      AskingKeepsInv(cfg, s, i);
      var asked := s.(approvals := s.approvals + [Approval(i, APPROVAL_PENDING)]);
      StatusKeepsInv(cfg, asked, AWAITING_APPROVAL, s.totalTokens);
    }
  }

  /** The step loop stands at the current step or at one already completed. */
  lemma CompletedBeforeCurrent(cfg: Config, s: Session, i: nat)
    requires Inv(cfg, s) && i <= s.currentStep
    ensures s.currentStep <= |s.steps|
    ensures i < |s.steps| ==> (s.steps[i].status == STEP_COMPLETED <==> i < s.currentStep)
  {
  }

  /** One round of the step loop while the session is executing. */
  lemma RunRound(cfg: Config, s: Session, i: nat, worlds: seq<World>, run: RunState)
    requires i < |s.steps| == |worlds| && s.status == EXECUTING
    ensures
      var (r, after) :=
        ExecuteStep(cfg, StepCap(cfg, s), s.checkpoints, s.steps[i].tool, s.steps[i].input, worlds[i], run);
      RunFrom(cfg, s, i, worlds, run) ==
        if s.steps[i].status == STEP_COMPLETED then RunFrom(cfg, s, i + 1, worlds, run)
        else
          match GateOf(cfg, s, i)
          case AskFirst =>
            (s.(approvals := s.approvals + [Approval(i, APPROVAL_PENDING)], status := AWAITING_APPROVAL), run)
          case Waiting => (s.(status := AWAITING_APPROVAL), run)
          case Denied => (s.(status := FAILED), run)
          case Open =>
            if r.Finished? then RunFrom(cfg, StepDone(s, i, r.data, r.tokens, r.ran), i + 1, worlds, after)
            else (StepBroken(s, i, r.overBudget, r.ran), after)
  {
    hide ExecuteStep, GateOf, StepCap, StepBroken;
  }

  /** A run, from whichever step it stands at, keeps the invariant, only extends the session,
      and leaves it paused at a gate or ended. */
  lemma {:induction false} RunKeepsInv(cfg: Config, s: Session, i: nat, worlds: seq<World>, run: RunState)
    requires i <= s.currentStep && |s.steps| == |worlds|
    requires Inv(cfg, s) && s.status == EXECUTING
    ensures var t := RunFrom(cfg, s, i, worlds, run).0;
      Inv(cfg, t) && Extends(s, t) && Ended(t.status)
    decreases |s.steps| - i
  {
    hide ExecuteStep, GateOf, StepCap, Inv, StepBroken;
    CompletedBeforeCurrent(cfg, s, i);
    if i == |s.steps| {
      StatusKeepsInv(cfg, s, COMPLETED, run.usage.total);
    } else {
      hide RunFrom;
      GateKeepsInv(cfg, s, i);
      RunRound(cfg, s, i, worlds, run);
      if s.steps[i].status == STEP_COMPLETED {
        RunKeepsInv(cfg, s, i + 1, worlds, run);
      } else if GateOf(cfg, s, i) == Open {
        var (r, after) :=
          ExecuteStep(cfg, StepCap(cfg, s), s.checkpoints, s.steps[i].tool, s.steps[i].input, worlds[i], run);
        if r.Finished? {
          var t := StepDone(s, i, r.data, r.tokens, r.ran);
          StepDoneKeepsInv(cfg, s, worlds[i], run);
          RunKeepsInv(cfg, t, i + 1, worlds, after);
          ExtendsTransitive(s, t, RunFrom(cfg, t, i + 1, worlds, after).0);
        } else {
          StepBrokenKeepsInv(cfg, s, worlds[i], run);
        }
      }
    }
  }

  // ---------------------------------------------------------------------- service histories

  datatype Op =
    | StartOp(permitted: bool, worlds: seq<World>)
    | ResumeOp(permitted: bool, worlds: seq<World>)
    | CancelOp
    | DecideOp(request: nat, approve: bool)

  predicate Fits(s: Session, op: Op)
  {
    op.StartOp? || op.ResumeOp? ==> |op.worlds| == |s.steps|
  }

  function Apply(cfg: Config, s: Session, op: Op): (t: Session)
    requires Fits(s, op)
  {
    match op
    case StartOp(permitted, worlds) => Start(cfg, s, permitted, worlds).0
    case ResumeOp(permitted, worlds) => Resume(cfg, s, permitted, worlds).0
    case CancelOp => Cancel(s).0
    case DecideOp(request, approve) => Decide(s, request, approve).0
  }

  /** Every service call keeps the invariant, only extends the session, moves the status along
      valid transitions, and leaves a terminal status alone. */
  lemma OpKeepsInv(cfg: Config, s: Session, op: Op)
    requires Inv(cfg, s) && Fits(s, op)
    ensures var t := Apply(cfg, s, op);
      Inv(cfg, t) && Extends(s, t) && Reaches(s.status, t.status, 2) &&
      (IsTerminal(s.status) ==> t.status == s.status)
  {
    hide RunFrom, ExecutionsSound, ReplaysExact;
    var t := Apply(cfg, s, op);
    if op.DecideOp? {
      DecideKeepsInv(cfg, s, op.request, op.approve);
    } else if op.CancelOp? {
      if !IsTerminal(s.status) {
        StatusKeepsInv(cfg, s, CANCELLED, s.totalTokens);
        OneTransition(s.status, CANCELLED);
      }
    } else if op.permitted && (ValidTransition(s.status, EXECUTING) || (op.StartOp? && s.status == EXECUTING)) {
      StatusKeepsInv(cfg, s, EXECUTING, s.totalTokens);
      RunKeepsInv(cfg, s.(status := EXECUTING), 0, op.worlds, FRESH_RUN);
      ThroughExecuting(s.status, t.status);
    }
  }

  lemma OneTransition(a: Status, b: Status)
    requires ValidTransition(a, b)
    ensures Reaches(a, b, 2)
  {
    assert Reaches(b, b, 1);
  }

  lemma ThroughExecuting(a: Status, b: Status)
    requires (a == EXECUTING || ValidTransition(a, EXECUTING)) && Ended(b)
    ensures Reaches(a, b, 2)
  {
    assert b in Allowed(EXECUTING);
    assert Reaches(b, b, 0) && Reaches(b, b, 1);
    assert Reaches(EXECUTING, b, 1);
  }

  lemma {:induction false} DecideKeepsInv(cfg: Config, s: Session, request: nat, approve: bool)
    requires Inv(cfg, s)
    ensures var t := Decide(s, request, approve).0;
      Inv(cfg, t) && Extends(s, t) && t.status == s.status
  {
    var t := Decide(s, request, approve).0;
    assert ExecutionsSound(cfg, t);
    assert ReplaysExact(cfg, t);
  }

  /** The sessions a history passes through. */
  ghost predicate History(cfg: Config, states: seq<Session>, ops: seq<Op>)
  {
    |states| == |ops| + 1 &&
    forall k :: 0 <= k < |ops| ==> Fits(states[k], ops[k]) && states[k + 1] == Apply(cfg, states[k], ops[k])
  }

  lemma {:induction false} HistoryKeeps(cfg: Config, states: seq<Session>, ops: seq<Op>, m: nat, k: nat)
    requires History(cfg, states, ops) && Inv(cfg, states[0]) && m <= k < |states|
    ensures Inv(cfg, states[m]) && Inv(cfg, states[k]) && Extends(states[m], states[k])
    ensures IsTerminal(states[m].status) ==> states[k].status == states[m].status
    decreases k
  {
    hide Inv, Extends;
    if k > m {
      HistoryKeeps(cfg, states, ops, m, k - 1);
      OpKeepsInv(cfg, states[k - 1], ops[k - 1]);
      ExtendsTransitive(states[m], states[k - 1], states[k]);
    } else if k > 0 {
      HistoryKeeps(cfg, states, ops, k - 1, k - 1);
      OpKeepsInv(cfg, states[k - 1], ops[k - 1]);
      ExtendsItself(cfg, states[k]);
    } else {
      ExtendsItself(cfg, states[0]);
    }
  }

  lemma ExtendsItself(cfg: Config, s: Session)
    requires Inv(cfg, s)
    ensures Extends(s, s)
  {
  }

  /** Over every sequential history of a planned session: completed steps form a prefix of the
      plan with one checkpoint each, a step has at most one approval request, each step's tool
      is executed at most once and, if gated, only under an approval, repeated idempotent calls
      are replayed exactly, and a terminal status never changes. */
  lemma HistoriesAreSound(cfg: Config, states: seq<Session>, ops: seq<Op>, m: nat, k: nat)
    requires History(cfg, states, ops) && Planned(states[0]) && m <= k < |states|
    ensures Inv(cfg, states[k]) && Extends(states[m], states[k])
    ensures IsTerminal(states[m].status) ==> states[k].status == states[m].status
  {
    PlannedInv(cfg, states[0]);
    HistoryKeeps(cfg, states, ops, m, k);
  }

  /** The same from the creation of the session on: everything above holds of every history of
      a session created for an accepted plan. */
  lemma CreatedSessionsStaySound(
      cfg: Config, plan: seq<PlanStep>, maxSteps: nat, states: seq<Session>, ops: seq<Op>, k: nat)
    requires GoodPlan(plan, cfg.registry.Keys) && History(cfg, states, ops) && k < |states|
    requires states[0] == Session(PLANNED, 0, maxSteps, 0, StepsOf(plan), [], [], [])
    ensures Inv(cfg, states[k]) && |states[k].steps| == |plan|
    ensures forall i :: 0 <= i < |plan| ==>
      states[k].steps[i].tool == plan[i].tool && states[k].steps[i].input == plan[i].input
  {
    AcceptedPlanIsPlanned(plan, cfg.registry.Keys, maxSteps);
    HistoriesAreSound(cfg, states, ops, 0, k);
    assert forall i :: 0 <= i < |plan| ==> SameCall(states[0].steps[i], states[k].steps[i]);
  }

  /** An idempotent call is really executed at most once in a session. */
  lemma {:induction false} IdempotentCallsRunOnce(cfg: Config, s: Session, k: nat, l: nat)
    requires Inv(cfg, s) && k < |s.executions| && l < |s.executions|
    requires s.executions[k].tool == s.executions[l].tool && s.executions[k].input == s.executions[l].input
    requires Idempotent(cfg, s.executions[k].tool)
    ensures k == l
  {
    hide Checkpointed, ReplaysExact, OneRequestPerStep;
    var a, b := s.executions[k].step, s.executions[l].step;
    assert SameCall(s.steps[a], s.steps[b]) && SameCall(s.steps[b], s.steps[a]);
  }

  // ------------------------------------------------------------------------- bounds of a run

  function Calls(steps: seq<Step>): (r: seq<Call>)
    ensures |r| == |steps|
    ensures forall i :: 0 <= i < |r| ==> r[i] == (steps[i].tool, steps[i].input)
  {
    seq(|steps|, i requires 0 <= i < |steps| => (steps[i].tool, steps[i].input))
  }

  function TokenSum(steps: seq<Step>): (n: nat)
  {
    if steps == [] then 0 else TokenSum(steps[..|steps| - 1]) + steps[|steps| - 1].tokens
  }

  /** What a run has accumulated when it has completed the steps from `start` to the current
      one: exactly their calls and tokens, within the loop threshold and the token cap. */
  ghost predicate Accounts(cfg: Config, s: Session, start: nat, run: RunState)
    requires s.currentStep <= |s.steps|
  {
    start <= s.currentStep &&
    run.history == Calls(s.steps[start..s.currentStep]) &&
    run.usage.total == TokenSum(s.steps[start..s.currentStep]) &&
    run.usage.total <= CapsOf(cfg).total &&
    forall call :: Occurrences(run.history, call) > 0 ==> Occurrences(run.history, call) < cfg.loopThreshold
  }

  lemma OccurrencesSnoc(history: seq<Call>, x: Call, call: Call)
    ensures Occurrences(history + [x], call) == Occurrences(history, call) + if x == call then 1 else 0
  {
    assert (history + [x])[..|history|] == history;
  }

  lemma TokenSumSnoc(steps: seq<Step>, x: Step)
    ensures TokenSum(steps + [x]) == TokenSum(steps) + x.tokens
  {
    assert (steps + [x])[..|steps|] == steps;
  }

  /** What a finished step adds to the run's accounts. */
  lemma FinishedCharges(
      cfg: Config, stepCap: nat, cps: seq<Checkpoint>, tool: string, input: string, w: World, run: RunState)
    requires run.usage.total <= CapsOf(cfg).total
    requires ExecuteStep(cfg, stepCap, cps, tool, input, w, run).0.Finished?
    ensures var (r, after) := ExecuteStep(cfg, stepCap, cps, tool, input, w, run);
      after.history == run.history + [(tool, input)] &&
      Occurrences(after.history, (tool, input)) < cfg.loopThreshold &&
      after.usage.total == run.usage.total + r.tokens &&
      after.usage.total <= CapsOf(cfg).total
  {
    hide Occurrences;
  }

  lemma StepAccounts(cfg: Config, s: Session, start: nat, w: World, run: RunState)
    requires Inv(cfg, s) && s.currentStep < |s.steps| && Accounts(cfg, s, start, run)
    requires ExecuteStep(cfg, StepCap(cfg, s), s.checkpoints, s.steps[s.currentStep].tool,
                         s.steps[s.currentStep].input, w, run).0.Finished?
    ensures
      var (r, after) := ExecuteStep(cfg, StepCap(cfg, s), s.checkpoints, s.steps[s.currentStep].tool,
                                    s.steps[s.currentStep].input, w, run);
      var t := StepDone(s, s.currentStep, r.data, r.tokens, r.ran);
      t.currentStep <= |t.steps| && Accounts(cfg, t, start, after)
  {
    hide Inv, ExecuteStep, Charge, Exceeded, Consumed, Occurrences, TokenSum;
    var i := s.currentStep;
    assert s.steps[i].sequence == i + 1 && i < |s.steps| by { NumberedSteps(cfg, s); }
    FinishedCharges(cfg, StepCap(cfg, s), s.checkpoints, s.steps[i].tool, s.steps[i].input, w, run);
    var (r, after) := ExecuteStep(cfg, StepCap(cfg, s), s.checkpoints, s.steps[i].tool, s.steps[i].input, w, run);
    var t := StepDone(s, i, r.data, r.tokens, r.ran);
    var before := s.steps[start..i];
    assert t.steps[start..i + 1] == before + [t.steps[i]];
    TokenSumSnoc(before, t.steps[i]);
    assert Calls(t.steps[start..i + 1]) == Calls(before) + [(s.steps[i].tool, s.steps[i].input)];
    forall call | Occurrences(after.history, call) > 0
      ensures Occurrences(after.history, call) < cfg.loopThreshold
    {
      OccurrencesSnoc(run.history, (s.steps[i].tool, s.steps[i].input), call);
    }
  }

  lemma NumberedSteps(cfg: Config, s: Session)
    requires Inv(cfg, s)
    ensures s.currentStep <= |s.steps|
    ensures forall i :: 0 <= i < |s.steps| ==> s.steps[i].sequence == i + 1
  {
  }

  /** The steps one run completes, from `start` to where it stops: every call occurs fewer
      times than the loop threshold among them, and when the session completes, the tokens it
      reports are exactly theirs and within the cap. */
  lemma {:induction false} RunIsBounded(
      cfg: Config, s: Session, start: nat, i: nat, worlds: seq<World>, run: RunState)
    requires i <= s.currentStep && |s.steps| == |worlds|
    requires Inv(cfg, s) && s.status == EXECUTING && Accounts(cfg, s, start, run)
    ensures var t := RunFrom(cfg, s, i, worlds, run).0;
      start <= t.currentStep <= |t.steps| &&
      (forall call :: var n := Occurrences(Calls(t.steps[start..t.currentStep]), call);
        n > 0 ==> n < cfg.loopThreshold) &&
      (t.status == COMPLETED ==>
        t.totalTokens == TokenSum(t.steps[start..]) && t.totalTokens <= CapsOf(cfg).total)
    decreases |s.steps| - i
  {
    hide ExecuteStep, GateOf, StepCap, Occurrences, TokenSum, Inv;
    CompletedBeforeCurrent(cfg, s, i);
    if i == |s.steps| {
      assert s.steps[start..] == s.steps[start..s.currentStep];
    } else {
      hide RunFrom;
      RunRound(cfg, s, i, worlds, run);
      if s.steps[i].status == STEP_COMPLETED {
        RunIsBounded(cfg, s, start, i + 1, worlds, run);
      } else if GateOf(cfg, s, i) == Open {
        var (r, after) :=
          ExecuteStep(cfg, StepCap(cfg, s), s.checkpoints, s.steps[i].tool, s.steps[i].input, worlds[i], run);
        if r.Finished? {
          StepDoneKeepsInv(cfg, s, worlds[i], run);
          StepAccounts(cfg, s, start, worlds[i], run);
          RunIsBounded(cfg, StepDone(s, i, r.data, r.tokens, r.ran), start, i + 1, worlds, after);
        } else {
          var t := StepBroken(s, i, r.overBudget, r.ran);
          assert t.steps[start..t.currentStep] == s.steps[start..s.currentStep];
        }
      }
    }
  }

  /** Bounds of a run that starts afresh on a session, as every start and resume does. */
  lemma FreshRunIsBounded(cfg: Config, s: Session, worlds: seq<World>)
    requires |s.steps| == |worlds| && Inv(cfg, s) && s.status == EXECUTING
    ensures var t := RunFrom(cfg, s, 0, worlds, FRESH_RUN).0;
      s.currentStep <= t.currentStep <= |t.steps| &&
      (forall call :: var n := Occurrences(Calls(t.steps[s.currentStep..t.currentStep]), call);
        n > 0 ==> n < cfg.loopThreshold) &&
      (t.status == COMPLETED ==>
        t.totalTokens == TokenSum(t.steps[s.currentStep..]) && t.totalTokens <= CapsOf(cfg).total)
  {
    assert s.steps[s.currentStep..s.currentStep] == [];
    RunIsBounded(cfg, s, s.currentStep, 0, worlds, FRESH_RUN);
  }
}
