/** That the gates of a session open as decided, and that a run nothing stands in the way of
    completes the plan. */
module AgentProgress {
  import opened Wrappers
  import opened AgentPlan
  import opened Budgets
  import opened AgentRuntime
  import opened AgentHistory

  // ----------------------------------------------------------------------------- decisions

  lemma {:induction false} OnlyRequest(approvals: seq<Approval>, k: nat)
    requires k < |approvals|
    requires forall i :: 0 <= i < |approvals| && i != k ==> approvals[i].step != approvals[k].step
    ensures LatestApproval(approvals, approvals[k].step) == Some(approvals[k])
  {
    if k < |approvals| - 1 {
      OnlyRequest(approvals[..|approvals| - 1], k);
    }
  }

  /** An operator's decision, and only the last one, is what the gate of the step shows; the
      gates of all other steps stay as they were. */
  lemma DecisionSetsGate(cfg: Config, s: Session, request: nat, approve: bool, i: nat)
    requires Inv(cfg, s) && request < |s.approvals| && i < |s.steps|
    ensures GateOf(cfg, Decide(s, request, approve).0, i) ==
      if i != s.approvals[request].step then GateOf(cfg, s, i)
      else if !Gated(cfg, s.steps[i]) || approve then Open
      else Denied
  {
    hide Prefix, Checkpointed, ExecutionsSound, ReplaysExact;
    var after := Decide(s, request, approve).0.approvals;
    if i == s.approvals[request].step {
      assert forall k :: 0 <= k < |after| ==> after[k].step == s.approvals[k].step;
      OnlyRequest(after, request);
    } else {
      OtherRequests(s.approvals, request, after[request].status, i);
    }
  }

  /** Changing the status of one request does not change the latest request of another step. */
  lemma {:induction false} OtherRequests(approvals: seq<Approval>, k: nat, status: ApprovalStatus, step: nat)
    requires k < |approvals| && approvals[k].step != step
    ensures LatestApproval(approvals[k := approvals[k].(status := status)], step) == LatestApproval(approvals, step)
  {
    var after := approvals[k := approvals[k].(status := status)];
    var n := |approvals| - 1;
    if k < n {
      assert after[..n] == approvals[..n][k := approvals[..n][k].(status := status)];
      if approvals[n].step != step {
        OtherRequests(approvals[..n], k, status, step);
      }
    } else {
      assert after[..n] == approvals[..n];
    }
  }

  // ------------------------------------------------------------------- what stops a step

  /** The step repeats an idempotent call of an earlier step, so its data are replayed. */
  predicate Replayed(cfg: Config, s: Session, j: nat)
    requires j < |s.steps|
  {
    Idempotent(cfg, s.steps[j].tool) && exists i :: 0 <= i < j && SameCall(s.steps[i], s.steps[j])
  }

  /** The tokens reported by the tools that really run for the steps from `start` up to `end`. */
  function RealTokens(cfg: Config, s: Session, worlds: seq<World>, start: nat, end: nat): (r: seq<int>)
    requires end <= |s.steps| == |worlds|
    ensures NonNegative(r)
    decreases end
  {
    if end <= start then []
    else
      RealTokens(cfg, s, worlds, start, end - 1) +
      if Replayed(cfg, s, end - 1) || worlds[end - 1].result.Raised? then []
      else [worlds[end - 1].result.tokens]
  }

  /** The session's own step limit, or the profile's if it has none. */
  function StepLimit(cfg: Config, s: Session): (n: nat) { if s.maxSteps > 0 then s.maxSteps else cfg.profileMaxSteps }

  /** The tool of the step may run, answers, and leaves every budget of the run within limits. */
  predicate RunsWell(cfg: Config, s: Session, worlds: seq<World>, start: nat, j: nat)
    requires j < |s.steps| == |worlds|
  {
    var w := worlds[j];
    var before := |RealTokens(cfg, s, worlds, start, j)|;
    w.authorized && w.validInput && w.inTime && w.result.Output? && w.costOk &&
    before < StepLimit(cfg, s) && before < cfg.maxToolCalls &&
    UpFifths(RealTokens(cfg, s, worlds, start, j + 1)) <= cfg.maxTokens / 5
  }

  /** Nothing stops a run that began at step `start` when it comes to step `j`. */
  predicate Passes(cfg: Config, s: Session, worlds: seq<World>, start: nat, j: nat)
    requires start <= j < |s.steps| == |worlds|
  {
    GateOf(cfg, s, j) == Open && s.steps[j].tool in cfg.registry &&
    Occurrences(Calls(s.steps[start..j + 1]), (s.steps[j].tool, s.steps[j].input)) < cfg.loopThreshold &&
    (Replayed(cfg, s, j) || RunsWell(cfg, s, worlds, start, j))
  }

  /** What a run has used up when it has completed the steps from `start` to the current one. */
  ghost predicate UsedUp(cfg: Config, s: Session, worlds: seq<World>, start: nat, run: RunState)
    requires start <= s.currentStep <= |s.steps| == |worlds|
  {
    var spent := RealTokens(cfg, s, worlds, start, s.currentStep);
    run.history == Calls(s.steps[start..s.currentStep]) &&
    run.usage == After(NO_USAGE, spent) && run.steps == run.toolCalls == |spent| &&
    UpFifths(spent) <= cfg.maxTokens / 5
  }

  // ------------------------------------------------------------------------- one step

  /** Replay applies exactly to the steps that repeat an earlier idempotent call. */
  lemma ReplayedExactly(cfg: Config, s: Session)
    requires Inv(cfg, s) && s.currentStep < |s.steps|
    ensures var step := s.steps[s.currentStep];
      Replayed(cfg, s, s.currentStep) <==>
      Idempotent(cfg, step.tool) && FindCheckpoint(s.checkpoints, step.tool, step.input).Some?
  {
    var j := s.currentStep;
    var step := s.steps[j];
    if Replayed(cfg, s, j) {
      var i :| 0 <= i < j && SameCall(s.steps[i], step);
      assert s.checkpoints[i].tool == step.tool && s.checkpoints[i].input == step.input;
    }
    if FindCheckpoint(s.checkpoints, step.tool, step.input).Some? {
      FindAmongCheckpoints(s.checkpoints, step.tool, step.input);
      var found := FindCheckpoint(s.checkpoints, step.tool, step.input).value;
      var i :| 0 <= i < |s.checkpoints| && s.checkpoints[i] == found;
      assert found.tool == step.tool && found.input == step.input;
      assert SameCall(s.steps[i], step);
    }
  }

  lemma AfterSnoc(counts: seq<int>, tokens: int)
    ensures After(NO_USAGE, counts + [tokens]) == Consumed(After(NO_USAGE, counts), tokens, 0, 0)
  {
    assert (counts + [tokens])[..|counts|] == counts;
  }

  /** Charging a tool's answer succeeds exactly within the step, call and token limits. */
  lemma ChargeExactly(
      cfg: Config, stepCap: nat, run: RunState, spent: seq<int>, data: string, tokens: nat, costOk: bool)
    requires NonNegative(spent) && run.usage == After(NO_USAGE, spent) && run.steps == run.toolCalls == |spent|
    ensures var (r, after) := Charge(cfg, stepCap, run, data, tokens, costOk);
      (r.Finished? <==>
        |spent| < stepCap && |spent| < cfg.maxToolCalls && costOk && UpFifths(spent + [tokens]) <= cfg.maxTokens / 5) &&
      (r.Finished? ==>
        r == Finished(data, tokens, true) && after.history == run.history &&
        after.usage == After(NO_USAGE, spent + [tokens]) && after.steps == after.toolCalls == |spent| + 1)
  {
    hide After, UpFifths, Exceeded, Consumed;
    AfterSnoc(spent, tokens);
    WithinCapsExactly(cfg.maxTokens, spent + [tokens]);
  }

  lemma TotalWithin(cfg: Config, spent: seq<int>)
    requires NonNegative(spent) && UpFifths(spent) <= cfg.maxTokens / 5
    ensures After(NO_USAGE, spent).total <= CapsOf(cfg).total
  {
    OutputIsUpFifths(spent);
  }

  /** The call history with the current step's call. */
  lemma CallsSnoc(s: Session, start: nat, j: nat)
    requires start <= j < |s.steps|
    ensures Calls(s.steps[start..j + 1]) == Calls(s.steps[start..j]) + [(s.steps[j].tool, s.steps[j].input)]
  {
    assert s.steps[start..j + 1] == s.steps[start..j] + [s.steps[j]];
  }

  /** The current step finishes if and only if nothing stops it. */
  lemma StepFinishesExactly(cfg: Config, s: Session, worlds: seq<World>, start: nat, run: RunState)
    requires Inv(cfg, s) && start <= s.currentStep < |s.steps| == |worlds|
    requires UsedUp(cfg, s, worlds, start, run) && GateOf(cfg, s, s.currentStep) == Open
    ensures var j := s.currentStep;
      ExecuteStep(cfg, StepCap(cfg, s), s.checkpoints, s.steps[j].tool, s.steps[j].input, worlds[j], run).0.Finished?
      <==> Passes(cfg, s, worlds, start, j)
  {
    hide Charge, After, UpFifths, Occurrences, Calls, Inv, FindCheckpoint, GateOf, Replayed;
    var j := s.currentStep;
    var w := worlds[j];
    var recorded := run.(history := run.history + [(s.steps[j].tool, s.steps[j].input)]);
    ReplayedExactly(cfg, s);
    CallsSnoc(s, start, j);
    var spent := RealTokens(cfg, s, worlds, start, j);
    TotalWithin(cfg, spent);
    if w.result.Output? {
      ChargeExactly(cfg, StepCap(cfg, s), recorded, spent, w.result.data, w.result.tokens, w.costOk);
    }
  }

  /** Completing the current step changes nothing that decides about any step. */
  lemma StepDoneDecidesNothing(
      cfg: Config, s: Session, worlds: seq<World>, start: nat, i: nat, data: string, tokens: nat, ran: bool, j: nat)
    requires i < |s.steps| == |worlds| && start <= j <= |s.steps|
    ensures var t := StepDone(s, i, data, tokens, ran);
      |t.steps| == |s.steps| && RealTokens(cfg, t, worlds, start, j) == RealTokens(cfg, s, worlds, start, j) &&
      Calls(t.steps[start..j]) == Calls(s.steps[start..j])
    decreases j
  {
    hide Replayed, Calls;
    var t := StepDone(s, i, data, tokens, ran);
    SameCalls(s.steps[start..j], t.steps[start..j]);
    if j > start {
      StepDoneDecidesNothing(cfg, s, worlds, start, i, data, tokens, ran, j - 1);
      SameReplay(cfg, s, t, j - 1);
    }
  }

  lemma {:induction false} SameCalls(a: seq<Step>, b: seq<Step>)
    requires |a| == |b| && forall k :: 0 <= k < |a| ==> SameCall(a[k], b[k])
    ensures Calls(a) == Calls(b)
  {
  }

  lemma SameReplay(cfg: Config, s: Session, t: Session, j: nat)
    requires j < |s.steps| == |t.steps| && forall k :: 0 <= k < |s.steps| ==> SameCall(s.steps[k], t.steps[k])
    ensures Replayed(cfg, s, j) == Replayed(cfg, t, j)
  {
    if Replayed(cfg, s, j) {
      var i :| 0 <= i < j && SameCall(s.steps[i], s.steps[j]);
      assert SameCall(t.steps[i], t.steps[j]);
    }
    if Replayed(cfg, t, j) {
      var i :| 0 <= i < j && SameCall(t.steps[i], t.steps[j]);
      assert SameCall(s.steps[i], s.steps[j]);
    }
  }

  lemma StepDonePasses(
      cfg: Config, s: Session, worlds: seq<World>, start: nat, i: nat, data: string, tokens: nat, ran: bool, j: nat)
    requires i < |s.steps| == |worlds| && start <= j < |s.steps|
    ensures var t := StepDone(s, i, data, tokens, ran);
      |t.steps| == |s.steps| && (Passes(cfg, t, worlds, start, j) <==> Passes(cfg, s, worlds, start, j))
  {
    hide LatestApproval, Occurrences, UpFifths, RealTokens, Replayed, Calls;
    var t := StepDone(s, i, data, tokens, ran);
    StepDoneDecidesNothing(cfg, s, worlds, start, i, data, tokens, ran, j);
    StepDoneDecidesNothing(cfg, s, worlds, start, i, data, tokens, ran, j + 1);
    SameReplay(cfg, s, t, j);
  }

  /** What the run has used up after the current step. */
  lemma StepUsesUp(cfg: Config, s: Session, worlds: seq<World>, start: nat, run: RunState)
    requires Inv(cfg, s) && start <= s.currentStep < |s.steps| == |worlds|
    requires UsedUp(cfg, s, worlds, start, run) && Passes(cfg, s, worlds, start, s.currentStep)
    ensures var j := s.currentStep;
      var (r, after) :=
        ExecuteStep(cfg, StepCap(cfg, s), s.checkpoints, s.steps[j].tool, s.steps[j].input, worlds[j], run);
      r.Finished? &&
      var t := StepDone(s, j, r.data, r.tokens, r.ran);
      t.currentStep == j + 1 && |t.steps| == |s.steps| && UsedUp(cfg, t, worlds, start, after)
  {
    hide Charge, After, UpFifths, Occurrences, Calls, Inv, FindCheckpoint, GateOf, Replayed;
    var j := s.currentStep;
    var w := worlds[j];
    StepFinishesExactly(cfg, s, worlds, start, run);
    ReplayedExactly(cfg, s);
    CallsSnoc(s, start, j);
    NumberedSteps(cfg, s);
    var spent := RealTokens(cfg, s, worlds, start, j);
    var (r, after) :=
      ExecuteStep(cfg, StepCap(cfg, s), s.checkpoints, s.steps[j].tool, s.steps[j].input, w, run);
    StepDoneDecidesNothing(cfg, s, worlds, start, j, r.data, r.tokens, r.ran, j + 1);
    if !Replayed(cfg, s, j) {
      var recorded := run.(history := run.history + [(s.steps[j].tool, s.steps[j].input)]);
      ChargeExactly(cfg, StepCap(cfg, s), recorded, spent, w.result.data, w.result.tokens, w.costOk);
      assert RealTokens(cfg, s, worlds, start, j + 1) == spent + [w.result.tokens];
    } else {
      assert RealTokens(cfg, s, worlds, start, j + 1) == spent;
    }
  }

  // ------------------------------------------------------------------------ whole runs

  ghost predicate AllPass(cfg: Config, s: Session, worlds: seq<World>, start: nat, first: nat)
    requires start <= first && |s.steps| == |worlds|
  {
    forall j :: first <= j < |s.steps| ==> Passes(cfg, s, worlds, start, j)
  }

  lemma AllPassStep(
      cfg: Config, s: Session, worlds: seq<World>, start: nat, i: nat, data: string, tokens: nat, ran: bool)
    requires start <= i < |s.steps| == |worlds|
    requires Passes(cfg, s, worlds, start, i)
    ensures var t := StepDone(s, i, data, tokens, ran);
      |t.steps| == |s.steps| && (AllPass(cfg, t, worlds, start, i + 1) <==> AllPass(cfg, s, worlds, start, i))
  {
    hide Passes, StepDone;
    var t := StepDone(s, i, data, tokens, ran);
    StepDoneShape(s, i, data, tokens, ran);
    forall j | start <= j < |s.steps|
      ensures Passes(cfg, t, worlds, start, j) <==> Passes(cfg, s, worlds, start, j)
    {
      StepDonePasses(cfg, s, worlds, start, i, data, tokens, ran, j);
    }
  }

  lemma {:induction false} RunCompletesFrom(
      cfg: Config, s: Session, start: nat, i: nat, worlds: seq<World>, run: RunState)
    requires Inv(cfg, s) && s.status == EXECUTING && i <= s.currentStep
    requires start <= s.currentStep <= |s.steps| == |worlds| && UsedUp(cfg, s, worlds, start, run)
    ensures RunFrom(cfg, s, i, worlds, run).0.status == COMPLETED <==>
            AllPass(cfg, s, worlds, start, s.currentStep)
    decreases |s.steps| - i
  {
    hide ExecuteStep, Inv, Passes, StepCap, UsedUp, StepDone, AllPass;
    CompletedBeforeCurrent(cfg, s, i);
    if i == |s.steps| {
      NothingLeft(cfg, s, worlds, start);
    } else {
      hide RunFrom;
      RunRound(cfg, s, i, worlds, run);
      if s.steps[i].status == STEP_COMPLETED {
        RunCompletesFrom(cfg, s, start, i + 1, worlds, run);
      } else if GateOf(cfg, s, i) == Open {
        StepFinishesExactly(cfg, s, worlds, start, run);
        var (r, after) :=
          ExecuteStep(cfg, StepCap(cfg, s), s.checkpoints, s.steps[i].tool, s.steps[i].input, worlds[i], run);
        if r.Finished? {
          var t := StepDone(s, i, r.data, r.tokens, r.ran);
          StepDoneKeepsInv(cfg, s, worlds[i], run);
          StepUsesUp(cfg, s, worlds, start, run);
          AllPassStep(cfg, s, worlds, start, i, r.data, r.tokens, r.ran);
          RunCompletesFrom(cfg, t, start, i + 1, worlds, after);
        } else {
          FirstStopped(cfg, s, worlds, start);
        }
      } else {
        FirstStopped(cfg, s, worlds, start);
      }
    }
  }

  lemma NothingLeft(cfg: Config, s: Session, worlds: seq<World>, start: nat)
    requires start <= s.currentStep == |s.steps| == |worlds|
    ensures AllPass(cfg, s, worlds, start, s.currentStep)
  {
  }

  lemma FirstStopped(cfg: Config, s: Session, worlds: seq<World>, start: nat)
    requires start <= s.currentStep < |s.steps| == |worlds|
    requires GateOf(cfg, s, s.currentStep) != Open || !Passes(cfg, s, worlds, start, s.currentStep)
    ensures !AllPass(cfg, s, worlds, start, s.currentStep)
  {
    hide Occurrences, RunsWell, Replayed;
    assert !Passes(cfg, s, worlds, start, s.currentStep);
  }

  // ----------------------------------------------------------------------------- loops

  /** Every call occurs fewer times than the loop threshold. */
  ghost predicate LoopFree(cfg: Config, calls: seq<Call>)
  {
    forall call :: Occurrences(calls, call) > 0 ==> Occurrences(calls, call) < cfg.loopThreshold
  }

  /** No call is refused when it is made. */
  ghost predicate NeverRefused(cfg: Config, calls: seq<Call>)
  {
    forall k :: 1 <= k <= |calls| ==> Occurrences(calls[..k], calls[k - 1]) < cfg.loopThreshold
  }

  lemma {:induction false} NeverRefusedExactly(cfg: Config, calls: seq<Call>)
    ensures NeverRefused(cfg, calls) <==> LoopFree(cfg, calls)
  {
    if calls != [] {
      var n := |calls| - 1;
      var front := calls[..n];
      NeverRefusedExactly(cfg, front);
      assert calls == front + [calls[n]] && calls[..n + 1] == calls;
      assert forall k :: 1 <= k <= n ==> calls[..k] == front[..k] && calls[k - 1] == front[k - 1];
      assert NeverRefused(cfg, calls) <==>
             NeverRefused(cfg, front) && Occurrences(calls[..n + 1], calls[n]) < cfg.loopThreshold;
      forall call
        ensures Occurrences(calls, call) == Occurrences(front, call) + if calls[n] == call then 1 else 0
      {
        OccurrencesSnoc(front, calls[n], call);
      }
      if LoopFree(cfg, calls) {
        assert Occurrences(calls, calls[n]) > 0;
        assert LoopFree(cfg, front);
      }
    }
  }

  lemma RefusalsOfRun(cfg: Config, s: Session, start: nat)
    requires start <= |s.steps|
    ensures LoopFree(cfg, Calls(s.steps[start..])) <==>
      forall j :: start <= j < |s.steps| ==>
        Occurrences(Calls(s.steps[start..j + 1]), (s.steps[j].tool, s.steps[j].input)) < cfg.loopThreshold
  {
    hide Occurrences;
    var calls := Calls(s.steps[start..]);
    NeverRefusedExactly(cfg, calls);
    forall j | start <= j < |s.steps|
      ensures Calls(s.steps[start..j + 1]) == calls[..j + 1 - start]
      ensures calls[j - start] == (s.steps[j].tool, s.steps[j].input)
    {
      assert s.steps[start..j + 1] == s.steps[start..][..j + 1 - start];
    }
    if forall j :: start <= j < |s.steps| ==>
        Occurrences(Calls(s.steps[start..j + 1]), (s.steps[j].tool, s.steps[j].input)) < cfg.loopThreshold {
      forall k | 1 <= k <= |calls| ensures Occurrences(calls[..k], calls[k - 1]) < cfg.loopThreshold {
        var j := start + k - 1;
        assert Calls(s.steps[start..j + 1]) == calls[..k];
      }
    }
    if NeverRefused(cfg, calls) {
      forall j | start <= j < |s.steps|
        ensures Occurrences(Calls(s.steps[start..j + 1]), (s.steps[j].tool, s.steps[j].input)) < cfg.loopThreshold
      {
        var k := j + 1 - start;
        assert Occurrences(calls[..k], calls[k - 1]) < cfg.loopThreshold;
      }
    }
  }

  /** Apart from the loop detector, nothing stops the step at position `j`. */
  predicate Unhindered(cfg: Config, s: Session, worlds: seq<World>, j: nat)
    requires s.currentStep <= j < |s.steps| == |worlds|
  {
    GateOf(cfg, s, j) == Open && s.steps[j].tool in cfg.registry &&
    (Replayed(cfg, s, j) || RunsWell(cfg, s, worlds, s.currentStep, j))
  }

  /** A start or resume completes the plan if and only if no call occurs as often as the loop
      threshold among the remaining steps, every remaining gate is open and every remaining
      tool known, and each tool that is not replayed is allowed, answers in time and keeps
      within the step, call, cost and token limits. */
  lemma RunCompletesExactly(cfg: Config, s: Session, worlds: seq<World>)
    requires Inv(cfg, s) && s.status == EXECUTING && |s.steps| == |worlds|
    ensures RunFrom(cfg, s, 0, worlds, FRESH_RUN).0.status == COMPLETED <==>
            LoopFree(cfg, Calls(s.steps[s.currentStep..])) &&
            forall j :: s.currentStep <= j < |s.steps| ==> Unhindered(cfg, s, worlds, j)
  {
    hide RunFrom, Inv, GateOf, Replayed, RunsWell, LoopFree, Calls, Occurrences, UsedUp;
    CompletedBeforeCurrent(cfg, s, 0);
    NothingUsed(cfg, s, worlds);
    RunCompletesFrom(cfg, s, s.currentStep, 0, worlds, FRESH_RUN);
    RefusalsOfRun(cfg, s, s.currentStep);
    assert forall j :: s.currentStep <= j < |s.steps| ==>
      (Passes(cfg, s, worlds, s.currentStep, j) <==>
        Unhindered(cfg, s, worlds, j) &&
        Occurrences(Calls(s.steps[s.currentStep..j + 1]), (s.steps[j].tool, s.steps[j].input)) < cfg.loopThreshold);
  }

  lemma NothingUsed(cfg: Config, s: Session, worlds: seq<World>)
    requires s.currentStep <= |s.steps| == |worlds|
    ensures UsedUp(cfg, s, worlds, s.currentStep, FRESH_RUN)
  {
    assert s.steps[s.currentStep..s.currentStep] == [];
  }
}
