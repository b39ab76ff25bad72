/** How a run ends and what it leaves behind, exactly. */
module AgentOutcomes {
  import opened Wrappers
  import opened AgentPlan
  import opened Budgets
  import opened AgentRuntime
  import opened AgentHistory
  import opened AgentProgress

  // -------------------------------------------------------------------------------- gates

  /** The request `k` is the only one for step `i`, and has this status. */
  predicate Requested(s: Session, i: nat, k: nat, status: ApprovalStatus)
  {
    k < |s.approvals| && s.approvals[k] == Approval(i, status)
  }

  ghost predicate HasRequest(s: Session, i: nat, status: ApprovalStatus)
  {
    exists k: nat :: Requested(s, i, k, status)
  }

  lemma {:induction false} RequestShows(cfg: Config, s: Session, i: nat, k: nat)
    requires Inv(cfg, s) && k < |s.approvals| && s.approvals[k].step == i
    ensures LatestApproval(s.approvals, i) == Some(s.approvals[k])
  {
    hide Prefix, Checkpointed, ExecutionsSound, ReplaysExact, LatestApproval;
    OnlyRequest(s.approvals, k);
  }

  /** What the gate of a step shows: it is open if the step needs no approval or its request was
      approved; otherwise it asks first without a request, waits while the request is pending,
      and is denied when the request was rejected or has expired. */
  lemma {:induction false} GateExactly(cfg: Config, s: Session, i: nat)
    requires Inv(cfg, s) && i < |s.steps|
    ensures var gated := s.steps[i].requiresApproval || s.steps[i].tool in cfg.approvalTools;
      (GateOf(cfg, s, i) == Open <==> !gated || HasRequest(s, i, APPROVED)) &&
      (GateOf(cfg, s, i) == AskFirst <==> gated && forall k :: 0 <= k < |s.approvals| ==> s.approvals[k].step != i) &&
      (GateOf(cfg, s, i) == Waiting <==> gated && HasRequest(s, i, APPROVAL_PENDING)) &&
      (GateOf(cfg, s, i) == Denied <==> gated && (HasRequest(s, i, REJECTED) || HasRequest(s, i, EXPIRED)))
  {
    hide Inv, LatestApproval;
    var latest := LatestApproval(s.approvals, i);
    if latest.Some? {
      var k :| 0 <= k < |s.approvals| && s.approvals[k] == latest.value && LastOfStep(s.approvals, k, i);
      assert Requested(s, i, k, latest.value.status);
      forall k': nat, status | Requested(s, i, k', status) ensures status == latest.value.status {
        RequestShows(cfg, s, i, k');
      }
    }
  }

  /** The log marks an execution as approved exactly if the step's request stood approved. */
  lemma {:induction false} ApprovedExactly(cfg: Config, s: Session, i: nat)
    requires Inv(cfg, s) && i < |s.steps|
    ensures IsApproved(s, i) <==> HasRequest(s, i, APPROVED)
  {
    hide Inv, LatestApproval;
    var latest := LatestApproval(s.approvals, i);
    if latest.Some? {
      var k :| 0 <= k < |s.approvals| && s.approvals[k] == latest.value && LastOfStep(s.approvals, k, i);
      assert Requested(s, i, k, latest.value.status);
      forall k': nat, status | Requested(s, i, k', status) ensures status == latest.value.status {
        RequestShows(cfg, s, i, k');
      }
    }
  }

  /** How often a call occurs in the history of a run. */
  lemma {:induction false} OccurrencesCount(history: seq<Call>, call: Call)
    ensures Occurrences(history, call) == multiset(history)[call]
  {
    if history != [] {
      var n := |history| - 1;
      assert history == history[..n] + [history[n]];
      OccurrencesCount(history[..n], call);
    }
  }

  // ------------------------------------------------------------------- where a run stops

  /** A step, call, time, token or cost limit stops the run at step `j`, whose gate is open, whose
      tool is known, and whose call is no loop, not replayed, authorised and valid. */
  ghost predicate LimitStops(cfg: Config, s: Session, worlds: seq<World>, start: nat, j: nat)
    requires start <= j < |s.steps| == |worlds|
  {
    var w := worlds[j];
    var before := |RealTokens(cfg, s, worlds, start, j)|;
    GateOf(cfg, s, j) == Open && s.steps[j].tool in cfg.registry &&
    Occurrences(Calls(s.steps[start..j + 1]), (s.steps[j].tool, s.steps[j].input)) < cfg.loopThreshold &&
    !Replayed(cfg, s, j) && w.authorized && w.validInput &&
    (before >= StepLimit(cfg, s) || before >= cfg.maxToolCalls || !w.inTime ||
     (w.result.Output? &&
      (!w.costOk || UpFifths(RealTokens(cfg, s, worlds, start, j + 1)) > cfg.maxTokens / 5)))
  }

  /** A break is over budget exactly if a limit stopped the step. */
  lemma {:induction false} BreakExactly(cfg: Config, s: Session, worlds: seq<World>, start: nat, run: RunState)
    requires Inv(cfg, s) && start <= s.currentStep < |s.steps| == |worlds|
    requires UsedUp(cfg, s, worlds, start, run) && GateOf(cfg, s, s.currentStep) == Open
    requires !Passes(cfg, s, worlds, start, s.currentStep)
    ensures var j := s.currentStep;
      var r :=
        ExecuteStep(cfg, StepCap(cfg, s), s.checkpoints, s.steps[j].tool, s.steps[j].input, worlds[j], run).0;
      r.Broke? && (r.overBudget <==> LimitStops(cfg, s, worlds, start, j))
  {
    hide After, UpFifths, Occurrences, Calls, Inv, FindCheckpoint, GateOf, Replayed, Exceeded, Consumed;
    var j := s.currentStep;
    var w := worlds[j];
    StepFinishesExactly(cfg, s, worlds, start, run);
    ReplayedExactly(cfg, s);
    CallsSnoc(s, start, j);
    var spent := RealTokens(cfg, s, worlds, start, j);
    TotalWithin(cfg, spent);
    if w.result.Output? {
      AfterSnoc(spent, w.result.tokens);
      WithinCapsExactly(cfg.maxTokens, spent + [w.result.tokens]);
    }
  }

  /** How a run that stopped at step `j` leaves the session: it waits if and only if the gate asks
      or waits, has exceeded its budget if and only if a limit stopped it, and has failed in
      every other case.  A step whose gate was open has failed; a gate that asks first has filed a
      request; no later step was touched. */
  ghost predicate StoppedAt(cfg: Config, s: Session, worlds: seq<World>, start: nat, j: nat, t: Session)
    requires start <= j < |s.steps| == |worlds|
  {
    var waits := GateOf(cfg, s, j) == AskFirst || GateOf(cfg, s, j) == Waiting;
    var limited := LimitStops(cfg, s, worlds, start, j);
    |t.steps| == |s.steps| && t.currentStep == j &&
    (t.status == AWAITING_APPROVAL <==> waits) && (t.status == BUDGET_EXCEEDED <==> limited) &&
    (t.status == FAILED <==> !waits && !limited) &&
    t.approvals == s.approvals + (if GateOf(cfg, s, j) == AskFirst then [Approval(j, APPROVAL_PENDING)] else []) &&
    t.steps[j] == (if GateOf(cfg, s, j) == Open then s.steps[j].(status := STEP_FAILED) else s.steps[j]) &&
    t.steps[j + 1..] == s.steps[j + 1..]
  }

  /** Completing an earlier step decides nothing about where a run stops, or how. */
  lemma {:induction false} StepDoneStops(
      cfg: Config, s: Session, worlds: seq<World>, start: nat, i: nat, data: string, tokens: nat, ran: bool,
      j: nat, end: Session)
    requires start <= i < j < |s.steps| == |worlds|
    ensures var t := StepDone(s, i, data, tokens, ran);
      |t.steps| == |s.steps| &&
      (StoppedAt(cfg, t, worlds, start, j, end) <==> StoppedAt(cfg, s, worlds, start, j, end))
  {
    hide LatestApproval, Occurrences, UpFifths, RealTokens, Replayed, Calls;
    var t := StepDone(s, i, data, tokens, ran);
    StepDoneDecidesNothing(cfg, s, worlds, start, i, data, tokens, ran, j);
    StepDoneDecidesNothing(cfg, s, worlds, start, i, data, tokens, ran, j + 1);
    SameReplay(cfg, s, t, j);
    assert t.steps[j] == s.steps[j] && t.steps[j + 1..] == s.steps[j + 1..];
  }

  lemma {:induction false} RunStopsFrom(
      cfg: Config, s: Session, start: nat, i: nat, worlds: seq<World>, run: RunState, j: nat)
    requires Inv(cfg, s) && s.status == EXECUTING && i <= s.currentStep
    requires start <= s.currentStep <= j < |s.steps| == |worlds| && UsedUp(cfg, s, worlds, start, run)
    requires !Passes(cfg, s, worlds, start, j)
    requires forall k :: s.currentStep <= k < j ==> Passes(cfg, s, worlds, start, k)
    ensures StoppedAt(cfg, s, worlds, start, j, RunFrom(cfg, s, i, worlds, run).0)
    decreases |s.steps| - i
  {
    hide ExecuteStep, Inv, Passes, StepCap, UsedUp, StepDone, RunFrom, StoppedAt, GateOf;
    CompletedBeforeCurrent(cfg, s, i);
    RunRound(cfg, s, i, worlds, run);
    if s.steps[i].status == STEP_COMPLETED {
      RunStopsFrom(cfg, s, start, i + 1, worlds, run, j);
    } else if i < j {
      PassingGate(cfg, s, worlds, start, i);
      StepFinishesExactly(cfg, s, worlds, start, run);
      var (r, after) :=
        ExecuteStep(cfg, StepCap(cfg, s), s.checkpoints, s.steps[i].tool, s.steps[i].input, worlds[i], run);
      var t := StepDone(s, i, r.data, r.tokens, r.ran);
      StepDoneKeepsInv(cfg, s, worlds[i], run);
      StepUsesUp(cfg, s, worlds, start, run);
      StepDoneShape(s, i, r.data, r.tokens, r.ran);
      forall k | start <= k < |s.steps|
        ensures Passes(cfg, t, worlds, start, k) <==> Passes(cfg, s, worlds, start, k)
      {
        StepDonePasses(cfg, s, worlds, start, i, r.data, r.tokens, r.ran, k);
      }
      RunStopsFrom(cfg, t, start, i + 1, worlds, after, j);
      StepDoneStops(cfg, s, worlds, start, i, r.data, r.tokens, r.ran, j, RunFrom(cfg, s, i, worlds, run).0);
    } else {
      StopsHere(cfg, s, worlds, start, run);
    }
  }

  lemma {:induction false} PassingGate(cfg: Config, s: Session, worlds: seq<World>, start: nat, k: nat)
    requires start <= k < |s.steps| == |worlds| && Passes(cfg, s, worlds, start, k)
    ensures GateOf(cfg, s, k) == Open
  {
  }

  /** The round in which a run stops. */
  lemma {:induction false} StopsHere(cfg: Config, s: Session, worlds: seq<World>, start: nat, run: RunState)
    requires Inv(cfg, s) && s.status == EXECUTING && start <= s.currentStep < |s.steps| == |worlds|
    requires UsedUp(cfg, s, worlds, start, run) && !Passes(cfg, s, worlds, start, s.currentStep)
    ensures StoppedAt(cfg, s, worlds, start, s.currentStep, RunFrom(cfg, s, s.currentStep, worlds, run).0)
  {
    hide ExecuteStep, Inv, Passes, StepCap, UsedUp, RunFrom, GateOf, LimitStops;
    var j := s.currentStep;
    CompletedBeforeCurrent(cfg, s, j);
    RunRound(cfg, s, j, worlds, run);
    if GateOf(cfg, s, j) == Open {
      BreakExactly(cfg, s, worlds, start, run);
    } else {
      OnlyOpenGatesAreLimited(cfg, s, worlds, start, j);
    }
  }

  lemma {:induction false} OnlyOpenGatesAreLimited(cfg: Config, s: Session, worlds: seq<World>, start: nat, j: nat)
    requires start <= j < |s.steps| == |worlds| && GateOf(cfg, s, j) != Open
    ensures !LimitStops(cfg, s, worlds, start, j)
  {
  }

  /** The counterpart of completion: where the first remaining step that does not pass is, the run
      stops, and the status says why. */
  lemma {:induction false} RunStopsExactly(cfg: Config, s: Session, worlds: seq<World>, j: nat)
    requires Inv(cfg, s) && s.status == EXECUTING && s.currentStep <= j < |s.steps| == |worlds|
    requires !Passes(cfg, s, worlds, s.currentStep, j)
    requires forall k :: s.currentStep <= k < j ==> Passes(cfg, s, worlds, s.currentStep, k)
    ensures StoppedAt(cfg, s, worlds, s.currentStep, j, RunFrom(cfg, s, 0, worlds, FRESH_RUN).0)
  {
    hide RunFrom, Inv, Passes, UsedUp, StoppedAt;
    NothingUsed(cfg, s, worlds);
    RunStopsFrom(cfg, s, s.currentStep, 0, worlds, FRESH_RUN, j);
  }

  // ------------------------------------------------------------- what completed steps hold

  /** A step completed in the run holds what its tool answered, or, if it was replayed, the data of
      every earlier step with the same call at no cost. */
  ghost predicate HoldsAnswer(cfg: Config, s: Session, worlds: seq<World>, k: nat, t: Session)
    requires k < |s.steps| == |worlds| == |t.steps|
  {
    t.steps[k].status == STEP_COMPLETED &&
    if Replayed(cfg, s, k) then
      t.steps[k].tokens == 0 &&
      forall i :: 0 <= i < k && SameCall(s.steps[i], s.steps[k]) ==> t.steps[k].data == t.steps[i].data
    else worlds[k].result == Output(t.steps[k].data, t.steps[k].tokens)
  }

  lemma {:induction false} AnswerOfStep(cfg: Config, s: Session, w: World, run: RunState)
    requires Inv(cfg, s) && s.currentStep < |s.steps|
    requires ExecuteStep(cfg, StepCap(cfg, s), s.checkpoints, s.steps[s.currentStep].tool,
                         s.steps[s.currentStep].input, w, run).0.Finished?
    requires !Replayed(cfg, s, s.currentStep)
    ensures var r := ExecuteStep(cfg, StepCap(cfg, s), s.checkpoints, s.steps[s.currentStep].tool,
                                 s.steps[s.currentStep].input, w, run).0;
      w.result == Output(r.data, r.tokens)
  {
    hide Inv, FindCheckpoint, StepCap, Replayed, Occurrences, Exceeded, Consumed;
    ReplayedExactly(cfg, s);
  }

  lemma {:induction false} RunRecordsFrom(cfg: Config, s: Session, i: nat, worlds: seq<World>, run: RunState)
    requires Inv(cfg, s) && s.status == EXECUTING && i <= s.currentStep && |s.steps| == |worlds|
    ensures var t := RunFrom(cfg, s, i, worlds, run).0;
      |t.steps| == |s.steps| && t.currentStep <= |t.steps| &&
      forall k :: s.currentStep <= k < t.currentStep ==> HoldsAnswer(cfg, s, worlds, k, t)
    decreases |s.steps| - i
  {
    hide ExecuteStep, Inv, StepCap, StepDone, RunFrom, GateOf, HoldsAnswer;
    CompletedBeforeCurrent(cfg, s, i);
    RunKeepsInv(cfg, s, i, worlds, run);
    var t := RunFrom(cfg, s, i, worlds, run).0;
    CompletedBeforeCurrent(cfg, t, 0);
    if i < |s.steps| {
      RunRound(cfg, s, i, worlds, run);
      if s.steps[i].status == STEP_COMPLETED {
        RunRecordsFrom(cfg, s, i + 1, worlds, run);
      } else if GateOf(cfg, s, i) == Open {
        var (r, after) :=
          ExecuteStep(cfg, StepCap(cfg, s), s.checkpoints, s.steps[i].tool, s.steps[i].input, worlds[i], run);
        if r.Finished? {
          var mid := StepDone(s, i, r.data, r.tokens, r.ran);
          StepDoneKeepsInv(cfg, s, worlds[i], run);
          StepDoneShape(s, i, r.data, r.tokens, r.ran);
          RunKeepsInv(cfg, mid, i + 1, worlds, after);
          RunRecordsFrom(cfg, mid, i + 1, worlds, after);
          StepHolds(cfg, s, worlds, run, t);
          forall k | s.currentStep <= k < t.currentStep ensures HoldsAnswer(cfg, s, worlds, k, t) {
            if k > i {
              SameAnswer(cfg, s, mid, worlds, k, t);
            }
          }
        } else {
          NothingMore(s, i, r.overBudget, r.ran);
        }
      }
    } else {
      AllDone(cfg, s, worlds, run);
    }
  }

  lemma {:induction false} AllDone(cfg: Config, s: Session, worlds: seq<World>, run: RunState)
    requires |s.steps| == |worlds|
    ensures RunFrom(cfg, s, |s.steps|, worlds, run).0.currentStep == s.currentStep
  {
  }

  lemma {:induction false} NothingMore(s: Session, i: nat, overBudget: bool, ran: bool)
    requires i < |s.steps|
    ensures StepBroken(s, i, overBudget, ran).currentStep == s.currentStep
  {
  }

  lemma {:induction false} SameAnswer(
      cfg: Config, s: Session, mid: Session, worlds: seq<World>, k: nat, t: Session)
    requires |s.steps| == |mid.steps| == |worlds| == |t.steps| && k < |s.steps| && Extends(s, mid)
    requires HoldsAnswer(cfg, mid, worlds, k, t)
    ensures HoldsAnswer(cfg, s, worlds, k, t)
  {
    hide Replayed;
    SameReplay(cfg, s, mid, k);
    assert forall i :: 0 <= i < |s.steps| ==> SameCall(s.steps[i], mid.steps[i]);
  }

  lemma {:induction false} StepHolds(cfg: Config, s: Session, worlds: seq<World>, run: RunState, t: Session)
    requires Inv(cfg, s) && s.status == EXECUTING && s.currentStep < |s.steps| == |worlds|
    requires GateOf(cfg, s, s.currentStep) == Open
    requires ExecuteStep(cfg, StepCap(cfg, s), s.checkpoints, s.steps[s.currentStep].tool,
                         s.steps[s.currentStep].input, worlds[s.currentStep], run).0.Finished?
    requires var r := ExecuteStep(cfg, StepCap(cfg, s), s.checkpoints, s.steps[s.currentStep].tool,
                                  s.steps[s.currentStep].input, worlds[s.currentStep], run).0;
      Extends(StepDone(s, s.currentStep, r.data, r.tokens, r.ran), t)
    requires Inv(cfg, t)
    ensures |t.steps| == |s.steps| && HoldsAnswer(cfg, s, worlds, s.currentStep, t)
  {
    hide ExecuteStep, Inv, StepCap, GateOf, Replayed, RunFrom;
    var j := s.currentStep;
    var r := ExecuteStep(cfg, StepCap(cfg, s), s.checkpoints, s.steps[j].tool, s.steps[j].input, worlds[j], run).0;
    var mid := StepDone(s, j, r.data, r.tokens, r.ran);
    StepDoneKeepsInv(cfg, s, worlds[j], run);
    ExtendsTransitive(s, mid, t);
    CompletedBeforeCurrent(cfg, t, 0);
    assert t.steps[j] == mid.steps[j];
    if Replayed(cfg, s, j) {
      ReplayHolds(cfg, s, t, j);
    } else {
      AnswerOfStep(cfg, s, worlds[j], run);
    }
  }

  lemma {:induction false} ReplayHolds(cfg: Config, s: Session, t: Session, j: nat)
    requires Inv(cfg, t) && j < t.currentStep <= |t.steps| == |s.steps| && Replayed(cfg, s, j)
    requires forall i :: 0 <= i < |s.steps| ==> SameCall(s.steps[i], t.steps[i])
    ensures t.steps[j].tokens == 0
    ensures forall i :: 0 <= i < j && SameCall(s.steps[i], s.steps[j]) ==> t.steps[j].data == t.steps[i].data
  {
    hide Prefix, Checkpointed, ExecutionsSound;
    var i :| 0 <= i < j && SameCall(s.steps[i], s.steps[j]);
    assert SameCall(t.steps[i], t.steps[j]) && Idempotent(cfg, t.steps[j].tool);
  }

  /** Every step that a start or resume completes holds the answer of its own tool call, or the data
      it replays. */
  lemma {:induction false} RunRecords(cfg: Config, s: Session, worlds: seq<World>)
    requires Inv(cfg, s) && s.status == EXECUTING && |s.steps| == |worlds|
    ensures var t := RunFrom(cfg, s, 0, worlds, FRESH_RUN).0;
      |t.steps| == |s.steps| && t.currentStep <= |t.steps| &&
      forall k :: s.currentStep <= k < t.currentStep ==> HoldsAnswer(cfg, s, worlds, k, t)
  {
    hide RunFrom, Inv, HoldsAnswer;
    RunRecordsFrom(cfg, s, 0, worlds, FRESH_RUN);
  }

  // ------------------------------------------------------------------------ service calls

  /** Who may start a session and when: without permission nothing happens; with it, a planned,
      waiting, paused or already executing session runs and its new status is reported, and any
      other is refused and left alone. */
  lemma {:induction false} StartExactly(cfg: Config, s: Session, permitted: bool, worlds: seq<World>)
    requires |s.steps| == |worlds|
    ensures var (t, reply) := Start(cfg, s, permitted, worlds);
      if !permitted then t == s && reply == Forbidden
      else if s.status in {PLANNED, AWAITING_APPROVAL, PAUSED, EXECUTING} then
        t == RunFrom(cfg, s.(status := EXECUTING), 0, worlds, FRESH_RUN).0 && reply == Answered(t.status)
      else t == s && reply == IllegalTransition
  {
    hide RunFrom;
  }

  /** Resuming differs in one case: a session that is already executing is refused. */
  lemma {:induction false} ResumeExactly(cfg: Config, s: Session, permitted: bool, worlds: seq<World>)
    requires |s.steps| == |worlds|
    ensures var (t, reply) := Resume(cfg, s, permitted, worlds);
      if !permitted then t == s && reply == Forbidden
      else if s.status in {PLANNED, AWAITING_APPROVAL, PAUSED} then
        t == RunFrom(cfg, s.(status := EXECUTING), 0, worlds, FRESH_RUN).0 && reply == Answered(t.status)
      else t == s && reply == IllegalTransition
  {
    hide RunFrom;
  }

  /** Exactly the sessions that have not ended can be cancelled, and nothing but the status
      changes. */
  lemma {:induction false} CancelExactly(s: Session)
    ensures var (t, reply) := Cancel(s);
      if s.status in {COMPLETED, FAILED, CANCELLED, BUDGET_EXCEEDED} then t == s && reply == IllegalTransition
      else t == s.(status := CANCELLED) && reply == Answered(CANCELLED)
  {
  }

  /** A decision reaches one existing request and nothing else. */
  lemma {:induction false} DecideExactly(s: Session, request: nat, approve: bool)
    ensures var (t, reply) := Decide(s, request, approve);
      if request >= |s.approvals| then t == s && reply == NotFound
      else
        t == s.(approvals := t.approvals) && reply == Answered(s.status) && |t.approvals| == |s.approvals| &&
        (forall k :: 0 <= k < |s.approvals| && k != request ==> t.approvals[k] == s.approvals[k]) &&
        t.approvals[request] == Approval(s.approvals[request].step, if approve then APPROVED else REJECTED)
  {
  }

  // ------------------------------------------------------------------------------- plans

  /** What the validator asks of each step of a plan. */
  lemma {:induction false} GoodPlanExactly(plan: seq<PlanStep>, tools: set<string>)
    ensures GoodPlan(plan, tools) <==>
      (forall i :: 0 <= i < |plan| ==> plan[i].sequence == i + 1) &&
      (forall i :: 0 <= i < |plan| ==> plan[i].tool in tools) &&
      forall i :: 0 <= i < |plan| ==> 3 <= plan[i].reasonLength && plan[i].rawLength <= 500
  {
    if (forall i :: 0 <= i < |plan| ==> plan[i].sequence == i + 1) &&
       (forall i :: 0 <= i < |plan| ==> plan[i].tool in tools) &&
       forall i :: 0 <= i < |plan| ==> 3 <= plan[i].reasonLength && plan[i].rawLength <= 500 {
      assert forall i :: 0 <= i < |plan| ==> GoodStep(plan[i], i + 1, tools);
    }
    if GoodPlan(plan, tools) {
      assert forall i :: 0 <= i < |plan| ==> GoodStep(plan[i], i + 1, tools);
    }
  }

  /** What a session never changes of its steps. */
  ghost predicate KeepsPlan(a: Session, b: Session)
  {
    |a.steps| == |b.steps| && forall i :: 0 <= i < |a.steps| ==>
      SameCall(a.steps[i], b.steps[i]) && a.steps[i].requiresApproval == b.steps[i].requiresApproval
  }

  lemma {:induction false} RunKeepsPlan(cfg: Config, s: Session, i: nat, worlds: seq<World>, run: RunState)
    requires i <= |s.steps| == |worlds|
    ensures KeepsPlan(s, RunFrom(cfg, s, i, worlds, run).0)
    decreases |s.steps| - i
  {
    hide ExecuteStep, GateOf, StepCap, Logged;
    if i < |s.steps| && s.status != CANCELLED {
      if s.steps[i].status == STEP_COMPLETED {
        RunKeepsPlan(cfg, s, i + 1, worlds, run);
      } else if GateOf(cfg, s, i) == Open {
        var (r, after) :=
          ExecuteStep(cfg, StepCap(cfg, s), s.checkpoints, s.steps[i].tool, s.steps[i].input, worlds[i], run);
        if r.Finished? {
          RunKeepsPlan(cfg, StepDone(s, i, r.data, r.tokens, r.ran), i + 1, worlds, after);
        }
      }
    }
  }

  lemma {:induction false} HistoryKeepsPlan(cfg: Config, states: seq<Session>, ops: seq<Op>, k: nat)
    requires History(cfg, states, ops) && k < |states|
    ensures KeepsPlan(states[0], states[k])
  {
    hide RunFrom;
    if k > 0 {
      HistoryKeepsPlan(cfg, states, ops, k - 1);
      var s, op := states[k - 1], ops[k - 1];
      if op.StartOp? || op.ResumeOp? {
        RunKeepsPlan(cfg, s.(status := EXECUTING), 0, op.worlds, FRESH_RUN);
      }
    }
  }

  /** A session follows its plan: through any history of a session made from a valid plan, every tool
      that really ran was that of a planned step with the planned input, and only under an approval if
      the plan or the profile asks for one. */
  lemma {:induction false} PlanIsFollowed(
      cfg: Config, plan: seq<PlanStep>, maxSteps: nat, states: seq<Session>, ops: seq<Op>, k: nat, e: nat)
    requires GoodPlan(plan, cfg.registry.Keys) && History(cfg, states, ops) && k < |states|
    requires states[0] == Session(PLANNED, 0, maxSteps, 0, StepsOf(plan), [], [], [])
    requires e < |states[k].executions|
    ensures var x := states[k].executions[e];
      x.step < |plan| && x.tool == plan[x.step].tool && x.input == plan[x.step].input &&
      (plan[x.step].requiresApproval || x.tool in cfg.approvalTools ==> x.approved)
  {
    CreatedSessionsStaySound(cfg, plan, maxSteps, states, ops, k);
    HistoryKeepsPlan(cfg, states, ops, k);
    ExecutionKeeps(cfg, states[0], states[k], e);
  }

  lemma {:induction false} ExecutionKeeps(cfg: Config, a: Session, s: Session, e: nat)
    requires Inv(cfg, s) && KeepsPlan(a, s) && e < |s.executions|
    ensures var x := s.executions[e];
      x.step < |a.steps| && x.tool == a.steps[x.step].tool && x.input == a.steps[x.step].input &&
      (a.steps[x.step].requiresApproval || x.tool in cfg.approvalTools ==> x.approved)
  {
    hide Prefix, Checkpointed, ReplaysExact, OneRequestPerStep;
    var x := s.executions[e];
    assert SameCall(a.steps[x.step], s.steps[x.step]);
  }

  /** From where each status can be entered. */
  lemma {:induction false} EnteredFrom(from: Status, to: Status)
    ensures ValidTransition(from, to) <==>
      match to
      case CREATED => false
      case PLANNING => from == CREATED
      case PLANNED => from == PLANNING
      case AWAITING_APPROVAL => from == PLANNED || from == EXECUTING
      case EXECUTING => from == PLANNED || from == AWAITING_APPROVAL || from == PAUSED
      case PAUSED => from == AWAITING_APPROVAL || from == EXECUTING
      case COMPLETED => from == EXECUTING
      case BUDGET_EXCEEDED => from == EXECUTING
      case FAILED => from !in {COMPLETED, FAILED, CANCELLED, BUDGET_EXCEEDED}
      case CANCELLED => from !in {COMPLETED, FAILED, CANCELLED, BUDGET_EXCEEDED}
  {
  }
}
