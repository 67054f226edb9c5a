/**
 The handlers of the Run actor.  Each one takes its decisions on the state in
 memory and ends in at most one store transaction; `ok` says whether the store
 accepts that transaction.
 */
module RunActors {
  import opened Options
  import opened CandidateChain
  import opened RunMachine
  import RunEffects
  import RunSafety

  /** What the segment handler computes, whichever way it decides, is the change of the machine. */
  lemma SegmentDecided(
    s: RunState, g: int, progress: bool, slice: string, eligible: bool, counts: map<int, nat>, failed: seq<string>,
    event: Event)
    requires !Terminal(s.status) && 0 <= g < 3
    requires eligible == (s.callsEnabled && progress && CountOf(s.continuations, g) < MAX_CONTINUATIONS)
    requires counts == s.continuations[g := CountOf(s.continuations, g) + if eligible then 1 else 0]
    requires failed == if !eligible && slice !in s.failedSlices then s.failedSlices + [slice] else s.failedSlices
    requires event == if eligible then ContinuationScheduled(g, CountOf(s.continuations, g) + 1)
                      else SliceFailed("INDEPENDENT_SLICE_TERMINAL_FAILURE")
    ensures RunMachine.Commit(Bump(s).(continuations := counts, failedSlices := failed), [event], [])
            == SegmentChange(s, Some(g), progress, slice)
  {
  }

  /** A segment that stops is continued and counted, or its slice fails. */
  lemma SegmentMeans(s: RunState, g: int, progress: bool, slice: string)
    requires !Terminal(s.status) && 0 <= g < 3
    ensures var c := SegmentChange(s, Some(g), progress, slice);
            && c.Commit?
            && (slice in c.next.failedSlices || CountOf(c.next.continuations, g) == CountOf(s.continuations, g) + 1)
            && CountOf(c.next.continuations, g) <= CountOf(s.continuations, g) + 1
  {
    if slice !in s.failedSlices {
      var failed := s.failedSlices + [slice];
      assert failed[|failed| - 1] == slice;
    }
  }

  /** What is spent is added up, and exhaustion, nothing else, fails the Run. */
  lemma SpendMeans(r: Run, input: int, output: int, cost: int, checkpointFails: bool, archiveFails: bool, ok: bool)
    requires Inv(r)
    ensures var after := Step(r, Spend(input, output, cost, checkpointFails, archiveFails), ok);
            after.memory != r.memory ==>
              && after.memory.Some? && r.memory.Some? && input >= 0 && output >= 0 && cost >= 0
              && after.memory.value.usage == Usage(r.memory.value.usage.input + input,
                                                   r.memory.value.usage.output + output,
                                                   r.memory.value.usage.cost + cost)
              && (after.memory.value.status == Failed <==> Exhausts(after.memory.value.usage, r.limits))
  {
    hide Inv;
  }

  lemma RecoverMeans(
    r: Run, known: bool, interrupted: seq<string>, missing: seq<string>, corrupt: bool, drift: bool, ok: bool)
    requires Inv(r)
    ensures var after := Step(r, Recover(known, interrupted, missing, corrupt, drift), ok);
            after.memory != r.memory ==>
              && after.memory.Some? && r.memory.Some? && after.memory.value.dispatches == []
              && after.memory.value.status == r.memory.value.status
  {
    hide Inv;
  }

  class RunActor {
    const id: string
    const limits: Limits
    var memory: Option<RunState>
    var disk: Option<RunState>
    var ledger: seq<Event>
    var receipts: map<string, Category>
    ghost var history: seq<Fact>

    ghost function Now(): Run
      reads this
    {
      Run(id, limits, memory, disk, ledger, receipts, history)
    }

    ghost predicate Valid()
      reads this
    {
      Inv(Now())
    }

    constructor (id: string, limits: Limits)
      ensures this.id == id && this.limits == limits
      ensures Valid() && Now() == Empty(id, limits)
    {
      this.id, this.limits := id, limits;
      memory, disk, ledger, receipts, history := None, None, [], map[], [];
    }

    /** The actor's own commit: state and events in one transaction, with the status note when the status changes. */
    method Commit(next: RunState, events: seq<Event>, ghost accepted: seq<Fact>, ok: bool) returns (committed: bool)
      modifies this
      ensures Now() == Apply(old(Now()), RunMachine.Commit(next, events, accepted), ok)
      ensures committed <==> ok && old(disk).Some?
      ensures !committed ==> Now() == old(Now())
      ensures committed ==>
                && memory == disk == Some(next) && receipts == old(receipts) && history == old(history) + accepted
                && ledger == old(ledger) + events
                   + if old(memory).None? || old(memory).value.status == next.status then []
                     else [StatusChanged(next.status, next.budgetFailed)]
    {
      var written := events;
      if memory.Some? && memory.value.status != next.status {
        written := events + [StatusChanged(next.status, next.budgetFailed)];
      } else {
        assert events + [] == events;
      }
      if !ok || disk.None? {
        return false;
      }
      disk, ledger, history := Some(next), ledger + written, history + accepted;
      memory := disk;
      return true;
    }

    method HandleCreate(run: string, request: string, ok: bool)
      requires Valid()
      modifies this
      ensures Valid() && Now() == Step(old(Now()), Create(run, request), ok)
      ensures RunEffects.Reaction(old(Now()), Create(run, request), ok, Now())
      ensures memory != old(memory) ==>
                && old(memory).None? && run == id && memory == Some(InitialState(request))
                && ledger[|ledger| - 1].StatusChanged?
    {
      hide Inv, RunEffects.Reaction;
      RunSafety.StepKeeps(Now(), Create(run, request), ok);
      RunEffects.ReactionExact(Now(), Create(run, request), ok);
      if run != id || memory.Some? || disk.Some? || !ok {
        return;
      }
      disk := Some(InitialState(request));
      ledger := [RunCreated(CreatedKey(id)), StatusChanged(Planning, false)];
      memory := disk;
    }

    /** Cancellation answers its caller: the state it committed, or why it did not. */
    method HandleCancel(expected: int, ok: bool) returns (cancelled: bool)
      requires Valid()
      modifies this
      ensures Valid() && Now() == Step(old(Now()), Cancel(expected), ok)
      ensures RunEffects.Reaction(old(Now()), Cancel(expected), ok, Now())
      ensures cancelled ==> memory.Some? && memory.value.status == Cancelled && memory.value.dispatches == []
      ensures !cancelled ==> Now() == old(Now())
    {
      hide Inv, RunEffects.Reaction;
      RunSafety.StepKeeps(Now(), Cancel(expected), ok);
      RunEffects.ReactionExact(Now(), Cancel(expected), ok);
      if memory.None? {
        return false;
      }
      var state := memory.value;
      if expected != state.version || Terminal(state.status) {
        return false;
      }
      cancelled := Commit(
        Bump(state).(status := Cancelled, cancelRequested := true, callsEnabled := false, dispatches := []),
        [RunCancelled], [], ok);
    }

    method HandleSessionInput(m: Message, ok: bool)
      requires Valid()
      requires m.Input? || m.ConfirmAdvice? || m.SegmentStopped?
      modifies this
      ensures Valid() && Now() == Step(old(Now()), m, ok)
      ensures RunEffects.Reaction(old(Now()), m, ok, Now())
    {
      hide Inv, RunEffects.Reaction;
      RunSafety.StepKeeps(Now(), m, ok);
      RunEffects.ReactionExact(Now(), m, ok);
      if memory.None? || Terminal(memory.value.status) {
        return;
      }
      match m
      case ConfirmAdvice(advice) => ConfirmAdviceInput(advice, ok);
      case SegmentStopped(segment, progress, slice) => SegmentStoppedInput(segment, progress, slice, ok);
      case Input(kind) =>
        var committed := Commit(Bump(memory.value), [InputAccepted(kind)], [], ok);
    }

    method ConfirmAdviceInput(advice: string, ok: bool)
      requires Valid() && memory.Some? && !Terminal(memory.value.status)
      modifies this
      ensures Valid() && Now() == Step(old(Now()), ConfirmAdvice(advice), ok)
      ensures RunEffects.Reaction(old(Now()), ConfirmAdvice(advice), ok, Now())
      ensures memory.Some? && (memory != old(memory) <==> ok && advice in old(memory).value.pending)
      ensures memory != old(memory) ==> advice in memory.value.adopted && advice !in memory.value.pending
    {
      hide Inv, RunEffects.Reaction;
      RunSafety.StepKeeps(Now(), ConfirmAdvice(advice), ok);
      RunEffects.ReactionExact(Now(), ConfirmAdvice(advice), ok);
      var state := memory.value;
      if advice !in state.pending {
        var rejected := Commit(state, [ConfirmationRejected(advice)], [], ok);
        return;
      }
      var committed := Commit(
        Bump(state).(pending := Without(state.pending, advice), adopted := state.adopted + [advice]),
        [AdviceConfirmed(advice)], [], ok);
    }

    method SegmentStoppedInput(segment: Option<int>, progress: bool, slice: string, ok: bool)
      requires memory.Some? && !Terminal(memory.value.status)
      modifies this
      ensures Now() == Step(old(Now()), SegmentStopped(segment, progress, slice), ok)
    {
      var state := memory.value;
      if segment.None? || !(0 <= segment.value < 3) {
        var rejected := Commit(Bump(state), [SliceFailed("INVALID_GENERATION")], [], ok);
        return;
      }
      var g := segment.value;
      var counts := state.continuations;
      var current := if g in counts then counts[g] else 0;
      var eligible := state.callsEnabled && progress && current < MAX_CONTINUATIONS;
      counts := counts[g := if eligible then current + 1 else current];
      var failed := state.failedSlices;
      if !eligible && slice !in failed {
        failed := failed + [slice];
      }
      var event :=
        if eligible then ContinuationScheduled(g, current + 1)
        else SliceFailed("INDEPENDENT_SLICE_TERMINAL_FAILURE");
      SegmentDecided(state, g, progress, slice, eligible, counts, failed, event);
      hide SegmentChange, Bump, CountOf, ContinuationsBounded, Inv;
      var committed := Commit(Bump(state).(continuations := counts, failedSlices := failed), [event], [], ok);
    }

    /** Starting a dispatch; the answer is whether it was recorded. */
    method StartDispatch(run: string, dispatch: Dispatch, ok: bool) returns (accepted: bool)
      requires Valid()
      modifies this
      ensures Valid() && Now() == Step(old(Now()), DispatchStart(run, dispatch), ok)
      ensures RunEffects.Reaction(old(Now()), DispatchStart(run, dispatch), ok, Now())
      ensures accepted ==> memory.Some? && dispatch in memory.value.dispatches
      ensures !accepted ==> Now() == old(Now())
    {
      hide Inv, RunEffects.Reaction;
      RunSafety.StepKeeps(Now(), DispatchStart(run, dispatch), ok);
      RunEffects.ReactionExact(Now(), DispatchStart(run, dispatch), ok);
      if memory.None? || run != id {
        return false;
      }
      var state := memory.value;
      if Terminal(state.status) || !state.callsEnabled || state.cancelRequested {
        return false;
      }
      if DispatchOf(state.dispatches, dispatch).Some? {
        return false;
      }
      accepted := Commit(
        Bump(state).(status := Executing, dispatches := state.dispatches + [dispatch]),
        [DispatchStarted(dispatch.attempt, dispatch.check)], [], ok);
    }

    /** Finishing one; the answer is whether the receipt matched an active dispatch, even when the store then failed. */
    method FinishDispatch(run: string, dispatch: Dispatch, result: string, ok: bool) returns (accepted: bool)
      requires Valid()
      modifies this
      ensures Valid() && Now() == Step(old(Now()), DispatchFinish(run, dispatch, result), ok)
      ensures RunEffects.Reaction(old(Now()), DispatchFinish(run, dispatch, result), ok, Now())
      ensures accepted <==>
          old(memory).Some? && run == id && DispatchOf(old(memory).value.dispatches, dispatch) == Some(dispatch)
      ensures ok && accepted ==> memory.Some? && dispatch !in memory.value.dispatches
    {
      hide Inv, RunEffects.Reaction;
      RunSafety.StepKeeps(Now(), DispatchFinish(run, dispatch, result), ok);
      RunEffects.ReactionExact(Now(), DispatchFinish(run, dispatch, result), ok);
      if memory.None? {
        return false;
      }
      var state := memory.value;
      if run != id || DispatchOf(state.dispatches, dispatch) != Some(dispatch) {
        var noted := Commit(state, [LateDispatchResult], [], ok);
        return false;
      }
      var committed := Commit(
        Bump(state).(dispatches := WithoutDispatch(state.dispatches, dispatch)), [DispatchCompleted(result)], [], ok);
      return true;
    }

    /** Checkpoint, archive, fail: a checkpoint or archive that fails is noted and does not stop the rest. */
    method FailRun(checkpointFails: bool, archiveFails: bool) returns (events: seq<Event>)
      ensures events == FailureSteps(checkpointFails, archiveFails)
    {
      events := [BudgetStep("checkpoint.pre")];
      if checkpointFails {
        events := events + [BudgetStep("checkpoint.write_failed")];
      }
      if archiveFails {
        events := events + [BudgetStep("archive.failed")];
      }
      events := events + [BudgetStep("run.archived"), BudgetStep("run.failed"), BudgetStep("budget.exhausted")];
    }

    method HandleBudget(input: int, output: int, cost: int, checkpointFails: bool, archiveFails: bool, ok: bool)
      requires Valid()
      modifies this
      ensures Valid() && Now() == Step(old(Now()), Spend(input, output, cost, checkpointFails, archiveFails), ok)
      ensures RunEffects.Reaction(old(Now()), Spend(input, output, cost, checkpointFails, archiveFails), ok, Now())
    {
      hide Inv, RunEffects.Reaction, Warns, Exhausts, FailureSteps;
      RunSafety.StepKeeps(Now(), Spend(input, output, cost, checkpointFails, archiveFails), ok);
      RunEffects.ReactionExact(Now(), Spend(input, output, cost, checkpointFails, archiveFails), ok);
      if memory.None? || Terminal(memory.value.status) || input < 0 || output < 0 || cost < 0 {
        return;
      }
      var state := memory.value;
      var evaluation := EvaluateBudget(state.usage, limits, input, output, cost, state.warned);
      var events: seq<Event> := [];
      var warned := state.warned;
      if evaluation.warning {
        warned := true;
        events := [BudgetWarning];
      }
      var next := Bump(state).(usage := evaluation.usage, warned := warned);
      if evaluation.exhausted {
        var steps := FailRun(checkpointFails, archiveFails);
        events := events + steps;
        next := next.(status := Failed, budgetFailed := true, callsEnabled := false, dispatches := []);
      }
      assert RunMachine.Commit(next, events, [])
             == SpendChange(limits, state, input, output, cost, checkpointFails, archiveFails);
      var committed := Commit(next, events, [], ok);
    }

    method RecoveryEvents(names: seq<string>) returns (events: seq<Event>)
      ensures events == RecoverySteps(names)
    {
      events := [];
      for i := 0 to |names|
        invariant |events| == i && forall j :: 0 <= j < i ==> events[j] == RecoveryStep(names[j])
      {
        events := events + [RecoveryStep(names[i])];
      }
      assert events == RecoverySteps(names);
    }

    method HandleRecovery(
      known: bool, interrupted: seq<string>, missing: seq<string>, corrupt: bool, drift: bool, ok: bool)
      requires Valid()
      modifies this
      ensures Valid() && Now() == Step(old(Now()), Recover(known, interrupted, missing, corrupt, drift), ok)
      ensures RunEffects.Reaction(old(Now()), Recover(known, interrupted, missing, corrupt, drift), ok, Now())
    {
      hide Inv, RunEffects.Reaction;
      RunSafety.StepKeeps(Now(), Recover(known, interrupted, missing, corrupt, drift), ok);
      RunEffects.ReactionExact(Now(), Recover(known, interrupted, missing, corrupt, drift), ok);
      if memory.None? || !known {
        return;
      }
      var names := ["recovery.actor_rebuilt"] + interrupted + ["git.refs.reconciled", "receipts.repaired"] + missing;
      names := names + (if corrupt then ["checkpoint.discarded"] else []);
      names := names + (if drift then ["recovery.ref_drift"] else []);
      names := names + ["recovery.completed"];
      var events := RecoveryEvents(names);
      var committed := Commit(Bump(memory.value).(dispatches := [], reportingHalted := drift), events, [], ok);
    }

    method HandleAdvice(run: string, advice: string, disposition: Disposition, ok: bool)
      requires Valid()
      modifies this
      ensures Valid() && Now() == Step(old(Now()), Advise(run, advice, disposition), ok)
      ensures RunEffects.Reaction(old(Now()), Advise(run, advice, disposition), ok, Now())
      ensures memory != old(memory) ==>
                memory.Some? && run == id && (advice in memory.value.adopted || advice in memory.value.pending)
    {
      hide Inv, RunEffects.Reaction;
      RunSafety.StepKeeps(Now(), Advise(run, advice, disposition), ok);
      RunEffects.ReactionExact(Now(), Advise(run, advice, disposition), ok);
      if memory.None? {
        return;
      }
      var state := memory.value;
      var next, kind := state, "advice.discarded";
      if run == id && disposition == AutoAdopted {
        if advice in state.adopted {
          kind := "advice.duplicate";
        } else {
          kind := "advice.adopted";
          next := Bump(state).(adopted := state.adopted + [advice]);
        }
      } else if run == id && disposition == ConfirmationRequired {
        if advice in state.pending {
          kind := "advice.duplicate";
        } else {
          kind := "advice.confirmation_required";
          next := Bump(state).(pending := state.pending + [advice]);
        }
      }
      var committed := Commit(next, [AdviceNoted(kind)], [], ok);
    }

    /** The store's receipt transaction: a known receipt is answered, a stale version refused. */
    method CommitReceipt(next: RunState, events: seq<Event>, agent: string, category: Category, ok: bool)
      modifies this
      ensures Now() == Apply(old(Now()), CommitAgentReceipt(next, events, agent, category), ok)
      ensures agent in receipts <==>
                agent in old(receipts) || (ok && old(disk).Some? && next.version == old(disk).value.version + 1)
      ensures agent !in receipts ==> Now() == old(Now())
      ensures agent in old(receipts) && old(receipts)[agent] != category ==> Now() == old(Now())
      ensures agent in old(receipts) ==> Now() == old(Now()).(memory := memory)
      ensures agent in receipts && agent !in old(receipts) ==>
                && memory == disk == Some(next) && ledger == old(ledger) + events
                && receipts == old(receipts)[agent := category] && history == old(history)
    {
      if agent in receipts {
        if receipts[agent] == category {
          memory := Some(next);
        }
        return;
      }
      if !ok || disk.None? || next.version != disk.value.version + 1 {
        return;
      }
      disk, ledger, receipts := Some(next), ledger + events, receipts[agent := category];
      memory := Some(next);
    }

    method AcceptPlanCommand(run: string, agent: string, plan: string, sound: bool, ok: bool)
      requires Valid()
      modifies this
      ensures Valid() && Now() == Step(old(Now()), AcceptPlan(run, agent, plan, sound), ok)
      ensures RunEffects.Reaction(old(Now()), AcceptPlan(run, agent, plan, sound), ok, Now())
      ensures memory != old(memory) ==>
                && old(memory).Some? && old(memory).value.status == Planning && sound
                && memory.Some? && memory.value.status == Executing && memory.value.plan == Some(plan)
    {
      hide Inv, RunEffects.Reaction;
      RunSafety.StepKeeps(Now(), AcceptPlan(run, agent, plan, sound), ok);
      RunEffects.ReactionExact(Now(), AcceptPlan(run, agent, plan, sound), ok);
      if run != id || memory.None? || HasKey(ledger, PlanKey(id)) {
        return;
      }
      var state := memory.value;
      if state.status != Planning || !sound || !HasStarted(ledger, agent) {
        return;
      }
      CommitReceipt(
        Bump(state).(status := Executing, plan := Some(plan)),
        [AgentRunTerminal(TerminalKey(agent), agent), PlanAccepted(PlanKey(id), agent, plan),
         StatusChanged(Executing, state.budgetFailed)], agent, PlanReceipt, ok);
    }

    method RecordAgentRunStarted(run: string, agent: string, sound: bool, ok: bool)
      requires Valid()
      modifies this
      ensures Valid() && Now() == Step(old(Now()), AgentStarted(run, agent, sound), ok)
      ensures RunEffects.Reaction(old(Now()), AgentStarted(run, agent, sound), ok, Now())
      ensures memory != old(memory) ==> !HasKey(old(ledger), StartedKey(agent)) && HasStarted(ledger, agent)
    {
      hide Inv, RunEffects.Reaction;
      RunSafety.StepKeeps(Now(), AgentStarted(run, agent, sound), ok);
      RunEffects.ReactionExact(Now(), AgentStarted(run, agent, sound), ok);
      if run != id || memory.None? || HasKey(ledger, StartedKey(agent)) || !sound {
        return;
      }
      var state := memory.value;
      if state.status != Planning && state.status != Executing {
        return;
      }
      ghost var length := |ledger|;
      var committed := Commit(Bump(state), [AgentRunStarted(StartedKey(agent), agent)], [], ok);
      assert committed ==> ledger[length] == AgentRunStarted(StartedKey(agent), agent);
    }

    method RecordAgentRunTerminal(run: string, agent: string, sound: bool, same: bool, ok: bool)
      requires Valid()
      modifies this
      ensures Valid() && Now() == Step(old(Now()), AgentEnded(run, agent, sound, same), ok)
      ensures RunEffects.Reaction(old(Now()), AgentEnded(run, agent, sound, same), ok, Now())
      ensures memory != old(memory) ==>
                !HasKey(old(ledger), TerminalKey(agent)) && HasStarted(old(ledger), agent) && HasEnded(ledger, agent)
    {
      hide Inv, RunEffects.Reaction;
      RunSafety.StepKeeps(Now(), AgentEnded(run, agent, sound, same), ok);
      RunEffects.ReactionExact(Now(), AgentEnded(run, agent, sound, same), ok);
      if run != id || memory.None? || HasKey(ledger, TerminalKey(agent)) || !sound {
        return;
      }
      if memory.value.status != Executing || !HasStarted(ledger, agent) || (agent in receipts && !same) {
        return;
      }
      RunSafety.NoKnownReceipt(Now(), memory.value, AgentEnded(run, agent, sound, same));
      ghost var length := |ledger|;
      CommitReceipt(
        Bump(memory.value), [AgentRunTerminal(TerminalKey(agent), agent)], agent, SessionReceipt, ok);
      assert |ledger| > length ==> ledger[length] == AgentRunTerminal(TerminalKey(agent), agent);
    }

    method RecordIntegrationCompleted(
      run: string, intent: string, slice: string, generation: nat, oid: Oid, durable: bool, ok: bool)
      requires Valid()
      modifies this
      ensures Valid() && Now() == Step(old(Now()), Integrated(run, intent, slice, generation, oid, durable), ok)
      ensures RunEffects.Reaction(old(Now()), Integrated(run, intent, slice, generation, oid, durable), ok, Now())
      ensures memory != old(memory) ==>
                && !HasKey(old(ledger), IntegratedKey(intent))
                && memory.Some? && Current(memory.value.candidates, slice, generation).Some?
                && ledger[|ledger| - 1] == VerifiedAdvanced(slice, generation, oid)
    {
      hide Inv, RunEffects.Reaction;
      RunSafety.StepKeeps(Now(), Integrated(run, intent, slice, generation, oid, durable), ok);
      RunEffects.ReactionExact(Now(), Integrated(run, intent, slice, generation, oid, durable), ok);
      if run != id || memory.None? || HasKey(ledger, IntegratedKey(intent)) || !durable {
        return;
      }
      var state := memory.value;
      if state.status != Executing || state.plan.None? || Current(state.candidates, slice, generation).None? {
        return;
      }
      var next := Bump(state);
      if !ok || disk.None? || next.version != disk.value.version + 1 {
        return;
      }
      ledger := ledger + [IntegrationReceipted(IntegratedKey(intent), slice, generation, oid),
                          VerifiedAdvanced(slice, generation, oid)];
      disk := Some(next);
      memory := disk;
    }

    method CommitVerification(run: string, key: string, passed: bool, ok: bool)
      requires Valid()
      modifies this
      ensures Valid() && Now() == Step(old(Now()), Verified(run, key, passed), ok)
      ensures RunEffects.Reaction(old(Now()), Verified(run, key, passed), ok, Now())
      ensures memory != old(memory) ==>
                && old(memory).Some? && old(memory).value.status == Verifying && !HasKey(old(ledger), key)
                && memory.Some? && memory.value.status == Reporting
    {
      hide Inv, RunEffects.Reaction;
      RunSafety.StepKeeps(Now(), Verified(run, key, passed), ok);
      RunEffects.ReactionExact(Now(), Verified(run, key, passed), ok);
      if run != id || memory.None? || HasKey(ledger, key) || memory.value.status != Verifying {
        return;
      }
      var committed := Commit(Bump(memory.value).(status := Reporting), [VerifyCompleted(key, passed)], [], ok);
    }

    method CommitReport(run: string, key: string, partial: bool, ok: bool)
      requires Valid()
      modifies this
      ensures Valid() && Now() == Step(old(Now()), Reported(run, key, partial), ok)
      ensures RunEffects.Reaction(old(Now()), Reported(run, key, partial), ok, Now())
      ensures memory != old(memory) ==>
                && old(memory).Some? && old(memory).value.status == Reporting && !HasKey(old(ledger), key)
                && memory.Some? && memory.value.status == (if partial then PartiallyCompleted else Completed)
                && ReportCompleted(key, memory.value.status) in ledger
    {
      hide Inv, RunEffects.Reaction;
      RunSafety.StepKeeps(Now(), Reported(run, key, partial), ok);
      RunEffects.ReactionExact(Now(), Reported(run, key, partial), ok);
      if run != id || memory.None? || HasKey(ledger, key) || memory.value.status != Reporting {
        return;
      }
      var status := if partial then PartiallyCompleted else Completed;
      ghost var length := |ledger|;
      var committed := Commit(Bump(memory.value).(status := status), [ReportCompleted(key, status)], [], ok);
      assert committed ==> ledger[length] == ReportCompleted(key, status);
    }

    /** The terminal AgentRuns of a round must all check; those without an event get one. */
    method CheckTerminals(terminals: seq<string>, sound: set<string>) returns (checks: bool, events: seq<Event>)
      ensures checks <==> forall a :: a in terminals ==>
                            a in receipts && receipts[a] == SessionReceipt && a in sound && HasStarted(ledger, a)
      ensures checks ==> events == MissingEnds(ledger, terminals)
    {
      events := [];
      for i := 0 to |terminals|
        invariant forall a :: a in terminals[..i] ==>
                    a in receipts && receipts[a] == SessionReceipt && a in sound && HasStarted(ledger, a)
        invariant events == MissingEnds(ledger, terminals[..i])
      {
        var a := terminals[i];
        if a !in receipts || receipts[a] != SessionReceipt || a !in sound || !HasStarted(ledger, a) {
          return false, [];
        }
        assert terminals[..i + 1] == terminals[..i] + [a];
        RunEffects.MissingEndsAppend(ledger, terminals[..i], a);
        if !HasEnded(ledger, a) {
          events := events + [AgentRunTerminal(TerminalKey(a), a)];
        }
      }
      assert terminals[..|terminals|] == terminals;
      checks := true;
    }

    method HandleRoundFinished(key: string, decision: Option<Decision>, ok: bool)
      requires Valid()
      modifies this
      ensures Valid() && Now() == Step(old(Now()), RoundFinished(key, decision), ok)
      ensures RunEffects.Reaction(old(Now()), RoundFinished(key, decision), ok, Now())
      ensures memory != old(memory) ==>
                && old(memory).Some? && decision.Some? && memory.Some?
                && AdmitAll(old(memory).value.candidates, decision.value.claims).Some?
                && memory.value.candidates == AdmitAll(old(memory).value.candidates, decision.value.claims).value.facts
                && (memory.value.status == Verifying <==> decision.value.complete)
    {
      hide Inv, RunEffects.Reaction;
      RunSafety.StepKeeps(Now(), RoundFinished(key, decision), ok);
      RunEffects.ReactionExact(Now(), RoundFinished(key, decision), ok);
      if decision.None? || memory.None? {
        return;
      }
      var state, d := memory.value, decision.value;
      if state.status != Executing || state.plan.None? || !ClaimsComplete(d) {
        return;
      }
      var checks, ends := CheckTerminals(d.terminals, d.soundTerminals);
      assert checks == TerminalsSound(Now(), d);
      if !checks {
        return;
      }
      var admission := AcceptClaims(state.candidates, d.claims);
      if admission.None? {
        return;
      }
      var events := ends + AcceptanceNotes(admission.value.accepted)
          + [RoundCommitted(key, d.complete, d.dispatchCount)];
      var committed := Commit(
        Bump(state).(status := if d.complete then Verifying else Executing, candidates := admission.value.facts),
        events, admission.value.accepted, ok);
    }

    /** The commands of the workflow graph. */
    method HandleWorkflowCommand(m: Message, ok: bool)
      requires Valid()
      requires m.AcceptPlan? || m.AgentStarted? || m.AgentEnded? || m.Integrated? || m.Verified? || m.Reported?
      modifies this
      ensures Valid() && Now() == Step(old(Now()), m, ok)
      ensures RunEffects.Reaction(old(Now()), m, ok, Now())
    {
      hide Inv, RunEffects.Reaction;
      RunSafety.StepKeeps(Now(), m, ok);
      RunEffects.ReactionExact(Now(), m, ok);
      hide Step;
      match m
      case AcceptPlan(run, agent, plan, sound) => AcceptPlanCommand(run, agent, plan, sound, ok);
      case AgentStarted(run, agent, sound) => RecordAgentRunStarted(run, agent, sound, ok);
      case AgentEnded(run, agent, sound, same) => RecordAgentRunTerminal(run, agent, sound, same, ok);
      case Integrated(run, intent, slice, generation, oid, durable) =>
        RecordIntegrationCompleted(run, intent, slice, generation, oid, durable, ok);
      case Verified(run, key, passed) => CommitVerification(run, key, passed, ok);
      case Reported(run, key, partial) => CommitReport(run, key, partial, ok);
    }

    /** The commands of the API. */
    method HandleApi(m: Message, ok: bool)
      requires Valid()
      requires m.Create? || m.Cancel? || m.Input? || m.ConfirmAdvice? || m.SegmentStopped?
      modifies this
      ensures Valid() && Now() == Step(old(Now()), m, ok)
      ensures RunEffects.Reaction(old(Now()), m, ok, Now())
    {
      hide Inv, RunEffects.Reaction;
      RunSafety.StepKeeps(Now(), m, ok);
      RunEffects.ReactionExact(Now(), m, ok);
      hide Step;
      match m
      case Create(run, request) => HandleCreate(run, request, ok);
      case Cancel(expected) =>
        var cancelled := HandleCancel(expected, ok);
      case Input(_) => HandleSessionInput(m, ok);
      case ConfirmAdvice(_) => HandleSessionInput(m, ok);
      case SegmentStopped(_, _, _) => HandleSessionInput(m, ok);
    }

    /** What dispatches, the provider, recovery, advice and finished rounds report. */
    method HandleNotice(m: Message, ok: bool)
      requires Valid()
      requires m.DispatchStart? || m.DispatchFinish? || m.Spend? || m.Recover? || m.Advise? || m.RoundFinished?
      modifies this
      ensures Valid() && Now() == Step(old(Now()), m, ok)
      ensures RunEffects.Reaction(old(Now()), m, ok, Now())
    {
      hide Inv, RunEffects.Reaction;
      RunSafety.StepKeeps(Now(), m, ok);
      RunEffects.ReactionExact(Now(), m, ok);
      hide Step;
      match m
      case DispatchStart(run, dispatch) =>
        var accepted := StartDispatch(run, dispatch, ok);
      case DispatchFinish(run, dispatch, result) =>
        var matched := FinishDispatch(run, dispatch, result, ok);
      case Spend(input, output, cost, a, b) => HandleBudget(input, output, cost, a, b, ok);
      case Recover(known, interrupted, missing, corrupt, drift) =>
        HandleRecovery(known, interrupted, missing, corrupt, drift, ok);
      case Advise(run, advice, disposition) => HandleAdvice(run, advice, disposition, ok);
      case RoundFinished(key, decision) => HandleRoundFinished(key, decision, ok);
    }

    /** The mailbox: one message, one step of the machine, and the invariant afterwards. */
    method Handle(m: Message, ok: bool)
      requires Valid()
      modifies this
      ensures Valid() && Now() == Step(old(Now()), m, ok)
      ensures RunEffects.Reaction(old(Now()), m, ok, Now())
      ensures RunSafety.Later(old(Now()), Now(), 1)
    {
      RunSafety.StepKeeps(Now(), m, ok);
      RunEffects.ReactionExact(Now(), m, ok);
      RunSafety.StepEvolves(Now(), m, ok);
      hide Inv, Step, RunEffects.Reaction;
      if m.Create? || m.Cancel? || m.Input? || m.ConfirmAdvice? || m.SegmentStopped? {
        HandleApi(m, ok);
      } else if m.DispatchStart? || m.DispatchFinish? || m.Spend? || m.Recover? || m.Advise? || m.RoundFinished? {
        HandleNotice(m, ok);
      } else {
        HandleWorkflowCommand(m, ok);
      }
    }
  }
}
