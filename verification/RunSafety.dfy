/** What every message keeps, and what holds over every run of the actor. */
module RunSafety {
  import opened Counting
  import opened Options
  import opened CandidateChain
  import opened RunMachine

  // ----- the ledger grows -----

  lemma KeysStay(ledger: seq<Event>, events: seq<Event>, receipts: map<string, Category>, plan: Option<string>)
    requires ReceiptsOk(receipts, ledger, plan)
    ensures ReceiptsOk(receipts, ledger + events, plan)
  {
    var after := ledger + events;
    forall a | a in receipts
      ensures HasKey(after, TerminalKey(a)) && HasEnded(after, a)
    {
      var i :| 0 <= i < |ledger| && KeyOf(ledger[i]) == Some(TerminalKey(a));
      assert after[i] == ledger[i];
      var j :| 0 <= j < |ledger| && ledger[j].AgentRunTerminal? && ledger[j].agent == a;
      assert after[j] == ledger[j];
    }
  }

  lemma QuietAdvances(ledger: seq<Event>, events: seq<Event>, candidates: seq<Fact>)
    requires AdvancesBacked(ledger, candidates)
    requires forall i :: 0 <= i < |events| ==> !events[i].VerifiedAdvanced?
    ensures AdvancesBacked(ledger + events, candidates)
  {
    var after := ledger + events;
    forall i | |ledger| <= i < |after|
      ensures !after[i].VerifiedAdvanced?
    {
      assert after[i] == events[i - |ledger|];
    }
    assert forall i :: 0 <= i < |ledger| ==> after[i] == ledger[i];
  }

  /** The ledger after a plain commit reports the new status. */
  lemma NoteSettles(ledger: seq<Event>, s: RunState, next: RunState, events: seq<Event>)
    requires SummaryOk(next, Summarize(ledger + events)) && Summarize(ledger + events).status == Some(s.status)
    ensures LedgerOk(next, ledger + (events + StatusNote(Some(s), next)))
  {
    hide Summarize, CountOf;
    if s.status == next.status {
      assert events + [] == events;
    } else {
      SummarizeOne(ledger + events, StatusChanged(next.status, next.budgetFailed));
      assert (ledger + events) + [StatusChanged(next.status, next.budgetFailed)]
             == ledger + (events + StatusNote(Some(s), next));
    }
  }

  lemma CommitIsOk(
    l: Limits, s: RunState, ledger: seq<Event>, receipts: map<string, Category>, history: seq<Fact>,
    next: RunState, events: seq<Event>, accepted: seq<Fact>)
    requires StateOk(l, s, ledger, receipts, history)
    requires StatusOk(l, next) && ListsOk(next) && (s.plan.Some? ==> next.plan.Some?)
    requires SummaryOk(next, Summarize(ledger + events)) && Summarize(ledger + events).status == Some(s.status)
    requires ChainInv(next.candidates, history + accepted) && AdvancesBacked(ledger, next.candidates)
    requires forall i :: 0 <= i < |events| ==> !events[i].VerifiedAdvanced?
    ensures StateOk(l, next, ledger + (events + StatusNote(Some(s), next)), receipts, history + accepted)
  {
    var added := events + StatusNote(Some(s), next);
    NoteSettles(ledger, s, next, events);
    KeysStay(ledger, added, receipts, s.plan);
    QuietAdvances(ledger, added, next.candidates);
  }

  lemma CommitKeeps(r: Run, next: RunState, events: seq<Event>, accepted: seq<Fact>, ok: bool)
    requires Inv(r) && r.memory.Some? && (r.memory.value.plan.Some? ==> next.plan.Some?)
    requires StatusOk(r.limits, next) && ListsOk(next)
    requires SummaryOk(next, Summarize(r.ledger + events))
    requires Summarize(r.ledger + events).status == Some(r.memory.value.status)
    requires ChainInv(next.candidates, r.history + accepted)
    requires AdvancesBacked(r.ledger, next.candidates)
    requires forall i :: 0 <= i < |events| ==> !events[i].VerifiedAdvanced?
    ensures Inv(Apply(r, Commit(next, events, accepted), ok))
  {
    if ok {
      CommitIsOk(r.limits, r.memory.value, r.ledger, r.receipts, r.history, next, events, accepted);
      CommittedIsOk(r, next, events, accepted);
    }
  }

  lemma CommittedIsOk(r: Run, next: RunState, events: seq<Event>, accepted: seq<Fact>)
    requires r.memory.Some? && r.memory == r.disk
    requires StateOk(
               r.limits, next, r.ledger + (events + StatusNote(r.memory, next)), r.receipts, r.history + accepted)
    ensures Inv(Apply(r, Commit(next, events, accepted), true))
  {
    var after := Apply(r, Commit(next, events, accepted), true);
    assert after.limits == r.limits && after.memory == Some(next) && after.receipts == r.receipts;
    assert after.ledger == r.ledger + (events + StatusNote(r.memory, next));
    assert after.history == r.history + accepted;
  }

  /** A commit that touches neither plan, warning, continuations nor candidates and reports none of them. */
  lemma PlainCommitKeeps(r: Run, next: RunState, events: seq<Event>, ok: bool)
    requires Inv(r) && r.memory.Some?
    requires StatusOk(r.limits, next) && ListsOk(next) && AllQuiet(events)
    requires var s := r.memory.value;
             && next.plan == s.plan && next.warned == s.warned && next.candidates == s.candidates
             && forall g :: CountOf(next.continuations, g) == CountOf(s.continuations, g)
    ensures Inv(Apply(r, Commit(next, events, []), ok))
  {
    SummarizeQuiet(r.ledger, events);
    assert r.history + [] == r.history;
    CommitKeeps(r, next, events, [], ok);
  }

  // ----- lists -----

  lemma {:induction false} WithoutNoRepeats(ids: seq<string>, id: string)
    requires Distinct(ids)
    ensures Distinct(Without(ids, id))
  {
    if ids != [] {
      WithoutNoRepeats(ids[1..], id);
      var rest := Without(ids[1..], id);
      if ids[0] == id {
        assert Without(ids, id) == rest;
      } else {
        assert Without(ids, id) == [ids[0]] + rest;
        assert ids[0] !in rest;
      }
    }
  }

  lemma {:induction false} WithoutDispatchDistinct(dispatches: seq<Dispatch>, d: Dispatch)
    requires DispatchesDistinct(dispatches)
    ensures DispatchesDistinct(WithoutDispatch(dispatches, d))
  {
    if dispatches != [] {
      WithoutDispatchDistinct(dispatches[1..], d);
      var rest := WithoutDispatch(dispatches[1..], d);
      if dispatches[0] == d {
        assert WithoutDispatch(dispatches, d) == rest;
      } else {
        assert WithoutDispatch(dispatches, d) == [dispatches[0]] + rest;
        forall x | x in rest
          ensures !SameKey(dispatches[0], x)
        {
          assert x in dispatches[1..];
        }
      }
    }
  }

  lemma {:induction false} OnlyDispatchGoes(dispatches: seq<Dispatch>, d: Dispatch)
    requires DispatchesDistinct(dispatches) && d in dispatches
    ensures DispatchOf(dispatches, d) == Some(d)
    ensures |WithoutDispatch(dispatches, d)| == |dispatches| - 1
    ensures DispatchOf(WithoutDispatch(dispatches, d), d).None?
  {
    var k :| 0 <= k < |dispatches| && dispatches[k] == d;
    var found := DispatchOf(dispatches, d);
    if found.Some? {
      var j :| 0 <= j < |dispatches| && dispatches[j] == found.value;
    }
    var rest := WithoutDispatch(dispatches, d);
    forall x | x in rest
      ensures !SameKey(x, d)
    {
      var j :| 0 <= j < |dispatches| && dispatches[j] == x;
    }
    RemovedOnce(dispatches, d);
  }

  lemma {:induction false} RemovedOnce(dispatches: seq<Dispatch>, d: Dispatch)
    requires DispatchesDistinct(dispatches)
    ensures |WithoutDispatch(dispatches, d)| == |dispatches| - (if d in dispatches then 1 else 0)
  {
    if dispatches != [] {
      RemovedOnce(dispatches[1..], d);
      assert dispatches == [dispatches[0]] + dispatches[1..];
      if dispatches[0] == d {
        forall j | 1 <= j < |dispatches|
          ensures dispatches[j] != d
        {
          assert !SameKey(dispatches[0], dispatches[j]);
        }
      }
    }
  }

  // ----- one lemma per handler -----

  lemma CancelKeeps(r: Run, expected: int, ok: bool)
    requires Inv(r) && r.memory.Some?
    ensures Inv(Apply(r, CancelChange(r.memory.value, expected), ok))
  {
    var s := r.memory.value;
    if expected == s.version && !Terminal(s.status) {
      PlainCommitKeeps(
        r, Bump(s).(status := Cancelled, cancelRequested := true, callsEnabled := false, dispatches := []),
        [RunCancelled], ok);
    }
  }

  lemma ConfirmKeeps(r: Run, id: string, ok: bool)
    requires Inv(r) && r.memory.Some?
    ensures Inv(Apply(r, ConfirmChange(r.memory.value, id), ok))
  {
    var s := r.memory.value;
    if !Terminal(s.status) {
      if id !in s.pending {
        PlainCommitKeeps(r, s, [ConfirmationRejected(id)], ok);
      } else {
        WithoutNoRepeats(s.pending, id);
        PlainCommitKeeps(
          r, Bump(s).(pending := Without(s.pending, id), adopted := s.adopted + [id]), [AdviceConfirmed(id)], ok);
      }
    }
  }

  lemma ScheduleCounts(ledger: seq<Event>, s: RunState, next: RunState, g: int, n: nat)
    requires SummaryOk(s, Summarize(ledger))
    requires next.plan == s.plan && next.warned == s.warned
    requires next.continuations == s.continuations[g := CountOf(s.continuations, g) + 1]
    ensures SummaryOk(next, Summarize(ledger + [ContinuationScheduled(g, n)]))
    ensures Summarize(ledger + [ContinuationScheduled(g, n)]).status == Summarize(ledger).status
  {
    hide Summarize;
    var sum, after := Summarize(ledger), Summarize(ledger + [ContinuationScheduled(g, n)]);
    SummarizeOne(ledger, ContinuationScheduled(g, n));
    forall h
      ensures CountOf(after.continued, h) == CountOf(next.continuations, h)
    {
      assert CountOf(sum.continued, h) == CountOf(s.continuations, h);
      assert CountOf(sum.continued, g) == CountOf(s.continuations, g);
    }
  }

  lemma ScheduleIsOk(l: Limits, s: RunState, g: int)
    requires StatusOk(l, s) && ListsOk(s) && 0 <= g < 3 && CountOf(s.continuations, g) < MAX_CONTINUATIONS
    ensures StatusOk(l, Schedule(s, g).next) && ListsOk(Schedule(s, g).next)
  {
  }

  lemma ScheduleKeeps(r: Run, g: int, ok: bool)
    requires Inv(r) && r.memory.Some? && 0 <= g < 3
    requires !Terminal(r.memory.value.status) && CountOf(r.memory.value.continuations, g) < MAX_CONTINUATIONS
    ensures Inv(Apply(r, Schedule(r.memory.value, g), ok))
  {
    hide Summarize, SummaryOk, StatusOk, ListsOk, ChainInv, AdvancesBacked, ReceiptsOk, Apply;
    var s := r.memory.value;
    var n := CountOf(s.continuations, g) + 1;
    var next := Bump(s).(continuations := s.continuations[g := n]);
    ScheduleIsOk(r.limits, s, g);
    ScheduleCounts(r.ledger, s, next, g, n);
    assert r.history + [] == r.history;
    hide CountOf;
    CommitKeeps(r, next, [ContinuationScheduled(g, n)], [], ok);
  }

  lemma FailSliceKeeps(r: Run, g: int, slice: string, ok: bool)
    requires Inv(r) && r.memory.Some? && 0 <= g < 3
    ensures Inv(Apply(r, FailSlice(r.memory.value, g, slice), ok))
  {
    var change := FailSlice(r.memory.value, g, slice);
    PlainCommitKeeps(r, change.next, change.events, ok);
  }

  lemma BadSegmentKeeps(r: Run, ok: bool)
    requires Inv(r) && r.memory.Some?
    ensures Inv(Apply(r, Commit(Bump(r.memory.value), [SliceFailed("INVALID_GENERATION")], []), ok))
  {
    PlainCommitKeeps(r, Bump(r.memory.value), [SliceFailed("INVALID_GENERATION")], ok);
  }

  lemma SegmentKeeps(r: Run, segment: Option<int>, progress: bool, slice: string, ok: bool)
    requires Inv(r) && r.memory.Some?
    ensures Inv(Apply(r, SegmentChange(r.memory.value, segment, progress, slice), ok))
  {
    hide Inv;
    var s := r.memory.value;
    if Terminal(s.status) {
    } else if segment.None? || !(0 <= segment.value < 3) {
      BadSegmentKeeps(r, ok);
    } else {
      var g := segment.value;
      if s.callsEnabled && progress && CountOf(s.continuations, g) < MAX_CONTINUATIONS {
        ScheduleKeeps(r, g, ok);
      } else {
        FailSliceKeeps(r, g, slice, ok);
      }
    }
  }

  lemma StartKeeps(r: Run, same: bool, d: Dispatch, ok: bool)
    requires Inv(r) && r.memory.Some?
    ensures Inv(Apply(r, StartChange(r.memory.value, same, d), ok))
  {
    var s := r.memory.value;
    if StartChange(s, same, d).Commit? {
      PlainCommitKeeps(
        r, Bump(s).(status := Executing, dispatches := s.dispatches + [d]), [DispatchStarted(d.attempt, d.check)], ok);
    }
  }

  lemma FinishKeeps(r: Run, same: bool, d: Dispatch, result: string, ok: bool)
    requires Inv(r) && r.memory.Some?
    ensures Inv(Apply(r, FinishChange(r.memory.value, same, d, result), ok))
  {
    var s := r.memory.value;
    if !same || DispatchOf(s.dispatches, d) != Some(d) {
      PlainCommitKeeps(r, s, [LateDispatchResult], ok);
    } else {
      WithoutDispatchDistinct(s.dispatches, d);
      assert s.callsEnabled;
      PlainCommitKeeps(
        r, Bump(s).(dispatches := WithoutDispatch(s.dispatches, d)), [DispatchCompleted(result)], ok);
    }
  }

  lemma SpendCounts(ledger: seq<Event>, s: RunState, next: RunState, head: seq<Event>, steps: seq<Event>)
    requires SummaryOk(s, Summarize(ledger)) && AllQuiet(steps)
    requires next.plan == s.plan && next.continuations == s.continuations && (s.warned ==> next.warned)
    requires head == if next.warned && !s.warned then [BudgetWarning] else []
    ensures SummaryOk(next, Summarize(ledger + (head + steps)))
    ensures Summarize(ledger + (head + steps)).status == Summarize(ledger).status
  {
    hide Summarize;
    if head == [] {
      assert ledger + head == ledger;
    } else {
      SummarizeOne(ledger, BudgetWarning);
    }
    SummarizeQuiet(ledger + head, steps);
    assert (ledger + head) + steps == ledger + (head + steps);
  }

  lemma SpendShape(
    l: Limits, s: RunState, input: int, output: int, cost: int, a: bool, b: bool)
    returns (change: Change, head: seq<Event>, steps: seq<Event>)
    requires StatusOk(l, s) && ListsOk(s)
    ensures change == SpendChange(l, s, input, output, cost, a, b)
    ensures change == Nothing || change.Commit?
    ensures change.Commit? ==>
              && StatusOk(l, change.next) && ListsOk(change.next)
              && change.accepted == [] && change.events == head + steps && AllQuiet(steps)
              && head == (if change.next.warned && !s.warned then [BudgetWarning] else [])
              && change.next.plan == s.plan && change.next.continuations == s.continuations
              && change.next.candidates == s.candidates && (s.warned ==> change.next.warned)
  {
    change, head, steps := SpendChange(l, s, input, output, cost, a, b), [], [];
    if change.Commit? {
      head := if change.next.warned && !s.warned then [BudgetWarning] else [];
      steps := if Exhausts(change.next.usage, l) then FailureSteps(a, b) else [];
    }
  }

  lemma ShapedSpendKeeps(r: Run, change: Change, head: seq<Event>, steps: seq<Event>, ok: bool)
    requires Inv(r) && r.memory.Some? && change.Commit? && change.accepted == []
    requires var s := r.memory.value;
             && StatusOk(r.limits, change.next) && ListsOk(change.next)
             && change.events == head + steps && AllQuiet(steps)
             && head == (if change.next.warned && !s.warned then [BudgetWarning] else [])
             && change.next.plan == s.plan && change.next.continuations == s.continuations
             && change.next.candidates == s.candidates && (s.warned ==> change.next.warned)
    ensures Inv(Apply(r, change, ok))
  {
    SpendCounts(r.ledger, r.memory.value, change.next, head, steps);
    assert r.history + [] == r.history;
    CommitKeeps(r, change.next, change.events, [], ok);
  }

  lemma SpendKeeps(r: Run, input: int, output: int, cost: int, checkpointFails: bool, archiveFails: bool, ok: bool)
    requires Inv(r) && r.memory.Some?
    ensures Inv(Apply(r, SpendChange(r.limits, r.memory.value, input, output, cost, checkpointFails, archiveFails), ok))
  {
    var change, head, steps := SpendShape(r.limits, r.memory.value, input, output, cost, checkpointFails, archiveFails);
    if change.Commit? {
      ShapedSpendKeeps(r, change, head, steps, ok);
    }
  }

  lemma RecoverKeeps(
    r: Run, known: bool, interrupted: seq<string>, missing: seq<string>, corrupt: bool, drift: bool, ok: bool)
    requires Inv(r) && r.memory.Some?
    ensures Inv(Apply(r, RecoverChange(r.memory.value, known, interrupted, missing, corrupt, drift), ok))
  {
    var s := r.memory.value;
    var change := RecoverChange(s, known, interrupted, missing, corrupt, drift);
    if known {
      PlainCommitKeeps(r, change.next, change.events, ok);
    }
  }

  lemma AdviseKeeps(r: Run, same: bool, id: string, disposition: Disposition, ok: bool)
    requires Inv(r) && r.memory.Some?
    ensures Inv(Apply(r, AdviseChange(r.memory.value, same, id, disposition), ok))
  {
    hide Summarize, ChainInv, AdvancesBacked, ReceiptsOk, SummaryOk, Warns, Exhausts;
    var change := AdviseChange(r.memory.value, same, id, disposition);
    PlainCommitKeeps(r, change.next, change.events, ok);
  }

  lemma ReceiptRecorded(
    ledger: seq<Event>, events: seq<Event>, receipts: map<string, Category>, plan: Option<string>, agent: string,
    category: Category, after: Option<string>)
    requires ReceiptsOk(receipts, ledger, plan) && (plan.Some? || category == PlanReceipt ==> after.Some?)
    requires events != [] && events[0] == AgentRunTerminal(TerminalKey(agent), agent)
    ensures ReceiptsOk(receipts[agent := category], ledger + events, after)
  {
    KeysStay(ledger, events, receipts, plan);
    var all := ledger + events;
    assert all[|ledger|] == events[0];
    assert KeyOf(all[|ledger|]) == Some(TerminalKey(agent));
    assert all[|ledger|].AgentRunTerminal? && all[|ledger|].agent == agent;
  }

  /** A plan is accepted at most once, so its receipt is never already in the store. */
  lemma PlanKeeps(r: Run, agent: string, plan: string, sound: bool, ok: bool)
    requires Inv(r) && r.memory.Some?
    ensures Inv(Apply(r, PlanChange(r, r.memory.value, agent, plan, sound), ok))
  {
    var s := r.memory.value;
    var change := PlanChange(r, s, agent, plan, sound);
    if change.CommitAgentReceipt? && agent !in r.receipts && ok {
      var e := change.events;
      PlanSettles(r.ledger, s, change.next, e);
      ReceiptRecorded(r.ledger, e, r.receipts, s.plan, agent, PlanReceipt, change.next.plan);
      QuietAdvances(r.ledger, e, s.candidates);
    }
  }

  /** The ledger with the acceptance of a plan reports that plan and the new status. */
  lemma PlanSettles(ledger: seq<Event>, s: RunState, next: RunState, e: seq<Event>)
    requires SummaryOk(s, Summarize(ledger)) && s.plan.None? && next.plan.Some?
    requires next.warned == s.warned && next.continuations == s.continuations
    requires |e| == 3 && Quiet(e[0]) && e[1].PlanAccepted? && e[1].plan == next.plan.value
    requires e[2] == StatusChanged(next.status, next.budgetFailed)
    ensures LedgerOk(next, ledger + e)
  {
    hide Summarize;
    SummarizeOne(ledger, e[0]);
    SummarizeOne(ledger + [e[0]], e[1]);
    SummarizeOne(ledger + [e[0]] + [e[1]], e[2]);
    assert ledger + [e[0]] + [e[1]] + [e[2]] == ledger + e;
  }

  lemma AgentStartedKeeps(r: Run, agent: string, sound: bool, ok: bool)
    requires Inv(r) && r.memory.Some?
    ensures Inv(Apply(r, AgentStartedChange(r, r.memory.value, agent, sound), ok))
  {
    var s := r.memory.value;
    if AgentStartedChange(r, s, agent, sound).Commit? {
      PlainCommitKeeps(r, Bump(s), [AgentRunStarted(StartedKey(agent), agent)], ok);
    }
  }

  lemma AgentEndedKeeps(r: Run, agent: string, sound: bool, same: bool, ok: bool)
    requires Inv(r) && r.memory.Some?
    ensures Inv(Apply(r, AgentEndedChange(r, r.memory.value, agent, sound, same), ok))
  {
    var s := r.memory.value;
    var change := AgentEndedChange(r, s, agent, sound, same);
    if change.CommitAgentReceipt? {
      assert agent !in r.receipts;
      if ok {
        SummarizeOne(r.ledger, change.events[0]);
        ReceiptRecorded(r.ledger, change.events, r.receipts, s.plan, agent, SessionReceipt, s.plan);
        QuietAdvances(r.ledger, change.events, s.candidates);
      }
    }
  }

  lemma IntegratedKeeps(
    r: Run, intent: string, slice: string, generation: nat, oid: Oid, durable: bool, ok: bool)
    requires Inv(r) && r.memory.Some?
    ensures Inv(Apply(r, IntegratedChange(r, r.memory.value, intent, slice, generation, oid, durable), ok))
  {
    var s := r.memory.value;
    var change := IntegratedChange(r, s, intent, slice, generation, oid, durable);
    hide Summarize, ChainInv, Current, Warns, Exhausts, DispatchesDistinct, ContinuationsBounded;
    if change.CommitIntegration? && ok {
      var e := change.events;
      SummarizeOne(r.ledger, e[0]);
      SummarizeOne(r.ledger + [e[0]], e[1]);
      assert r.ledger + [e[0]] + [e[1]] == r.ledger + e;
      KeysStay(r.ledger, e, r.receipts, s.plan);
      var after := r.ledger + e;
      forall i | 0 <= i < |after| && after[i].VerifiedAdvanced?
        ensures Current(s.candidates, after[i].slice, after[i].generation).Some?
      {
        assert i < |r.ledger| ==> after[i] == r.ledger[i];
        assert i >= |r.ledger| ==> after[i] == e[i - |r.ledger|];
      }
    }
  }

  lemma PhaseKeeps(r: Run, key: string, flag: bool, ok: bool)
    requires Inv(r) && r.memory.Some?
    ensures Inv(Apply(r, VerifiedChange(r, r.memory.value, key, flag), ok))
    ensures Inv(Apply(r, ReportedChange(r, r.memory.value, key, flag), ok))
  {
    var s := r.memory.value;
    var verified, reported := VerifiedChange(r, s, key, flag), ReportedChange(r, s, key, flag);
    if verified.Commit? {
      PlainCommitKeeps(r, verified.next, verified.events, ok);
    }
    if reported.Commit? {
      PlainCommitKeeps(r, reported.next, reported.events, ok);
    }
  }

  lemma RoundKeeps(r: Run, key: string, d: Decision, ok: bool)
    requires Inv(r) && r.memory.Some?
    ensures Inv(Apply(r, RoundChange(r, r.memory.value, key, d), ok))
  {
    var s := r.memory.value;
    var change := RoundChange(r, s, key, d);
    if change.Commit? {
      var a := AdmitAll(s.candidates, d.claims).value;
      AdmitAllKeeps(s.candidates, r.history, d.claims);
      forall i | 0 <= i < |r.ledger| && r.ledger[i].VerifiedAdvanced?
        ensures Current(a.facts, r.ledger[i].slice, r.ledger[i].generation).Some?
      {
        AdmitAllKeepsPairs(s.candidates, d.claims, r.ledger[i].slice, r.ledger[i].generation);
      }
      RoundEventsQuiet(r.ledger, d, key, a.accepted);
      SummarizeQuiet(r.ledger, change.events);
      CommitKeeps(r, change.next, change.events, a.accepted, ok);
    }
  }

  lemma RoundEventsQuiet(ledger: seq<Event>, d: Decision, key: string, accepted: seq<Fact>)
    ensures AllQuiet(MissingEnds(ledger, d.terminals) + AcceptanceNotes(accepted)
                     + [RoundCommitted(key, d.complete, d.dispatchCount)])
  {
    var ends, notes := MissingEnds(ledger, d.terminals), AcceptanceNotes(accepted);
    var all := ends + notes + [RoundCommitted(key, d.complete, d.dispatchCount)];
    forall i | 0 <= i < |all|
      ensures Quiet(all[i])
    {
      if i < |ends| {
        assert all[i] in ends;
      } else if i < |ends| + |notes| {
        assert all[i] == notes[i - |ends|];
        assert all[i] in notes;
      }
    }
  }

  // ----- every message -----

  lemma StepKeeps(r: Run, m: Message, ok: bool)
    requires Inv(r)
    ensures Inv(Step(r, m, ok))
  {
    if r.memory.None? {
      if m.Create? && m.run == r.id && ok { CreationKeeps(r, m.request); }
    } else {
      DecisionKeeps(r, m, ok);
    }
  }

  lemma CreationKeeps(r: Run, request: string)
    requires Inv(r) && r.memory.None?
    ensures Inv(CreateRun(r, request, true))
  {
    var e, f := RunCreated(CreatedKey(r.id)), StatusChanged(Planning, false);
    SummarizeOne([], e);
    SummarizeOne([e], f);
    assert [] + [e] == [e] && [e] + [f] == [e, f];
    var s := InitialState(request);
    assert !Warns(s.usage, r.limits) && !Exhausts(s.usage, r.limits);
    assert LedgerOk(s, [e, f]);
    assert ChainInv([], []) by {
      forall slice, generation: nat
        ensures Current([], slice, generation) == Latest([], slice, generation)
      {
      }
    }
  }

  lemma DecisionKeeps(r: Run, m: Message, ok: bool)
    requires Inv(r) && r.memory.Some?
    ensures Inv(Apply(r, Decide(r, r.memory.value, m), ok))
  {
    if m.Create? {
    } else if m.Cancel? || m.Input? || m.ConfirmAdvice? || m.SegmentStopped? {
      CommandKeeps(r, m, ok);
    } else if m.DispatchStart? || m.DispatchFinish? || m.Spend? || m.Recover? || m.Advise? {
      NoticeKeeps(r, m, ok);
    } else if m.AcceptPlan? || m.AgentStarted? || m.AgentEnded? {
      AgentCommandKeeps(r, m, ok);
    } else {
      PhaseCommandKeeps(r, m, ok);
    }
  }

  lemma CommandKeeps(r: Run, m: Message, ok: bool)
    requires Inv(r) && r.memory.Some?
    requires m.Cancel? || m.Input? || m.ConfirmAdvice? || m.SegmentStopped?
    ensures Inv(Apply(r, Decide(r, r.memory.value, m), ok))
  {
    hide Inv;
    match m
    case Cancel(expected) => CancelKeeps(r, expected, ok);
    case Input(kind) => InputKeeps(r, kind, ok);
    case ConfirmAdvice(id) => ConfirmKeeps(r, id, ok);
    case SegmentStopped(segment, progress, slice) => SegmentKeeps(r, segment, progress, slice, ok);
  }

  lemma NoticeKeeps(r: Run, m: Message, ok: bool)
    requires Inv(r) && r.memory.Some?
    requires m.DispatchStart? || m.DispatchFinish? || m.Spend? || m.Recover? || m.Advise?
    ensures Inv(Apply(r, Decide(r, r.memory.value, m), ok))
  {
    hide Inv;
    match m
    case DispatchStart(run, d) => StartKeeps(r, run == r.id, d, ok);
    case DispatchFinish(run, d, result) => FinishKeeps(r, run == r.id, d, result, ok);
    case Spend(input, output, cost, a, b) => SpendKeeps(r, input, output, cost, a, b, ok);
    case Recover(known, interrupted, missing, corrupt, drift) =>
      RecoverKeeps(r, known, interrupted, missing, corrupt, drift, ok);
    case Advise(run, id, disposition) => AdviseKeeps(r, run == r.id, id, disposition, ok);
  }

  lemma AgentCommandKeeps(r: Run, m: Message, ok: bool)
    requires Inv(r) && r.memory.Some?
    requires m.AcceptPlan? || m.AgentStarted? || m.AgentEnded?
    ensures Inv(Apply(r, Decide(r, r.memory.value, m), ok))
  {
    hide Inv;
    match m
    case AcceptPlan(run, agent, plan, sound) => PlanKeeps(r, agent, plan, sound, ok);
    case AgentStarted(run, agent, sound) => AgentStartedKeeps(r, agent, sound, ok);
    case AgentEnded(run, agent, sound, same) => AgentEndedKeeps(r, agent, sound, same, ok);
  }

  lemma PhaseCommandKeeps(r: Run, m: Message, ok: bool)
    requires Inv(r) && r.memory.Some?
    requires m.Integrated? || m.Verified? || m.Reported? || m.RoundFinished?
    ensures Inv(Apply(r, Decide(r, r.memory.value, m), ok))
  {
    hide Inv;
    match m
    case Integrated(run, intent, slice, generation, oid, durable) =>
      IntegratedKeeps(r, intent, slice, generation, oid, durable, ok);
    case Verified(run, key, passed) => PhaseKeeps(r, key, passed, ok);
    case Reported(run, key, partial) => PhaseKeeps(r, key, partial, ok);
    case RoundFinished(key, decision) =>
      if decision.Some? { RoundKeeps(r, key, decision.value, ok); }
  }

  lemma InputKeeps(r: Run, kind: string, ok: bool)
    requires Inv(r) && r.memory.Some?
    ensures var s := r.memory.value;
            Inv(Apply(r, if Terminal(s.status) then Nothing else Commit(Bump(s), [InputAccepted(kind)], []), ok))
  {
    if !Terminal(r.memory.value.status) {
      PlainCommitKeeps(r, Bump(r.memory.value), [InputAccepted(kind)], ok);
    }
  }

  /** Over every message sequence and every pattern of store failures, the invariant holds. */
  lemma {:induction false} EveryRunIsSound(id: string, limits: Limits, trace: seq<Delivery>)
    ensures Inv(Play(Empty(id, limits), trace))
    ensures Play(Empty(id, limits), trace).limits == limits && Play(Empty(id, limits), trace).id == id
    decreases |trace|
  {
    hide Inv;
    hide Step;
    if trace == [] {
      EmptyIsSound(id, limits);
    } else {
      var last := |trace| - 1;
      var before := Play(Empty(id, limits), trace[..last]);
      EveryRunIsSound(id, limits, trace[..last]);
      StepKeeps(before, trace[last].message, trace[last].ok);
      StepKeepsIdentity(before, trace[last].message, trace[last].ok);
    }
  }

  lemma EmptyIsSound(id: string, limits: Limits)
    ensures Inv(Empty(id, limits))
  {
  }

  lemma StepKeepsIdentity(r: Run, m: Message, ok: bool)
    ensures Step(r, m, ok).id == r.id && Step(r, m, ok).limits == r.limits
  {
    hide Decide;
  }

  // ----- what a run never undoes -----

  predicate Extends<T(==)>(before: seq<T>, after: seq<T>) {
    |before| <= |after| && after[..|before|] == before
  }

  /** From `a`, at most `n` commits later: nothing committed is taken back. */
  ghost predicate Later(a: Run, b: Run, n: nat) {
    && Extends(a.ledger, b.ledger) && Extends(a.history, b.history)
    && (a.memory.Some? ==> b.memory.Some? && StateLater(a.memory.value, b.memory.value, n))
  }

  predicate StateLater(s: RunState, t: RunState, n: nat) {
    && s.version <= t.version <= s.version + n
    && (t.version == s.version ==> t == s)
    && (Terminal(s.status) ==> t.status == s.status)
    && (s.plan.Some? ==> t.plan == s.plan)
    && (s.warned ==> t.warned)
    && (!s.callsEnabled ==> !t.callsEnabled)
    && s.usage.input <= t.usage.input && s.usage.output <= t.usage.output && s.usage.cost <= t.usage.cost
  }

  lemma ExtendsByAppend<T>(s: seq<T>, added: seq<T>)
    ensures Extends(s, s + added)
  {
  }

  lemma ExtendsTransitive<T>(a: seq<T>, b: seq<T>, c: seq<T>)
    requires Extends(a, b) && Extends(b, c)
    ensures Extends(a, c)
  {
    assert c[..|a|] == c[..|b|][..|a|];
  }

  /** How far a Run has come. */
  function Stage(s: Status): nat {
    match s
    case Created => 0
    case Planning => 1
    case Executing => 2
    case Verifying => 3
    case Reporting => 4
    case _ => 5
  }

  predicate GoesOn(s: RunState, c: Change) {
    c != Nothing ==> Stage(c.next.status) >= Stage(s.status)
  }

  /** How any one decision moves the state: not at all, or by one version, never out of a terminal status. */
  lemma DecisionMoves(r: Run, s: RunState, m: Message)
    requires StatusOk(r.limits, s)
    ensures Decide(r, s, m) != Nothing ==> StateLater(s, Decide(r, s, m).next, 1)
    ensures m.DispatchStart? || GoesOn(s, Decide(r, s, m))
  {
    hide StatusOk, StateLater, Decide, GoesOn;
    if m.Create? || m.Cancel? || m.Input? || m.ConfirmAdvice? || m.SegmentStopped? || m.Spend? || m.Recover?
        || m.Advise? {
      NoticeMoves(r, s, m);
    } else {
      CommandMoves(r, s, m);
    }
  }

  lemma NoticeMoves(r: Run, s: RunState, m: Message)
    requires StatusOk(r.limits, s)
    requires m.Create? || m.Cancel? || m.Input? || m.ConfirmAdvice? || m.SegmentStopped? || m.Spend?
        || m.Recover? || m.Advise?
    ensures Decide(r, s, m) != Nothing ==> StateLater(s, Decide(r, s, m).next, 1)
    ensures m.DispatchStart? || GoesOn(s, Decide(r, s, m))
  {
    hide RecoverChange, SpendChange, SegmentChange, CancelChange, ConfirmChange, AdviseChange, StatusOk;
    match m
    case Create(_, _) =>
    case Cancel(expected) => CancelMoves(s, expected);
    case Input(_) =>
    case ConfirmAdvice(id) => ConfirmMoves(s, id);
    case SegmentStopped(segment, progress, slice) => SegmentMoves(s, segment, progress, slice);
    case Spend(input, output, cost, a, b) => SpendMoves(r.limits, s, input, output, cost, a, b);
    case Recover(known, interrupted, missing, corrupt, drift) =>
      RecoverMoves(s, known, interrupted, missing, corrupt, drift);
    case Advise(run, id, disposition) => AdviseMoves(s, run == r.id, id, disposition);
  }

  lemma CancelMoves(s: RunState, expected: int)
    ensures var c := CancelChange(s, expected); GoesOn(s, c) && (c != Nothing ==> StateLater(s, c.next, 1))
  {
  }

  lemma ConfirmMoves(s: RunState, id: string)
    ensures var c := ConfirmChange(s, id); GoesOn(s, c) && (c != Nothing ==> StateLater(s, c.next, 1))
  {
    hide Without;
  }

  lemma RecoverMoves(
    s: RunState, known: bool, interrupted: seq<string>, missing: seq<string>, corrupt: bool, drift: bool)
    ensures var c := RecoverChange(s, known, interrupted, missing, corrupt, drift);
            GoesOn(s, c) && (c != Nothing ==> StateLater(s, c.next, 1))
  {
    hide RecoverySteps;
  }

  lemma AdviseMoves(s: RunState, same: bool, id: string, disposition: Disposition)
    ensures var c := AdviseChange(s, same, id, disposition); GoesOn(s, c) && (c != Nothing ==> StateLater(s, c.next, 1))
  {
  }

  lemma SegmentMoves(s: RunState, segment: Option<int>, progress: bool, slice: string)
    ensures var c := SegmentChange(s, segment, progress, slice);
            GoesOn(s, c) && (c != Nothing ==> StateLater(s, c.next, 1))
  {
    hide CountOf, Terminal, Schedule, FailSlice;
    if segment.Some? {
      ScheduleMoves(s, segment.value, slice);
    }
  }

  lemma ScheduleMoves(s: RunState, g: int, slice: string)
    ensures Schedule(s, g).Commit? && StateLater(s, Schedule(s, g).next, 1)
    ensures FailSlice(s, g, slice).Commit? && StateLater(s, FailSlice(s, g, slice).next, 1)
    ensures GoesOn(s, Schedule(s, g)) && GoesOn(s, FailSlice(s, g, slice))
    ensures Schedule(s, g).next.adopted == s.adopted == FailSlice(s, g, slice).next.adopted
  {
    hide CountOf, Terminal;
  }

  lemma SpendMoves(l: Limits, s: RunState, input: int, output: int, cost: int, a: bool, b: bool)
    ensures var c := SpendChange(l, s, input, output, cost, a, b);
            GoesOn(s, c) && (c != Nothing ==> StateLater(s, c.next, 1))
  {
    hide FailureSteps, Warns, Exhausts;
  }

  lemma CommandMoves(r: Run, s: RunState, m: Message)
    requires StatusOk(r.limits, s)
    requires !m.Create? && !m.Cancel? && !m.Input? && !m.ConfirmAdvice? && !m.SegmentStopped?
    requires !m.Spend? && !m.Recover? && !m.Advise?
    ensures Decide(r, s, m) != Nothing ==> StateLater(s, Decide(r, s, m).next, 1)
    ensures m.DispatchStart? || GoesOn(s, Decide(r, s, m))
  {
    hide HasKey, HasStarted, AdmitAll, ClaimsComplete, TerminalsSound, MissingEnds, AcceptanceNotes;
    match m
    case DispatchStart(_, _) =>
    case DispatchFinish(_, _, _) =>
    case AcceptPlan(_, _, _, _) =>
    case AgentStarted(_, _, _) =>
    case AgentEnded(_, _, _, _) =>
    case Integrated(_, _, _, _, _, _) =>
    case Verified(_, _, _) =>
    case Reported(_, _, _) =>
    case RoundFinished(_, _) =>
  }

  /** A message changes the state by exactly one version, or leaves it as it is. */
  lemma StepEvolves(r: Run, m: Message, ok: bool)
    requires Inv(r)
    ensures Later(r, Step(r, m, ok), 1)
    ensures r.memory.None? && Step(r, m, ok).memory.Some? ==> Step(r, m, ok).memory.value.version == 1
  {
    if r.memory.Some? {
      DecisionMoves(r, r.memory.value, m);
      TransactionMoves(r, Decide(r, r.memory.value, m), ok);
    }
  }

  lemma TransactionMoves(r: Run, c: Change, ok: bool)
    requires r.memory.Some? && (c != Nothing ==> StateLater(r.memory.value, c.next, 1))
    ensures Later(r, Apply(r, c, ok), 1)
  {
    match c
    case Nothing =>
    case Commit(next, events, accepted) =>
      ExtendsByAppend(r.ledger, events + StatusNote(r.memory, next));
      ExtendsByAppend(r.history, accepted);
    case CommitAgentReceipt(next, events, agent, category) => ExtendsByAppend(r.ledger, events);
    case CommitIntegration(next, events) => ExtendsByAppend(r.ledger, events);
  }

  lemma LaterSelf(r: Run)
    ensures Later(r, r, 0)
  {
  }

  lemma LaterTransitive(a: Run, b: Run, c: Run, n: nat, k: nat)
    requires Later(a, b, n) && Later(b, c, k)
    ensures Later(a, c, n + k)
  {
    ExtendsTransitive(a.ledger, b.ledger, c.ledger);
    ExtendsTransitive(a.history, b.history, c.history);
  }

  /**
   Over any further messages: a terminal status stays, an accepted plan stays,
   stopped calls stay stopped, usage only grows, the ledger is append-only and
   the version counts the changes.
   */
  lemma {:induction false} RunsOnlyAdvance(r: Run, trace: seq<Delivery>)
    requires Inv(r)
    ensures Inv(Play(r, trace)) && Later(r, Play(r, trace), |trace|)
    decreases |trace|
  {
    hide Inv;
    hide Step;
    if trace == [] { LaterSelf(r); }
    if trace != [] {
      var last := |trace| - 1;
      var before := Play(r, trace[..last]);
      RunsOnlyAdvance(r, trace[..last]);
      StepKeeps(before, trace[last].message, trace[last].ok);
      StepEvolves(before, trace[last].message, trace[last].ok);
      LaterTransitive(r, before, Play(r, trace), last, 1);
    }
  }

  /** A message whose transaction the store refuses changes nothing at all. */
  lemma RefusedTransactionChangesNothing(r: Run, m: Message)
    requires Inv(r)
    ensures Step(r, m, false) == r
  {
    if r.memory.Some? {
      NoKnownReceipt(r, r.memory.value, m);
      RefusedChange(r, Decide(r, r.memory.value, m));
    }
  }

  lemma RefusedChange(r: Run, c: Change)
    requires c.CommitAgentReceipt? ==> c.agent !in r.receipts || r.receipts[c.agent] != c.category
    ensures Apply(r, c, false) == r
  {
  }

  /** A receipt that a handler commits is never one the store already has. */
  lemma NoKnownReceipt(r: Run, s: RunState, m: Message)
    requires Inv(r) && r.memory == Some(s)
    ensures var c := Decide(r, s, m);
            c.CommitAgentReceipt? ==> c.agent !in r.receipts || r.receipts[c.agent] != c.category
  {
    hide HasEnded, HasStarted, AdmitAll, ClaimsComplete, TerminalsSound, MissingEnds, AcceptanceNotes, RecoverySteps,
      ChainInv, LedgerOk, AdvancesBacked, ListsOk;
    match m
    case AcceptPlan(_, _, _, _) => hide HasKey;
    case AgentEnded(_, agent, _, _) => hide StatusOk;
    case _ => hide Inv, HasKey, Without, WithoutDispatch, DispatchOf, Warns, Exhausts;
  }

  // ----- a receipt key takes effect once -----

  /** The key under which the ledger remembers a workflow command. */
  function ReceiptKey(id: string, m: Message): Option<string> {
    match m
    case AcceptPlan(_, _, _, _) => Some(PlanKey(id))
    case AgentStarted(_, agent, _) => Some(StartedKey(agent))
    case AgentEnded(_, agent, _, _) => Some(TerminalKey(agent))
    case Integrated(_, intent, _, _, _, _) => Some(IntegratedKey(intent))
    case Verified(_, key, _) => Some(key)
    case Reported(_, key, _) => Some(key)
    case _ => None
  }

  /** A workflow command whose receipt key is in the ledger changes nothing. */
  lemma ReplayedCommandChangesNothing(r: Run, m: Message, ok: bool)
    requires ReceiptKey(r.id, m).Some? && HasKey(r.ledger, ReceiptKey(r.id, m).value)
    ensures Step(r, m, ok) == r
  {
  }

  /** One that changes the Run leaves its key in the ledger. */
  lemma EffectIsReceipted(r: Run, m: Message, ok: bool)
    requires Inv(r) && ReceiptKey(r.id, m).Some? && Step(r, m, ok) != r
    ensures HasKey(Step(r, m, ok).ledger, ReceiptKey(r.id, m).value)
  {
    var c := Decide(r, r.memory.value, m);
    var after := Step(r, m, ok);
    NoKnownReceipt(r, r.memory.value, m);
    hide Inv, HasStarted, Current, HasKey;
    KeyAmongEvents(r, m);
    assert after.ledger == r.ledger + c.events + if c.Commit? then StatusNote(r.memory, c.next) else [];
    KeyStays(c.events, r.ledger, if c.Commit? then StatusNote(r.memory, c.next) else [], ReceiptKey(r.id, m).value);
  }

  lemma KeyAmongEvents(r: Run, m: Message)
    requires r.memory.Some? && ReceiptKey(r.id, m).Some? && Decide(r, r.memory.value, m) != Nothing
    ensures HasKey(Decide(r, r.memory.value, m).events, ReceiptKey(r.id, m).value)
  {
    hide HasStarted, Current;
    var events := Decide(r, r.memory.value, m).events;
    assert KeyOf(events[if m.AcceptPlan? then 1 else 0]) == ReceiptKey(r.id, m);
  }

  lemma KeyStays(events: seq<Event>, before: seq<Event>, after: seq<Event>, key: string)
    requires HasKey(events, key)
    ensures HasKey(before + events + after, key)
  {
    var i :| 0 <= i < |events| && KeyOf(events[i]) == Some(key);
    assert (before + events + after)[|before| + i] == events[i];
  }

  /** The message at `i` changes the Run. */
  ghost predicate TakesEffect(r: Run, trace: seq<Delivery>, i: nat)
    requires i < |trace|
  {
    Play(r, trace[..i + 1]) != Play(r, trace[..i])
  }

  lemma {:induction false} PlayConcat(r: Run, a: seq<Delivery>, b: seq<Delivery>)
    ensures Play(r, a + b) == Play(Play(r, a), b)
    decreases |b|
  {
    hide Step;
    if b == [] {
      assert a + b == a;
    } else {
      assert (a + b)[..|a + b| - 1] == a + b[..|b| - 1];
      PlayConcat(r, a, b[..|b| - 1]);
    }
  }

  /**
   Over the whole life of a Run, of all the workflow commands with one receipt
   key at most one takes effect: a repetition is without effect, however much
   later it arrives and whatever else it says.
   */
  lemma EachKeyTakesEffectOnce(id: string, limits: Limits, trace: seq<Delivery>, i: nat, j: nat)
    requires i < j < |trace| && ReceiptKey(id, trace[i].message).Some?
    requires ReceiptKey(id, trace[j].message) == ReceiptKey(id, trace[i].message)
    requires TakesEffect(Empty(id, limits), trace, i)
    ensures !TakesEffect(Empty(id, limits), trace, j)
  {
    hide Inv, Step, ReceiptKey, HasKey;
    var start := Empty(id, limits);
    EveryRunIsSound(id, limits, trace[..i]);
    EveryRunIsSound(id, limits, trace[..i + 1]);
    EveryRunIsSound(id, limits, trace[..j]);
    var before, after, now := Play(start, trace[..i]), Play(start, trace[..i + 1]), Play(start, trace[..j]);
    assert trace[..i + 1][..i] == trace[..i] && trace[..j + 1][..j] == trace[..j];
    EffectIsReceipted(before, trace[i].message, trace[i].ok);
    assert trace[..j] == trace[..i + 1] + trace[i + 1..j];
    PlayConcat(start, trace[..i + 1], trace[i + 1..j]);
    RunsOnlyAdvance(after, trace[i + 1..j]);
    KeyPersists(after.ledger, now.ledger, ReceiptKey(id, trace[i].message).value);
    ReplayedCommandChangesNothing(now, trace[j].message, trace[j].ok);
  }

  lemma KeyPersists(before: seq<Event>, after: seq<Event>, key: string)
    requires Extends(before, after) && HasKey(before, key)
    ensures HasKey(after, key)
  {
    var i :| 0 <= i < |before| && KeyOf(before[i]) == Some(key);
    assert after[i] == after[..|before|][i];
  }

  // ----- only a dispatch goes back -----

  function StageOf(r: Run): nat {
    if r.memory.Some? then Stage(r.memory.value.status) else 0
  }

  /** A message takes a Run back exactly when it starts a new dispatch while the Run verifies or reports. */
  lemma GoesBackExactly(r: Run, m: Message, ok: bool)
    requires Inv(r)
    ensures StageOf(Step(r, m, ok)) < StageOf(r) <==>
              && ok && m.DispatchStart? && m.run == r.id && r.memory.Some?
              && r.memory.value.status in {Verifying, Reporting}
              && DispatchOf(r.memory.value.dispatches, m.dispatch).None?
  {
    if r.memory.Some? {
      var s := r.memory.value;
      assert StatusOk(r.limits, s);
      if m.DispatchStart? {
        StartGoesBack(r, s, m, ok);
      } else {
        DecisionMoves(r, s, m);
        hide Decide, Inv, StatusOk, StateLater;
      }
    }
  }

  lemma StartGoesBack(r: Run, s: RunState, m: Message, ok: bool)
    requires r.memory == r.disk == Some(s) && StatusOk(r.limits, s) && m.DispatchStart?
    ensures Stage(Step(r, m, ok).memory.value.status) < Stage(s.status)
            <==> && ok && m.run == r.id && s.status in {Verifying, Reporting}
                 && DispatchOf(s.dispatches, m.dispatch).None?
  {
    StartMoves(s, m.run == r.id, m.dispatch);
    assert Decide(r, s, m) == StartChange(s, m.run == r.id, m.dispatch);
    hide StatusOk, StartChange, Decide, DispatchOf;
  }

  lemma StartMoves(s: RunState, sameRun: bool, d: Dispatch)
    requires !s.callsEnabled ==> Terminal(s.status)
    requires s.cancelRequested ==> Terminal(s.status)
    ensures var c := StartChange(s, sameRun, d);
            && (c == Nothing <==> !sameRun || Terminal(s.status) || DispatchOf(s.dispatches, d).Some?)
            && (c != Nothing ==> c.Commit? && c.next.status == Executing)
  {
  }

  /** So without such a message no Run ever goes back. */
  lemma {:induction false} ForwardWithoutDispatch(r: Run, trace: seq<Delivery>)
    requires Inv(r) && forall i :: 0 <= i < |trace| ==> !trace[i].message.DispatchStart?
    ensures StageOf(Play(r, trace)) >= StageOf(r)
    decreases |trace|
  {
    hide Inv, Step, StageOf;
    if trace != [] {
      var last := |trace| - 1;
      ForwardWithoutDispatch(r, trace[..last]);
      RunsOnlyAdvance(r, trace[..last]);
      GoesBackExactly(Play(r, trace[..last]), trace[last].message, trace[last].ok);
    }
  }

  // ----- advice -----

  /**
   Adopted advice stays without repetition across a message exactly when the
   message does not confirm, with success, an identifier already adopted.
   */
  lemma AdoptedRepeatsExactly(r: Run, m: Message, ok: bool)
    requires Inv(r) && r.memory.Some? && Distinct(r.memory.value.adopted)
    ensures var s := r.memory.value;
            Distinct(Step(r, m, ok).memory.value.adopted)
            <==> !(ok && m.ConfirmAdvice? && !Terminal(s.status) && m.id in s.pending && m.id in s.adopted)
  {
    var s := r.memory.value;
    AdoptedAfter(r, m, ok);
    if m.ConfirmAdvice? || m.Advise? {
      AppendRepeats(s.adopted, m.id);
    }
  }

  lemma AppendRepeats(ids: seq<string>, id: string)
    requires Distinct(ids)
    ensures Distinct(ids + [id]) <==> id !in ids
  {
    var after := ids + [id];
    if id in ids {
      var i :| 0 <= i < |ids| && ids[i] == id;
      assert after[i] == after[|ids|];
    }
  }

  /** Only a confirmation of pending advice or an automatic adoption adds an adopted identifier. */
  lemma AdoptedAfter(r: Run, m: Message, ok: bool)
    requires Inv(r) && r.memory.Some?
    ensures Step(r, m, ok).memory.Some?
    ensures Step(r, m, ok).memory.value.adopted
            == if ok then AdoptedBy(r, r.memory.value, m) else r.memory.value.adopted
  {
    hide Decide;
    var s := r.memory.value;
    DecisionAdopts(r, s, m);
    TransactionAdopts(r, Decide(r, s, m), ok);
  }

  /** The adopted identifiers after a decision that is committed. */
  function AdoptedBy(r: Run, s: RunState, m: Message): seq<string> {
    if m.ConfirmAdvice? && !Terminal(s.status) && m.id in s.pending then s.adopted + [m.id]
    else if m.Advise? && m.run == r.id && m.disposition == AutoAdopted && m.id !in s.adopted then s.adopted + [m.id]
    else s.adopted
  }

  function AdoptedIn(c: Change, otherwise: seq<string>): seq<string> {
    if c == Nothing then otherwise else c.next.adopted
  }

  lemma DecisionAdopts(r: Run, s: RunState, m: Message)
    ensures AdoptedIn(Decide(r, s, m), s.adopted) == AdoptedBy(r, s, m)
    ensures Decide(r, s, m).Commit? || AdoptedBy(r, s, m) == s.adopted
  {
    hide CancelChange, SegmentChange, StartChange, FinishChange, SpendChange, RecoverChange, PlanChange,
      AgentStartedChange, AgentEndedChange, IntegratedChange, VerifiedChange, ReportedChange, RoundChange,
      ConfirmChange,
      AdviseChange, AdoptedIn;
    match m
    case Create(_, _) => NothingAdopts(s.adopted);
    case Cancel(expected) => CancelAdopts(s, expected);
    case Input(kind) => InputAdopts(s, kind);
    case ConfirmAdvice(id) => ConfirmAdopts(s, id);
    case SegmentStopped(segment, progress, slice) => SegmentAdopts(s, segment, progress, slice);
    case DispatchStart(run, d) => DispatchAdopts(s, run == r.id, d, "");
    case DispatchFinish(run, d, result) => DispatchAdopts(s, run == r.id, d, result);
    case Spend(input, output, cost, a, b) => SpendAdopts(r.limits, s, input, output, cost, a, b);
    case Recover(known, interrupted, missing, corrupt, drift) =>
      RecoverAdopts(s, known, interrupted, missing, corrupt, drift);
    case Advise(run, id, disposition) => AdviseAdopts(s, run == r.id, id, disposition);
    case AcceptPlan(run, agent, plan, sound) =>
      AgentAdopts(r, s, agent, plan, sound, false);
      NothingAdopts(s.adopted);
    case AgentStarted(run, agent, sound) =>
      AgentAdopts(r, s, agent, "", sound, false);
      NothingAdopts(s.adopted);
    case AgentEnded(run, agent, sound, same) =>
      AgentAdopts(r, s, agent, "", sound, same);
      NothingAdopts(s.adopted);
    case Integrated(run, intent, slice, generation, oid, durable) =>
      IntegratedAdopts(r, s, intent, slice, generation, oid, durable);
      NothingAdopts(s.adopted);
    case Verified(run, key, passed) =>
      PhaseAdopts(r, s, key, passed);
      NothingAdopts(s.adopted);
    case Reported(run, key, partial) =>
      PhaseAdopts(r, s, key, partial);
      NothingAdopts(s.adopted);
    case RoundFinished(key, decision) =>
      NothingAdopts(s.adopted);
      if decision.Some? { RoundAdopts(r, s, key, decision.value); }
  }

  lemma NothingAdopts(adopted: seq<string>)
    ensures AdoptedIn(Nothing, adopted) == adopted
  {
  }

  lemma CancelAdopts(s: RunState, expected: int)
    ensures AdoptedIn(CancelChange(s, expected), s.adopted) == s.adopted
  {
  }

  lemma InputAdopts(s: RunState, kind: string)
    ensures AdoptedIn(
              if Terminal(s.status) then Nothing else Commit(Bump(s), [InputAccepted(kind)], []),
              s.adopted) == s.adopted
  {
  }

  lemma ConfirmAdopts(s: RunState, id: string)
    ensures AdoptedIn(ConfirmChange(s, id), s.adopted)
            == if !Terminal(s.status) && id in s.pending then s.adopted + [id] else s.adopted
    ensures !Terminal(s.status) ==> ConfirmChange(s, id).Commit?
  {
    hide Without;
  }

  lemma AdviseAdopts(s: RunState, same: bool, id: string, disposition: Disposition)
    ensures AdoptedIn(AdviseChange(s, same, id, disposition), s.adopted)
            == if same && disposition == AutoAdopted && id !in s.adopted then s.adopted + [id] else s.adopted
    ensures AdviseChange(s, same, id, disposition).Commit?
  {
  }

  lemma SegmentAdopts(s: RunState, segment: Option<int>, progress: bool, slice: string)
    ensures AdoptedIn(SegmentChange(s, segment, progress, slice), s.adopted) == s.adopted
  {
    hide CountOf, Terminal, Schedule, FailSlice, StateLater;
    if segment.Some? {
      ScheduleMoves(s, segment.value, slice);
    }
  }

  lemma DispatchAdopts(s: RunState, same: bool, d: Dispatch, result: string)
    ensures AdoptedIn(StartChange(s, same, d), s.adopted) == s.adopted
    ensures AdoptedIn(FinishChange(s, same, d, result), s.adopted) == s.adopted
  {
    hide DispatchOf, WithoutDispatch;
  }

  lemma SpendAdopts(l: Limits, s: RunState, input: int, output: int, cost: int, a: bool, b: bool)
    ensures AdoptedIn(SpendChange(l, s, input, output, cost, a, b), s.adopted) == s.adopted
  {
    hide FailureSteps, EvaluateBudget;
  }

  lemma RecoverAdopts(
    s: RunState, known: bool, interrupted: seq<string>, missing: seq<string>, corrupt: bool, drift: bool)
    ensures AdoptedIn(RecoverChange(s, known, interrupted, missing, corrupt, drift), s.adopted) == s.adopted
  {
    hide RecoverySteps;
  }

  lemma AgentAdopts(r: Run, s: RunState, agent: string, plan: string, sound: bool, same: bool)
    ensures AdoptedIn(PlanChange(r, s, agent, plan, sound), s.adopted) == s.adopted
    ensures AdoptedIn(AgentStartedChange(r, s, agent, sound), s.adopted) == s.adopted
    ensures AdoptedIn(AgentEndedChange(r, s, agent, sound, same), s.adopted) == s.adopted
  {
    hide HasKey, HasStarted;
  }

  lemma IntegratedAdopts(
    r: Run, s: RunState, intent: string, slice: string, generation: nat, oid: Oid, durable: bool)
    ensures AdoptedIn(IntegratedChange(r, s, intent, slice, generation, oid, durable), s.adopted) == s.adopted
  {
    hide HasKey, Current;
  }

  lemma PhaseAdopts(r: Run, s: RunState, key: string, flag: bool)
    ensures AdoptedIn(VerifiedChange(r, s, key, flag), s.adopted) == s.adopted
    ensures AdoptedIn(ReportedChange(r, s, key, flag), s.adopted) == s.adopted
  {
    hide HasKey;
  }

  lemma RoundAdopts(r: Run, s: RunState, key: string, d: Decision)
    ensures AdoptedIn(RoundChange(r, s, key, d), s.adopted) == s.adopted
  {
    hide AdmitAll, ClaimsComplete, TerminalsSound, MissingEnds, AcceptanceNotes;
  }

  lemma TransactionAdopts(r: Run, c: Change, ok: bool)
    requires r.memory.Some? && r.memory == r.disk
    requires c.Commit? || AdoptedIn(c, r.memory.value.adopted) == r.memory.value.adopted
    ensures Apply(r, c, ok).memory.Some?
    ensures Apply(r, c, ok).memory.value.adopted
            == if ok then AdoptedIn(c, r.memory.value.adopted) else r.memory.value.adopted
  {
  }

  /** It does happen: adopted automatically, asked again, confirmed. */
  lemma AdoptedTwice(id: string, limits: Limits, request: string, advice: string)
    ensures var trace := [Delivery(Create(id, request), true), Delivery(Advise(id, advice, AutoAdopted), true),
                          Delivery(Advise(id, advice, ConfirmationRequired), true),
                          Delivery(ConfirmAdvice(advice), true)];
            var end := Play(Empty(id, limits), trace);
            end.memory.Some? && end.memory.value.adopted == [advice, advice] && end.memory.value.pending == []
  {
    var a, b, c, d := Create(id, request), Advise(id, advice, AutoAdopted),
                      Advise(id, advice, ConfirmationRequired), ConfirmAdvice(advice);
    var r0 := Empty(id, limits);
    var r2 := AdoptedOnce(id, limits, request, advice);
    AdoptedAgain(r2, advice);
    PlayFour(r0, Delivery(a, true), Delivery(b, true), Delivery(c, true), Delivery(d, true));
  }

  lemma AdoptedOnce(id: string, limits: Limits, request: string, advice: string) returns (r: Run)
    ensures r == Step(Step(Empty(id, limits), Create(id, request), true), Advise(id, advice, AutoAdopted), true)
    ensures r.id == id && r.memory == r.disk && r.memory.Some? && r.memory.value.status == Planning
    ensures r.memory.value.adopted == [advice] && r.memory.value.pending == []
  {
    r := Step(Step(Empty(id, limits), Create(id, request), true), Advise(id, advice, AutoAdopted), true);
  }

  lemma AdoptedAgain(r: Run, advice: string)
    requires r.memory == r.disk && r.memory.Some? && r.memory.value.status == Planning
    requires r.memory.value.adopted == [advice] && r.memory.value.pending == []
    ensures var end := Step(Step(r, Advise(r.id, advice, ConfirmationRequired), true), ConfirmAdvice(advice), true);
            end.memory.Some? && end.memory.value.adopted == [advice, advice] && end.memory.value.pending == []
  {
    assert Step(r, Advise(r.id, advice, ConfirmationRequired), true).memory.value.pending == [advice];
    assert Without([advice], advice) == [];
  }

  lemma PlayFour(r: Run, a: Delivery, b: Delivery, c: Delivery, d: Delivery)
    ensures Play(r, [a, b, c, d])
            == Step(Step(Step(Step(r, a.message, a.ok), b.message, b.ok), c.message, c.ok), d.message, d.ok)
  {
    assert [a, b, c, d][..3] == [a, b, c] && [a, b, c][..2] == [a, b] && [a, b][..1] == [a] && [a][..0] == [];
    assert Play(r, [a]) == Step(r, a.message, a.ok);
    assert Play(r, [a, b]) == Step(Play(r, [a]), b.message, b.ok);
    assert Play(r, [a, b, c]) == Step(Play(r, [a, b]), c.message, c.ok);
  }

  /** Status is not monotone: a dispatch sends a Run that is reporting, or not yet planned, back to executing. */
  lemma DispatchAlwaysExecutes(r: Run, d: Dispatch)
    requires Inv(r) && r.memory.Some?
    ensures var s := r.memory.value;
            Step(r, DispatchStart(r.id, d), true).memory.value.status == Executing
            <==> s.status == Executing || (!Terminal(s.status) && DispatchOf(s.dispatches, d).None?)
  {
  }

  /** Finishing an active dispatch removes that one and no other, so its key can be dispatched again. */
  lemma FinishRemovesOne(r: Run, d: Dispatch, result: string)
    requires Inv(r) && r.memory.Some? && d in r.memory.value.dispatches
    ensures var s, t := r.memory.value, Step(r, DispatchFinish(r.id, d, result), true).memory.value;
            && |t.dispatches| == |s.dispatches| - 1 && DispatchOf(t.dispatches, d).None?
            && forall x :: x in s.dispatches && x != d ==> x in t.dispatches
  {
    OnlyDispatchGoes(r.memory.value.dispatches, d);
  }

  /** A round either commits all its claims or, with one invalid claim, changes nothing. */
  lemma RoundIsAtomic(r: Run, key: string, d: Decision, ok: bool, n: nat)
    requires Inv(r) && r.memory.Some? && n <= |d.claims|
    requires AdmitAll(r.memory.value.candidates, d.claims[..n]).None?
    ensures Step(r, RoundFinished(key, Some(d)), ok) == r
  {
    hide RoundChange, AdmitAll, Inv;
    RefusedRound(r.memory.value.candidates, d.claims, n);
    RefusedClaims(r, r.memory.value, key, d);
  }

  lemma RefusedClaims(r: Run, s: RunState, key: string, d: Decision)
    requires AdmitAll(s.candidates, d.claims).None?
    ensures RoundChange(r, s, key, d) == Nothing
  {
    hide AdmitAll, ClaimsComplete, TerminalsSound;
  }

  /** In every reachable state the accepted facts of a pair form one chain whose last link is the current fact. */
  lemma CandidatesFormChains(id: string, limits: Limits, trace: seq<Delivery>, slice: string, generation: nat)
    ensures var r := Play(Empty(id, limits), trace);
            r.memory.Some? ==>
              && Chained(r.history) && OnePerPair(r.memory.value.candidates)
              && Current(r.memory.value.candidates, slice, generation) == Latest(r.history, slice, generation)
  {
    EveryRunIsSound(id, limits, trace);
  }
}
