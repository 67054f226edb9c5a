/**
 What each message does to a Run, field by field: when it takes effect, what it
 changes, what it leaves alone and what it puts on the ledger.  A reference the
 machine of `RunMachine` is proved to meet on every message.
 */
module RunEffects {
  import opened Counting
  import opened Options
  import opened CandidateChain
  import opened RunMachine
  import RunSafety

  /** A Run that has not ended. */
  predicate Live(s: RunState) {
    s.status in {Created, Planning, Executing, Verifying, Reporting}
  }

  /** The ledger holds an event with this key. */
  ghost predicate Noted(ledger: seq<Event>, key: string) {
    exists e :: e in ledger && KeyOf(e) == Some(key)
  }

  /** The ledger says that the AgentRun was started. */
  ghost predicate Begun(ledger: seq<Event>, agent: string) {
    exists key :: AgentRunStarted(key, agent) in ledger
  }

  /** The ledger says that it has ended. */
  ghost predicate Ended(ledger: seq<Event>, agent: string) {
    exists key :: AgentRunTerminal(key, agent) in ledger
  }

  lemma NotedExactly(ledger: seq<Event>, key: string)
    ensures HasKey(ledger, key) <==> Noted(ledger, key)
  {
    if HasKey(ledger, key) {
      var i :| 0 <= i < |ledger| && KeyOf(ledger[i]) == Some(key);
      assert ledger[i] in ledger;
    }
  }

  lemma BegunExactly(ledger: seq<Event>, agent: string)
    ensures HasStarted(ledger, agent) <==> Begun(ledger, agent)
    ensures HasEnded(ledger, agent) <==> Ended(ledger, agent)
  {
    if HasStarted(ledger, agent) {
      var i :| 0 <= i < |ledger| && ledger[i].AgentRunStarted? && ledger[i].agent == agent;
      assert AgentRunStarted(ledger[i].key, agent) in ledger;
    }
    if HasEnded(ledger, agent) {
      var i :| 0 <= i < |ledger| && ledger[i].AgentRunTerminal? && ledger[i].agent == agent;
      assert AgentRunTerminal(ledger[i].key, agent) in ledger;
    }
  }

  /** In some dimension 80% of the limit is used. */
  predicate NearLimit(u: Usage, l: Limits) {
    100 * u.input >= 80 * l.input || 100 * u.output >= 80 * l.output || 100 * u.cost >= 80 * l.cost
  }

  /** The Run warned as soon as it was near a limit. */
  ghost predicate Ready(l: Limits, s: RunState) {
    StatusOk(l, s) && (s.warned <==> NearLimit(s.usage, l))
  }

  lemma ReadyExactly(l: Limits, s: RunState)
    requires StatusOk(l, s)
    ensures Ready(l, s)
  {
  }

  lemma NearExactly(u: Usage, l: Limits)
    ensures Warns(u, l) <==> NearLimit(u, l)
  {
  }

  /** The pair has an accepted candidate. */
  ghost predicate HasCandidate(s: RunState, slice: string, generation: nat) {
    exists f :: f in s.candidates && f.slice == slice && f.generation == generation
  }

  lemma HasCandidateExactly(s: RunState, slice: string, generation: nat)
    ensures Current(s.candidates, slice, generation).Some? <==> HasCandidate(s, slice, generation)
  {
    var k := IndexOf(s.candidates, slice, generation);
    if k < |s.candidates| {
      assert s.candidates[k] in s.candidates;
    }
  }

  /** One claim for each AgentRun that completed, and each of those among the ended ones. */
  ghost predicate ClaimsMatch(d: Decision) {
    && (forall i, j :: 0 <= i < j < |d.claims| ==> d.claims[i].agent != d.claims[j].agent)
    && (forall a :: a in d.completed <==> exists c :: c in d.claims && c.agent == a)
    && (forall a :: a in d.completed ==> a in d.terminals)
    && Distinct(d.completed) && Distinct(d.terminals)
  }

  /** Every AgentRun said to have ended was begun and has the receipt of a session whose record holds. */
  ghost predicate EndsReceipted(r: Run, d: Decision) {
    forall a :: a in d.terminals ==>
      (a, SessionReceipt) in r.receipts.Items && a in d.soundTerminals && Begun(r.ledger, a)
  }

  lemma ClaimsMatchExactly(r: Run, d: Decision)
    ensures ClaimsComplete(d) <==> ClaimsMatch(d)
    ensures TerminalsSound(r, d) <==> EndsReceipted(r, d)
  {
    var names := Claimants(d.claims);
    forall a
      ensures a in names <==> exists c :: c in d.claims && c.agent == a
    {
      if a in names {
        var i :| 0 <= i < |names| && names[i] == a;
        assert d.claims[i] in d.claims;
      }
      if c :| c in d.claims && c.agent == a {
        var i :| 0 <= i < |d.claims| && d.claims[i] == c;
        assert names[i] == a;
      }
    }
    forall a { BegunExactly(r.ledger, a); }
  }

  predicate Within(g: Option<int>) {
    g.Some? && 0 <= g.value < 3
  }

  /** A stopped segment is continued while calls are enabled, it made progress and its budget is not used up. */
  predicate Continues(s: RunState, g: int, progress: bool) {
    s.callsEnabled && progress && (g in s.continuations ==> s.continuations[g] < 3)
  }

  function Spent(s: RunState, m: Message): Usage
    requires m.Spend? && m.input >= 0 && m.output >= 0 && m.cost >= 0
  {
    Usage(s.usage.input + m.input, s.usage.output + m.output, s.usage.cost + m.cost)
  }

  predicate Overspends(l: Limits, s: RunState, m: Message) {
    && m.Spend? && m.input >= 0 && m.output >= 0 && m.cost >= 0
    && var u := Spent(s, m); u.input >= l.input || u.output >= l.output || u.cost >= l.cost
  }

  /** Whether a message moves an existing Run on, when the store works. */
  ghost predicate Effective(r: Run, s: RunState, m: Message) {
    match m
    case Create(_, _) => false
    case Cancel(expected) => Live(s) && expected == s.version
    case Input(_) => Live(s)
    case ConfirmAdvice(id) => Live(s) && id in s.pending
    case SegmentStopped(_, _, _) => Live(s)
    case DispatchStart(run, d) =>
      Live(s) && run == r.id
      && forall x :: x in s.dispatches ==> !(x.subject == d.subject && x.check == d.check)
    case DispatchFinish(run, d, _) => run == r.id && d in s.dispatches
    case Spend(input, output, cost, _, _) => Live(s) && input >= 0 && output >= 0 && cost >= 0
    case Recover(known, _, _, _, _) => known
    case Advise(run, id, disposition) =>
      && run == r.id && !disposition.Discarded?
      && id !in (if disposition.AutoAdopted? then s.adopted else s.pending)
    case AcceptPlan(run, agent, _, sound) =>
      && run == r.id && s.status == Planning && sound && Begun(r.ledger, agent)
      && !Noted(r.ledger, "run.plan.accepted:" + r.id) && agent !in r.receipts
    case AgentStarted(run, agent, sound) =>
      run == r.id && s.status in {Planning, Executing} && sound && !Noted(r.ledger, "agent_run.started:" + agent)
    case AgentEnded(run, agent, sound, _) =>
      && run == r.id && s.status == Executing && sound && Begun(r.ledger, agent)
      && !Noted(r.ledger, "agent_run.terminal:" + agent) && agent !in r.receipts
    case Integrated(run, intent, slice, generation, _, durable) =>
      && run == r.id && s.status == Executing && s.plan.Some? && durable
      && !Noted(r.ledger, "integration.completed:" + intent) && HasCandidate(s, slice, generation)
    case Verified(run, key, _) => run == r.id && s.status == Verifying && !Noted(r.ledger, key)
    case Reported(run, key, _) => run == r.id && s.status == Reporting && !Noted(r.ledger, key)
    case RoundFinished(_, d) =>
      && d.Some? && s.status == Executing && s.plan.Some? && ClaimsMatch(d.value) && EndsReceipted(r, d.value)
      && AdmitAll(s.candidates, d.value.claims).Some?
  }

  // ----- the new state, field by field -----

  function StatusAfter(l: Limits, s: RunState, m: Message): Status {
    match m
    case Cancel(_) => Cancelled
    case DispatchStart(_, _) => Executing
    case Spend(_, _, _, _, _) => if Overspends(l, s, m) then Failed else s.status
    case AcceptPlan(_, _, _, _) => Executing
    case Verified(_, _, _) => Reporting
    case Reported(_, _, partial) => if partial then PartiallyCompleted else Completed
    case RoundFinished(_, d) => if d.Some? && d.value.complete then Verifying else Executing
    case _ => s.status
  }

  /** `after` is `before` without one occurrence of `x`. */
  ghost predicate OneLess<T>(before: seq<T>, x: T, after: seq<T>) {
    exists k :: 0 <= k < |before| && before[k] == x && after == before[..k] + before[k + 1..]
  }

  ghost predicate DispatchesAfter(l: Limits, s: RunState, m: Message, after: seq<Dispatch>) {
    if m.Cancel? || m.Recover? || Overspends(l, s, m) then after == []
    else if m.DispatchStart? then after == s.dispatches + [m.dispatch]
    else if m.DispatchFinish? then OneLess(s.dispatches, m.dispatch, after)
    else after == s.dispatches
  }

  ghost predicate SegmentsAfter(s: RunState, m: Message, after: RunState) {
    if m.SegmentStopped? && Within(m.segment) then
      var granted := Continues(s, m.segment.value, m.progress);
      && (forall g :: CountOf(after.continuations, g)
                      == CountOf(s.continuations, g) + if granted && g == m.segment.value then 1 else 0)
      && after.failedSlices
         == s.failedSlices + if granted || m.slice in s.failedSlices then [] else [m.slice]
    else after.continuations == s.continuations && after.failedSlices == s.failedSlices
  }

  ghost predicate AdviceAfter(s: RunState, m: Message, after: RunState) {
    match m
    case ConfirmAdvice(id) => after.adopted == s.adopted + [id] && OneLess(s.pending, id, after.pending)
    case Advise(_, id, disposition) =>
      && after.adopted == s.adopted + (if disposition.AutoAdopted? then [id] else [])
      && after.pending == s.pending + (if disposition.AutoAdopted? then [] else [id])
    case _ => after.adopted == s.adopted && after.pending == s.pending
  }

  /** The state after a message that takes effect. */
  ghost predicate StateAfter(l: Limits, s: RunState, m: Message, after: RunState) {
    && after.version == s.version + 1
    && after.status == StatusAfter(l, s, m)
    && after.cancelRequested == (s.cancelRequested || m.Cancel?)
    && after.budgetFailed == (s.budgetFailed || Overspends(l, s, m))
    && after.callsEnabled == (s.callsEnabled && !m.Cancel? && !Overspends(l, s, m))
    && after.usage == (if m.Spend? && m.input >= 0 && m.output >= 0 && m.cost >= 0 then Spent(s, m) else s.usage)
    && after.warned == (s.warned || NearLimit(after.usage, l))
    && DispatchesAfter(l, s, m, after.dispatches) && SegmentsAfter(s, m, after) && AdviceAfter(s, m, after)
    && after.reportingHalted == (if m.Recover? then m.drift else s.reportingHalted)
    && after.request == s.request
    && after.plan == (if m.AcceptPlan? then Some(m.plan) else s.plan)
    && after.candidates == (if m.RoundFinished? && m.decision.Some?
                               && AdmitAll(s.candidates, m.decision.value.claims).Some?
                            then AdmitAll(s.candidates, m.decision.value.claims).value.facts else s.candidates)
  }

  /** A Run as it is created. */
  predicate Fresh(s: RunState, request: string) {
    && s.status == Planning && s.version == 1 && s.callsEnabled && !s.cancelRequested && !s.budgetFailed
    && s.usage == Usage(0, 0, 0) && !s.warned && !s.reportingHalted && s.plan.None? && s.request == request
    && s.dispatches == [] && s.continuations == map[] && s.candidates == []
    && s.failedSlices == s.adopted == s.pending == []
  }

  /** What a message makes of the state in memory, which is also the stored one. */
  ghost predicate Moved(r: Run, m: Message, ok: bool, after: Run) {
    && after.id == r.id && after.limits == r.limits && after.disk == after.memory
    && match r.memory
       case Some(s) =>
         if ok && Effective(r, s, m) then after.memory.Some? && StateAfter(r.limits, s, m, after.memory.value)
         else after.memory == r.memory
       case None =>
         if ok && m.Create? && m.run == r.id then after.memory.Some? && Fresh(after.memory.value, m.request)
         else after.memory.None?
  }

  // ----- the machine meets it -----

  /** The tests of the machine that a command meets are those of the reference. */
  ghost predicate Agree(r: Run, s: RunState, m: Message) {
    match m
    case AcceptPlan(_, agent, _, _) =>
      && (HasKey(r.ledger, PlanKey(r.id)) <==> Noted(r.ledger, "run.plan.accepted:" + r.id))
      && (HasStarted(r.ledger, agent) <==> Begun(r.ledger, agent))
    case AgentStarted(_, agent, _) =>
      HasKey(r.ledger, StartedKey(agent)) <==> Noted(r.ledger, "agent_run.started:" + agent)
    case AgentEnded(_, agent, _, _) =>
      && (HasKey(r.ledger, TerminalKey(agent)) <==> Noted(r.ledger, "agent_run.terminal:" + agent))
      && (HasStarted(r.ledger, agent) <==> Begun(r.ledger, agent))
    case Integrated(_, intent, slice, generation, _, _) =>
      && (HasKey(r.ledger, IntegratedKey(intent)) <==> Noted(r.ledger, "integration.completed:" + intent))
      && (Current(s.candidates, slice, generation).Some? <==> HasCandidate(s, slice, generation))
    case Verified(_, key, _) => HasKey(r.ledger, key) <==> Noted(r.ledger, key)
    case Reported(_, key, _) => HasKey(r.ledger, key) <==> Noted(r.ledger, key)
    case _ => true
  }

  lemma KeysAgree(r: Run, s: RunState, m: Message)
    ensures Agree(r, s, m)
  {
    hide HasKey, HasStarted, Noted, Begun, Current, HasCandidate;
    match m
    case AcceptPlan(_, agent, _, _) =>
      NotedExactly(r.ledger, PlanKey(r.id));
      BegunExactly(r.ledger, agent);
    case AgentStarted(_, agent, _) => NotedExactly(r.ledger, StartedKey(agent));
    case AgentEnded(_, agent, _, _) =>
      NotedExactly(r.ledger, TerminalKey(agent));
      BegunExactly(r.ledger, agent);
    case Integrated(_, intent, slice, generation, _, _) =>
      NotedExactly(r.ledger, IntegratedKey(intent));
      HasCandidateExactly(s, slice, generation);
    case Verified(_, key, _) => NotedExactly(r.ledger, key);
    case Reported(_, key, _) => NotedExactly(r.ledger, key);
    case _ =>
  }

  /** Whether a decision changes the state is whether the message is effective. */
  ghost predicate Decides(r: Run, s: RunState, m: Message) {
    var c := Decide(r, s, m);
    if Effective(r, s, m) then
      c != Nothing && StateAfter(r.limits, s, m, c.next) && (c.CommitAgentReceipt? ==> c.agent !in r.receipts)
    else
      || c == Nothing || c.next == s
      || (c.CommitAgentReceipt? && c.agent in r.receipts && r.receipts[c.agent] != c.category)
  }

  lemma DecidesExactly(r: Run, s: RunState, m: Message)
    requires Inv(r) && r.memory == Some(s)
    ensures Decides(r, s, m)
  {
    RunSafety.NoKnownReceipt(r, s, m);
    assert StatusOk(r.limits, s) && ListsOk(s);
    ReadyExactly(r.limits, s);
    hide Inv, Decides, Decide, StatusOk, Ready, ListsOk;
    match m
    case SegmentStopped(_, _, _) => SegmentExactly(r, s, m);
    case ConfirmAdvice(_) => ConfirmExactly(r, s, m);
    case DispatchStart(_, _) => StartExactly(r, s, m);
    case DispatchFinish(_, _, _) => FinishExactly(r, s, m);
    case Spend(_, _, _, _, _) => SpendExactly(r, s, m);
    case Create(_, _) => NoticeExactly(r, s, m);
    case Cancel(_) => NoticeExactly(r, s, m);
    case Input(_) => NoticeExactly(r, s, m);
    case Recover(_, _, _, _, _) => RecoverExactly(r, s, m);
    case Advise(_, _, _) => AdviseExactly(r, s, m);
    case RoundFinished(_, _) => RoundExactly(r, s, m);
    case _ => CommandExactly(r, s, m);
  }

  lemma NoticeExactly(r: Run, s: RunState, m: Message)
    requires Ready(r.limits, s) && (m.Create? || m.Cancel? || m.Input?)
    ensures Decides(r, s, m)
  {
    hide Warns, Exhausts, NearLimit;
  }

  lemma RecoverExactly(r: Run, s: RunState, m: Message)
    requires Ready(r.limits, s) && m.Recover?
    ensures Decides(r, s, m)
  {
    hide Warns, Exhausts, NearLimit, StateAfter, RecoverySteps;
    if m.known {
      assert RecoverChange(s, m.known, m.interrupted, m.missing, m.corrupt, m.drift).next
             == Bump(s).(dispatches := [], reportingHalted := m.drift);
      RecoveredState(r.limits, s, m);
    }
  }

  lemma RecoveredState(l: Limits, s: RunState, m: Message)
    requires Ready(l, s) && m.Recover?
    ensures StateAfter(l, s, m, Bump(s).(dispatches := [], reportingHalted := m.drift))
  {
    hide Warns, Exhausts, NearLimit;
  }

  lemma AdviseExactly(r: Run, s: RunState, m: Message)
    requires Ready(r.limits, s) && m.Advise?
    ensures Decides(r, s, m)
  {
    hide Warns, Exhausts, NearLimit, StateAfter, StatusOk, Ready;
    if m.disposition.AutoAdopted? {
      AdvisedState(r.limits, s, m, Bump(s).(adopted := s.adopted + [m.id]));
    } else {
      AdvisedState(r.limits, s, m, Bump(s).(pending := s.pending + [m.id]));
    }
  }

  lemma AdvisedState(l: Limits, s: RunState, m: Message, t: RunState)
    requires Ready(l, s) && m.Advise?
    requires t == if m.disposition.AutoAdopted? then Bump(s).(adopted := s.adopted + [m.id])
                  else Bump(s).(pending := s.pending + [m.id])
    ensures StateAfter(l, s, m, t)
  {
    hide Warns, Exhausts, NearLimit;
    assert s.adopted + [] == s.adopted && s.pending + [] == s.pending;
  }

  lemma CommandExactly(r: Run, s: RunState, m: Message)
    requires Ready(r.limits, s)
    requires m.AcceptPlan? || m.AgentStarted? || m.AgentEnded? || m.Integrated? || m.Verified? || m.Reported?
    requires var c := Decide(r, s, m);
             c.CommitAgentReceipt? ==> c.agent !in r.receipts || r.receipts[c.agent] != c.category
    ensures Decides(r, s, m)
  {
    KeysAgree(r, s, m);
    hide HasKey, HasStarted, Noted, Begun, Current, HasCandidate, Warns, Exhausts, NearLimit;
  }

  lemma RoundExactly(r: Run, s: RunState, m: Message)
    requires Ready(r.limits, s) && m.RoundFinished?
    ensures Decides(r, s, m)
  {
    if m.decision.Some? { ClaimsMatchExactly(r, m.decision.value); }
    hide AdmitAll, ClaimsComplete, TerminalsSound, ClaimsMatch, EndsReceipted, MissingEnds, AcceptanceNotes;
    hide Warns, Exhausts, NearLimit;
  }

  lemma SegmentExactly(r: Run, s: RunState, m: Message)
    requires Ready(r.limits, s) && m.SegmentStopped?
    ensures Decides(r, s, m)
  {
    if Live(s) {
      SegmentNext(s, m);
      if Within(m.segment) { SegmentCounts(s, m); }
      SegmentState(r.limits, s, m, SegmentChange(s, m.segment, m.progress, m.slice).next);
      hide StateAfter, SegmentChange, Ready;
    }
  }

  /** A stopped segment touches only the continuations and the failed slices. */
  lemma SegmentNext(s: RunState, m: Message)
    requires Live(s) && m.SegmentStopped?
    ensures var c := SegmentChange(s, m.segment, m.progress, m.slice);
            && c.Commit?
            && c.next == s.(version := s.version + 1, continuations := c.next.continuations,
                            failedSlices := c.next.failedSlices)
            && (!Within(m.segment) ==> c.next == s.(version := s.version + 1))
  {
    if Within(m.segment) {
      ScheduledNext(s, m.segment.value);
      FailedNext(s, m.segment.value, m.slice);
      hide Schedule, FailSlice, CountOf;
    }
  }

  lemma ScheduledNext(s: RunState, g: int)
    ensures var c := Schedule(s, g);
            c.Commit? && c.next == s.(version := s.version + 1, continuations := c.next.continuations)
  {
    hide CountOf;
  }

  lemma FailedNext(s: RunState, g: int, slice: string)
    ensures var c := FailSlice(s, g, slice);
            && c.Commit?
            && c.next == s.(version := s.version + 1, continuations := c.next.continuations,
                            failedSlices := c.next.failedSlices)
  {
    hide CountOf;
  }

  lemma SegmentState(l: Limits, s: RunState, m: Message, next: RunState)
    requires Ready(l, s) && m.SegmentStopped? && SegmentsAfter(s, m, next)
    requires next == s.(version := s.version + 1, continuations := next.continuations,
                        failedSlices := next.failedSlices)
    ensures StateAfter(l, s, m, next)
  {
    hide Warns, Exhausts, NearLimit, SegmentsAfter;
  }

  lemma SegmentCounts(s: RunState, m: Message)
    requires Live(s) && m.SegmentStopped? && Within(m.segment)
    ensures SegmentsAfter(s, m, SegmentChange(s, m.segment, m.progress, m.slice).next)
  {
    var g := m.segment.value;
    CountsAfter(s.continuations, g, CountOf(s.continuations, g) + 1);
    CountsAfter(s.continuations, g, CountOf(s.continuations, g));
    assert Continues(s, g, m.progress) <==> s.callsEnabled && m.progress && CountOf(s.continuations, g) < 3;
    hide CountOf, Continues;
    assert s.failedSlices + [] == s.failedSlices;
  }

  lemma CountsAfter(counts: map<int, nat>, g: int, n: nat)
    ensures forall k :: CountOf(counts[g := n], k) == if k == g then n else CountOf(counts, k)
  {
    forall k
      ensures CountOf(counts[g := n], k) == if k == g then n else CountOf(counts, k)
    {
      assert k in counts[g := n] <==> k == g || k in counts;
    }
  }

  lemma ConfirmExactly(r: Run, s: RunState, m: Message)
    requires Ready(r.limits, s) && ListsOk(s) && m.ConfirmAdvice?
    ensures Decides(r, s, m)
  {
    if Live(s) && m.id in s.pending {
      WithoutIsOneLess(s.pending, m.id);
      hide Without, OneLess;
      ConfirmedState(r.limits, s, m, ConfirmChange(s, m.id).next);
    }
    hide StateAfter, Without, Ready, ListsOk;
  }

  lemma ConfirmedState(l: Limits, s: RunState, m: Message, next: RunState)
    requires Ready(l, s) && m.ConfirmAdvice? && OneLess(s.pending, m.id, next.pending)
    requires next == s.(version := s.version + 1, pending := next.pending, adopted := s.adopted + [m.id])
    ensures StateAfter(l, s, m, next)
  {
    hide Warns, Exhausts, NearLimit, OneLess;
  }

  lemma StartExactly(r: Run, s: RunState, m: Message)
    requires Ready(r.limits, s) && m.DispatchStart?
    ensures Decides(r, s, m)
  {
    hide Warns, Exhausts, NearLimit;
  }

  lemma FinishExactly(r: Run, s: RunState, m: Message)
    requires Ready(r.limits, s) && ListsOk(s) && m.DispatchFinish?
    ensures Decides(r, s, m)
  {
    DispatchOfMember(s.dispatches, m.dispatch);
    if m.dispatch in s.dispatches { FinishIsOneLess(s.dispatches, m.dispatch); }
    hide Warns, Exhausts, NearLimit, WithoutDispatch, OneLess, DispatchOf;
  }

  lemma SpendExactly(r: Run, s: RunState, m: Message)
    requires Ready(r.limits, s) && m.Spend?
    ensures Decides(r, s, m)
  {
    if Live(s) && m.input >= 0 && m.output >= 0 && m.cost >= 0 {
      SpendNext(r.limits, s, m);
      SpentState(r.limits, s, m);
      hide SpendChange, StateAfter, SpentAfter;
    }
  }

  /** The state after a report of use. */
  function SpentAfter(l: Limits, s: RunState, m: Message): RunState
    requires m.Spend? && m.input >= 0 && m.output >= 0 && m.cost >= 0
  {
    var u := Spent(s, m);
    var spent := s.(version := s.version + 1, usage := u, warned := s.warned || Warns(u, l));
    if Exhausts(u, l) then
      spent.(status := Failed, budgetFailed := true, callsEnabled := false, dispatches := [])
    else spent
  }

  lemma SpendNext(l: Limits, s: RunState, m: Message)
    requires Live(s) && m.Spend? && m.input >= 0 && m.output >= 0 && m.cost >= 0
    ensures var c := SpendChange(l, s, m.input, m.output, m.cost, m.checkpointFails, m.archiveFails);
            c.Commit? && c.next == SpentAfter(l, s, m)
  {
    var u := Spent(s, m);
    var e := EvaluateBudget(s.usage, l, m.input, m.output, m.cost, s.warned);
    assert e == Evaluation(u, !s.warned && Warns(u, l), Exhausts(u, l));
    hide EvaluateBudget, Spent, Warns, Exhausts, FailureSteps;
    BumpUsage(s, u, e.warning, Warns(u, l));
    hide Bump;
  }

  lemma BumpUsage(s: RunState, u: Usage, warning: bool, warns: bool)
    requires warning <==> !s.warned && warns
    ensures Bump(s).(usage := u, warned := s.warned || warning)
            == s.(version := s.version + 1, usage := u, warned := s.warned || warns)
  {
  }

  lemma SpentState(l: Limits, s: RunState, m: Message)
    requires Ready(l, s) && Live(s) && m.Spend? && m.input >= 0 && m.output >= 0 && m.cost >= 0
    ensures StateAfter(l, s, m, SpentAfter(l, s, m))
  {
    NearExactly(Spent(s, m), l);
    assert Overspends(l, s, m) <==> Exhausts(Spent(s, m), l);
    hide Warns, Exhausts, NearLimit, Overspends;
  }

  lemma OneLessBehind<T>(first: T, before: seq<T>, x: T, after: seq<T>, k: nat)
    requires k < |before| && before[k] == x && after == before[..k] + before[k + 1..]
    ensures OneLess([first] + before, x, [first] + after)
  {
    var all := [first] + before;
    assert all[k + 1] == x && all[..k + 1] == [first] + before[..k] && all[k + 2..] == before[k + 1..];
    assert [first] + after == all[..k + 1] + all[k + 2..];
  }

  lemma {:induction false} WithoutIsOneLess(ids: seq<string>, id: string)
    requires Distinct(ids) && id in ids
    ensures OneLess(ids, id, Without(ids, id))
  {
    var rest := ids[1..];
    if ids[0] == id {
      WithoutNone(rest, id);
      assert ids[..0] + rest == Without(ids, id);
    } else {
      WithoutIsOneLess(rest, id);
      var k :| 0 <= k < |rest| && rest[k] == id && Without(rest, id) == rest[..k] + rest[k + 1..];
      OneLessBehind(ids[0], rest, id, Without(rest, id), k);
      assert ids == [ids[0]] + rest;
    }
  }

  lemma {:induction false} WithoutNone(ids: seq<string>, id: string)
    requires id !in ids
    ensures Without(ids, id) == ids
  {
    if ids != [] { WithoutNone(ids[1..], id); }
  }

  lemma {:induction false} DispatchOfMember(dispatches: seq<Dispatch>, d: Dispatch)
    requires DispatchesDistinct(dispatches)
    ensures d in dispatches <==> DispatchOf(dispatches, d) == Some(d)
  {
    if dispatches != [] {
      DispatchOfMember(dispatches[1..], d);
    }
  }

  lemma {:induction false} FinishIsOneLess(dispatches: seq<Dispatch>, d: Dispatch)
    requires DispatchesDistinct(dispatches) && d in dispatches
    ensures OneLess(dispatches, d, WithoutDispatch(dispatches, d))
  {
    var rest := dispatches[1..];
    if dispatches[0] == d {
      assert forall i :: 0 <= i < |rest| ==> rest[i] == dispatches[i + 1] && !SameKey(d, rest[i]);
      OthersStay(rest, d);
      assert dispatches[..0] + rest == WithoutDispatch(dispatches, d);
    } else {
      assert WithoutDispatch(dispatches, d) == [dispatches[0]] + WithoutDispatch(rest, d);
      hide WithoutDispatch;
      FinishIsOneLess(rest, d);
      var k :| 0 <= k < |rest| && rest[k] == d && WithoutDispatch(rest, d) == rest[..k] + rest[k + 1..];
      OneLessBehind(dispatches[0], rest, d, WithoutDispatch(rest, d), k);
      assert dispatches == [dispatches[0]] + rest;
    }
  }

  lemma {:induction false} OthersStay(dispatches: seq<Dispatch>, d: Dispatch)
    requires d !in dispatches
    ensures WithoutDispatch(dispatches, d) == dispatches
  {
    if dispatches != [] { OthersStay(dispatches[1..], d); }
  }

  /** Every message does to a Run exactly what the reference says. */
  lemma EffectExact(r: Run, m: Message, ok: bool)
    requires Inv(r)
    ensures Moved(r, m, ok, Step(r, m, ok))
  {
    if r.memory.Some? {
      DecidesExactly(r, r.memory.value, m);
      DecidedMoves(r, r.memory.value, m, ok);
    }
  }

  lemma DecidedMoves(r: Run, s: RunState, m: Message, ok: bool)
    requires r.memory == r.disk == Some(s) && Decides(r, s, m)
    ensures Moved(r, m, ok, Step(r, m, ok))
  {
    hide Decide, Effective, StatusNote;
  }

  // ----- what goes on the ledger -----

  /** The steps of a failing Run; a checkpoint or archive that fails is noted and does not stop the rest. */
  function FailureNotes(checkpointFails: bool, archiveFails: bool): seq<Event> {
    var kept := [BudgetStep("run.archived"), BudgetStep("run.failed"), BudgetStep("budget.exhausted")];
    var archived := if archiveFails then [BudgetStep("archive.failed")] + kept else kept;
    [BudgetStep("checkpoint.pre")]
    + if checkpointFails then [BudgetStep("checkpoint.write_failed")] + archived else archived
  }

  /** The ends that the ledger does not have yet, in the order of the AgentRuns. */
  ghost function EndNotes(ledger: seq<Event>, agents: seq<string>): seq<Event> {
    if agents == [] then []
    else
      var last := agents[|agents| - 1];
      EndNotes(ledger, agents[..|agents| - 1])
      + if Ended(ledger, last) then [] else [AgentRunTerminal("agent_run.terminal:" + last, last)]
  }

  function CandidateNotes(facts: seq<Fact>): seq<Event> {
    seq(|facts|, i requires 0 <= i < |facts| =>
      CandidateAccepted(facts[i].agent, facts[i].slice, facts[i].generation))
  }

  lemma MissingEndsStep(ledger: seq<Event>, agents: seq<string>)
    requires agents != []
    ensures MissingEnds(ledger, agents) == MissingEnd(ledger, agents[0]) + MissingEnds(ledger, agents[1..])
  {
    hide MissingEnd;
  }

  lemma {:induction false} MissingEndsAppend(ledger: seq<Event>, agents: seq<string>, agent: string)
    ensures MissingEnds(ledger, agents + [agent]) == MissingEnds(ledger, agents) + MissingEnd(ledger, agent)
  {
    var more := agents + [agent];
    MissingEndsStep(ledger, more);
    if agents == [] {
      assert more[1..] == [];
    } else {
      MissingEndsStep(ledger, agents);
      assert more[1..] == agents[1..] + [agent];
      MissingEndsAppend(ledger, agents[1..], agent);
      hide MissingEnds, MissingEnd;
      assert more[0] == agents[0];
    }
  }

  lemma {:induction false} EndNotesExact(ledger: seq<Event>, agents: seq<string>)
    ensures MissingEnds(ledger, agents) == EndNotes(ledger, agents)
    decreases |agents|
  {
    if agents != [] {
      var front, last := agents[..|agents| - 1], agents[|agents| - 1];
      EndNotesExact(ledger, front);
      assert agents == front + [last];
      MissingEndsAppend(ledger, front, last);
      BegunExactly(ledger, last);
    }
  }

  lemma {:induction false} CandidateNotesExact(facts: seq<Fact>)
    ensures AcceptanceNotes(facts) == CandidateNotes(facts)
  {
    if facts != [] {
      CandidateNotesExact(facts[1..]);
      assert facts == [facts[0]] + facts[1..];
    }
  }

  /** What a message that takes effect puts on the ledger, before the note of a changed status. */
  ghost function Notes(r: Run, s: RunState, m: Message): seq<Event>
    requires Effective(r, s, m)
  {
    match m
    case Cancel(_) => [RunCancelled]
    case Input(kind) => [InputAccepted(kind)]
    case ConfirmAdvice(id) => [AdviceConfirmed(id)]
    case SegmentStopped(g, progress, _) =>
      if !Within(g) then [SliceFailed("INVALID_GENERATION")]
      else if Continues(s, g.value, progress) then
        [ContinuationScheduled(g.value, CountOf(s.continuations, g.value) + 1)]
      else [SliceFailed("INDEPENDENT_SLICE_TERMINAL_FAILURE")]
    case DispatchStart(_, d) => [DispatchStarted(d.attempt, d.check)]
    case DispatchFinish(_, _, result) => [DispatchCompleted(result)]
    case Spend(_, _, _, checkpointFails, archiveFails) =>
      (if !s.warned && NearLimit(Spent(s, m), r.limits) then [BudgetWarning] else [])
      + if Overspends(r.limits, s, m) then FailureNotes(checkpointFails, archiveFails) else []
    case Advise(_, _, disposition) =>
      [AdviceNoted(if disposition.AutoAdopted? then "advice.adopted" else "advice.confirmation_required")]
    case AcceptPlan(_, agent, plan, _) =>
      [AgentRunTerminal(TerminalKey(agent), agent), PlanAccepted(PlanKey(r.id), agent, plan)]
    case AgentStarted(_, agent, _) => [AgentRunStarted(StartedKey(agent), agent)]
    case AgentEnded(_, agent, _, _) => [AgentRunTerminal(TerminalKey(agent), agent)]
    case Integrated(_, intent, slice, generation, oid, _) =>
      [IntegrationReceipted(IntegratedKey(intent), slice, generation, oid), VerifiedAdvanced(slice, generation, oid)]
    case Verified(_, key, passed) => [VerifyCompleted(key, passed)]
    case Reported(_, key, partial) => [ReportCompleted(key, if partial then PartiallyCompleted else Completed)]
    case RoundFinished(key, d) =>
      EndNotes(r.ledger, d.value.terminals)
      + CandidateNotes(AdmitAll(s.candidates, d.value.claims).value.accepted)
      + [RoundCommitted(key, d.value.complete, d.value.dispatchCount)]
    case Recover(_, interrupted, missing, corrupt, drift) =>
      RecoverySteps(
        ["recovery.actor_rebuilt"] + interrupted + ["git.refs.reconciled", "receipts.repaired"] + missing
        + (if corrupt then ["checkpoint.discarded"] else []) + (if drift then ["recovery.ref_drift"] else [])
        + ["recovery.completed"])
  }

  /** Some messages are noted although they change nothing. */
  function IdleNotes(r: Run, s: RunState, m: Message): seq<Event> {
    match m
    case ConfirmAdvice(id) => if Live(s) then [ConfirmationRejected(id)] else []
    case DispatchFinish(_, _, _) => [LateDispatchResult]
    case Advise(run, _, disposition) =>
      [AdviceNoted(if run != r.id || disposition.Discarded? then "advice.discarded" else "advice.duplicate")]
    case _ => []
  }

  ghost function ReceiptsAfter(r: Run, s: RunState, m: Message): map<string, Category>
    requires Effective(r, s, m)
  {
    match m
    case AcceptPlan(_, agent, _, _) => r.receipts[agent := PlanReceipt]
    case AgentEnded(_, agent, _, _) => r.receipts[agent := SessionReceipt]
    case _ => r.receipts
  }

  /** How a message reaches the ledger and the receipts of an existing Run. */
  ghost predicate Recorded(r: Run, s: RunState, m: Message, after: Run) {
    if Effective(r, s, m) then
      var status := StatusAfter(r.limits, s, m);
      && after.receipts == ReceiptsAfter(r, s, m)
      && after.ledger
         == r.ledger + Notes(r, s, m)
            + if status == s.status then [] else [StatusChanged(status, status == Failed)]
    else after.receipts == r.receipts && after.ledger == r.ledger + IdleNotes(r, s, m)
  }

  function StatusNotes(l: Limits, s: RunState, m: Message): seq<Event> {
    var status := StatusAfter(l, s, m);
    if status == s.status then [] else [StatusChanged(status, status == Failed)]
  }

  /** What a decision carries to the ledger is what the message has to put there. */
  ghost predicate Carries(r: Run, s: RunState, m: Message) {
    var c := Decide(r, s, m);
    if Effective(r, s, m) then
      match c
      case Nothing => false
      case Commit(_, events, _) => events == Notes(r, s, m) && !m.AcceptPlan? && !m.AgentEnded?
      case CommitAgentReceipt(_, events, agent, category) =>
        && events == Notes(r, s, m) + StatusNotes(r.limits, s, m)
        && ReceiptsAfter(r, s, m) == r.receipts[agent := category]
      case CommitIntegration(_, events) => events == Notes(r, s, m) && m.Integrated?
    else
      match c
      case Commit(_, events, _) => events == IdleNotes(r, s, m)
      case _ => IdleNotes(r, s, m) == []
  }

  lemma CarriesExactly(r: Run, s: RunState, m: Message)
    requires Inv(r) && r.memory == Some(s)
    ensures Carries(r, s, m)
  {
    assert StatusOk(r.limits, s) && ListsOk(s);
    ReadyExactly(r.limits, s);
    hide Inv, Carries, Decide, StatusOk, Ready, ListsOk;
    match m
    case RoundFinished(_, _) => RoundCarries(r, s, m);
    case Recover(_, _, _, _, _) => RecoverCarries(r, s, m);
    case Spend(_, _, _, _, _) => SpendCarries(r, s, m);
    case SegmentStopped(_, _, _) => SegmentCarries(r, s, m);
    case DispatchFinish(_, d, _) =>
      DispatchListed(s, d);
      NoticeCarries(r, s, m);
    case _ => if IsCommand(m) { CommandCarries(r, s, m); } else { NoticeCarries(r, s, m); }
  }

  predicate IsCommand(m: Message) {
    m.AcceptPlan? || m.AgentStarted? || m.AgentEnded? || m.Integrated? || m.Verified? || m.Reported?
  }

  lemma DispatchListed(s: RunState, d: Dispatch)
    requires ListsOk(s)
    ensures d in s.dispatches <==> DispatchOf(s.dispatches, d) == Some(d)
  {
    DispatchOfMember(s.dispatches, d);
  }

  lemma NoticeCarries(r: Run, s: RunState, m: Message)
    requires Ready(r.limits, s) && !IsCommand(m)
    requires !m.RoundFinished? && !m.Recover? && !m.Spend? && !m.SegmentStopped?
    requires m.DispatchFinish? ==>
               (m.dispatch in s.dispatches <==> DispatchOf(s.dispatches, m.dispatch) == Some(m.dispatch))
    ensures Carries(r, s, m)
  {
    hide Warns, Exhausts, NearLimit, Without, WithoutDispatch;
  }

  lemma CommandCarries(r: Run, s: RunState, m: Message)
    requires Ready(r.limits, s) && IsCommand(m)
    ensures Carries(r, s, m)
  {
    KeysAgree(r, s, m);
    hide HasKey, HasStarted, Noted, Begun, Current, HasCandidate, Warns, Exhausts, NearLimit;
  }

  lemma RoundCarries(r: Run, s: RunState, m: Message)
    requires m.RoundFinished?
    ensures Carries(r, s, m)
  {
    if m.decision.Some? {
      ClaimsMatchExactly(r, m.decision.value);
      EndNotesExact(r.ledger, m.decision.value.terminals);
      var admission := AdmitAll(s.candidates, m.decision.value.claims);
      if admission.Some? { CandidateNotesExact(admission.value.accepted); }
    }
    hide AdmitAll, ClaimsComplete, TerminalsSound, ClaimsMatch, EndsReceipted;
    hide MissingEnds, AcceptanceNotes, EndNotes, CandidateNotes;
  }

  lemma RecoverCarries(r: Run, s: RunState, m: Message)
    requires m.Recover?
    ensures Carries(r, s, m)
  {
    hide RecoverySteps;
  }

  lemma SpendCarries(r: Run, s: RunState, m: Message)
    requires m.Spend?
    ensures Carries(r, s, m)
  {
    hide Notes, Overspends, StatusNotes, ReceiptsAfter;
    if Live(s) && m.input >= 0 && m.output >= 0 && m.cost >= 0 {
      SpendNotes(r, s, m);
      hide SpendChange;
    } else {
      assert Decide(r, s, m) == Nothing && !Effective(r, s, m);
    }
  }

  lemma SpendNotes(r: Run, s: RunState, m: Message)
    requires Live(s) && m.Spend? && m.input >= 0 && m.output >= 0 && m.cost >= 0
    ensures Effective(r, s, m)
    ensures var c := SpendChange(r.limits, s, m.input, m.output, m.cost, m.checkpointFails, m.archiveFails);
            c.Commit? && c.events == Notes(r, s, m)
  {
    assert FailureSteps(m.checkpointFails, m.archiveFails) == FailureNotes(m.checkpointFails, m.archiveFails);
    NearExactly(Spent(s, m), r.limits);
    assert Overspends(r.limits, s, m) <==> Exhausts(Spent(s, m), r.limits);
    hide FailureSteps, FailureNotes, Warns, NearLimit, Overspends, Exhausts;
  }

  lemma SegmentCarries(r: Run, s: RunState, m: Message)
    requires m.SegmentStopped?
    ensures Carries(r, s, m)
  {
  }

  /** Every message is recorded exactly as the reference says, and not at all when the store refuses. */
  lemma RecordExact(r: Run, m: Message)
    requires Inv(r) && r.memory.Some?
    ensures Recorded(r, r.memory.value, m, Step(r, m, true)) && Step(r, m, false) == r
  {
    var s := r.memory.value;
    RunSafety.RefusedTransactionChangesNothing(r, m);
    CarriesExactly(r, s, m);
    DecidesExactly(r, s, m);
    assert StatusOk(r.limits, s);
    CarriedIsRecorded(r, s, m);
  }

  lemma FailsExactly(r: Run, s: RunState, m: Message)
    requires Effective(r, s, m) ==> StatusOk(r.limits, s)
    ensures Effective(r, s, m) && StatusAfter(r.limits, s, m) != s.status ==>
              s.status != Failed && (StatusAfter(r.limits, s, m) == Failed <==> Overspends(r.limits, s, m))
  {
    hide Noted, Begun, HasCandidate, ClaimsMatch, EndsReceipted, AdmitAll, Warns, Exhausts, NearLimit;
  }

  lemma NoteIs(r: Run, s: RunState, m: Message, next: RunState)
    requires r.memory == Some(s) && StatusOk(r.limits, s) && Effective(r, s, m) && StateAfter(r.limits, s, m, next)
    ensures StatusNote(r.memory, next) == StatusNotes(r.limits, s, m)
  {
    FailsExactly(r, s, m);
    hide Effective, Overspends, DispatchesAfter, SegmentsAfter, AdviceAfter, Warns, Exhausts, NearLimit, Spent;
    hide StatusAfter;
  }

  lemma CarriedIsRecorded(r: Run, s: RunState, m: Message)
    requires r.memory == r.disk == Some(s) && Carries(r, s, m) && Decides(r, s, m) && StatusOk(r.limits, s)
    ensures Recorded(r, s, m, Step(r, m, true))
  {
    hide Notes, IdleNotes, Effective, StatusOk, StatusAfter, ReceiptsAfter, StateAfter, Decide;
    if Effective(r, s, m) {
      EffectIsRecorded(r, s, m);
    } else {
      NoNote(s);
    }
  }

  lemma EffectIsRecorded(r: Run, s: RunState, m: Message)
    requires r.memory == r.disk == Some(s) && Carries(r, s, m) && Decides(r, s, m) && StatusOk(r.limits, s)
    requires Effective(r, s, m)
    ensures Recorded(r, s, m, Step(r, m, true))
  {
    hide Decide, Notes, IdleNotes, Effective, Overspends, StatusAfter, ReceiptsAfter, StatusNote, StatusOk;
    var c := Decide(r, s, m);
    NoteIs(r, s, m, c.next);
    VersionIs(r, s, m, c.next);
    StatusStays(r, s, m);
    hide StateAfter;
    if !m.AcceptPlan? && !m.AgentEnded? { ReceiptsStay(r, s, m); }
    var status := StatusNotes(r.limits, s, m);
    assert r.ledger + (Notes(r, s, m) + status) == r.ledger + Notes(r, s, m) + status;
    match c
    case Commit(_, _, _) =>
    case CommitAgentReceipt(_, _, _, _) =>
    case CommitIntegration(_, _) =>
      assert status == [] && r.ledger + Notes(r, s, m) + [] == r.ledger + Notes(r, s, m);
  }

  lemma VersionIs(r: Run, s: RunState, m: Message, next: RunState)
    requires StateAfter(r.limits, s, m, next)
    ensures next.version == s.version + 1
  {
  }

  lemma StatusStays(r: Run, s: RunState, m: Message)
    ensures m.Integrated? ==> StatusAfter(r.limits, s, m) == s.status
  {
  }

  lemma ReceiptsStay(r: Run, s: RunState, m: Message)
    requires Effective(r, s, m) && !m.AcceptPlan? && !m.AgentEnded?
    ensures ReceiptsAfter(r, s, m) == r.receipts
  {
  }

  lemma NoNote(s: RunState)
    ensures StatusNote(Some(s), s) == []
  {
  }

  // ----- the whole reaction -----

  /** State, ledger and receipts after a message: the store takes all of it or nothing. */
  ghost predicate Reaction(r: Run, m: Message, ok: bool, after: Run) {
    && Moved(r, m, ok, after)
    && match r.memory
       case Some(s) => if ok then Recorded(r, s, m, after) else after == r
       case None =>
         if ok && m.Create? && m.run == r.id then
           after.ledger == [RunCreated(CreatedKey(r.id)), StatusChanged(Planning, false)] && after.receipts == map[]
         else after == r
  }

  lemma ReactionExact(r: Run, m: Message, ok: bool)
    requires Inv(r)
    ensures Reaction(r, m, ok, Step(r, m, ok))
  {
    EffectExact(r, m, ok);
    if r.memory.Some? { RecordExact(r, m); }
  }

  // ----- how a Run ends -----

  function StatusOf(r: Run): Option<Status> {
    if r.memory.Some? then Some(r.memory.value.status) else None
  }

  /** Which message ends a Run, and how: one that changes the status to this one. */
  predicate EndsAs(m: Message, status: Status) {
    match status
    case Completed => m.Reported? && !m.partial
    case PartiallyCompleted => m.Reported? && m.partial
    case Cancelled => m.Cancel?
    case _ => false
  }

  lemma OneStepEnds(r: Run, m: Message, ok: bool, status: Status)
    requires Inv(r) && status in {Completed, PartiallyCompleted, Cancelled}
    ensures StatusOf(Step(r, m, ok)) == Some(status)
            <==> StatusOf(r) == Some(status) || (EndsAs(m, status) && Step(r, m, ok) != r)
  {
    ReactionExact(r, m, ok);
    hide Inv, Step, StateAfter, Recorded;
    var after := Step(r, m, ok);
    if r.memory.Some? {
      LivingEnds(r, r.memory.value, m, ok, after, status);
    } else if after.memory.Some? {
      assert after.memory.value.status == Planning;
    }
  }

  lemma LivingEnds(r: Run, s: RunState, m: Message, ok: bool, after: Run, status: Status)
    requires Inv(r) && r.memory == Some(s) && status in {Completed, PartiallyCompleted, Cancelled}
    requires after == Step(r, m, ok) && Moved(r, m, ok, after) && Reaction(r, m, ok, after)
    ensures StatusOf(after) == Some(status) <==> s.status == status || (EndsAs(m, status) && after != r)
  {
    hide Inv, Step, StateAfter, Recorded, Effective, StatusAfter, EndsAs, Reaction;
    if ok && Effective(r, s, m) {
      EndsExactly(r, s, m, status);
      StateAfterStatus(r, s, m, after.memory.value);
    }
    if EndsAs(m, status) && after != r { EndingMoves(r, s, m, ok, after, status); }
  }

  lemma StateAfterStatus(r: Run, s: RunState, m: Message, after: RunState)
    requires StateAfter(r.limits, s, m, after)
    ensures after.status == StatusAfter(r.limits, s, m) && after.version != s.version
  {
  }

  /** A message of the kind that ends a Run either moves it or is without any effect. */
  lemma EndingMoves(r: Run, s: RunState, m: Message, ok: bool, after: Run, status: Status)
    requires r.memory == Some(s) && EndsAs(m, status) && Reaction(r, m, ok, after) && after != r
    requires after == Step(r, m, ok) && Inv(r)
    ensures ok && Effective(r, s, m)
  {
    hide Inv, StateAfter, Recorded;
    if ok && !Effective(r, s, m) {
      EndingIsNothing(r, s, m, status);
      hide Decide, Effective, EndsAs;
    }
  }

  lemma EndingIsNothing(r: Run, s: RunState, m: Message, status: Status)
    requires EndsAs(m, status) && !Effective(r, s, m)
    ensures Decide(r, s, m) == Nothing
  {
    KeysAgree(r, s, m);
    hide HasKey, Noted;
  }

  lemma EndsExactly(r: Run, s: RunState, m: Message, status: Status)
    requires status in {Completed, PartiallyCompleted, Cancelled} && Effective(r, s, m)
    ensures StatusAfter(r.limits, s, m) == status <==> s.status == status || EndsAs(m, status)
  {
    hide Noted, Begun, HasCandidate, ClaimsMatch, EndsReceipted, AdmitAll;
  }

  /** The message at `i` took effect and is of the kind that ends a Run this way. */
  ghost predicate EndedAt(r: Run, trace: seq<Delivery>, i: nat, status: Status)
    requires i < |trace|
  {
    EndsAs(trace[i].message, status) && RunSafety.TakesEffect(r, trace, i)
  }

  lemma {:induction false} EndsAlong(id: string, limits: Limits, trace: seq<Delivery>, status: Status)
    requires status in {Completed, PartiallyCompleted, Cancelled}
    ensures StatusOf(Play(Empty(id, limits), trace)) == Some(status)
            <==> exists i: nat :: i < |trace| && EndedAt(Empty(id, limits), trace, i, status)
    decreases |trace|
  {
    hide Step, Inv, EndsAs;
    var r := Empty(id, limits);
    if trace != [] {
      var n := |trace| - 1;
      var front, last := trace[..n], trace[n];
      EndsAlong(id, limits, front, status);
      RunSafety.EveryRunIsSound(id, limits, front);
      OneStepEnds(Play(r, front), last.message, last.ok, status);
      assert trace[..n + 1] == trace;
      forall i: nat | i < n
        ensures EndedAt(r, front, i, status) == EndedAt(r, trace, i, status)
      {
        assert front[..i + 1] == trace[..i + 1] && front[..i] == trace[..i];
      }
      assert EndedAt(r, trace, n, status)
             <==> EndsAs(last.message, status) && Step(Play(r, front), last.message, last.ok) != Play(r, front);
    }
  }

  /**
   How a Run ends, over every message sequence: completed exactly when a full
   report took effect, partially completed exactly when a partial one did,
   cancelled exactly when a cancellation did, and failed exactly when what was
   spent has reached a limit.
   */
  lemma EndsExactlyAs(id: string, limits: Limits, trace: seq<Delivery>)
    ensures var r := Play(Empty(id, limits), trace);
            && (forall status :: status in {Completed, PartiallyCompleted, Cancelled} ==>
                  (StatusOf(r) == Some(status)
                   <==> exists i: nat :: i < |trace| && EndedAt(Empty(id, limits), trace, i, status)))
            && (r.memory.Some? ==>
                  var u := r.memory.value.usage;
                  r.memory.value.status == Failed
                  <==> u.input >= limits.input || u.output >= limits.output || u.cost >= limits.cost)
  {
    RunSafety.EveryRunIsSound(id, limits, trace);
    forall status | status in {Completed, PartiallyCompleted, Cancelled}
      ensures StatusOf(Play(Empty(id, limits), trace)) == Some(status)
              <==> exists i: nat :: i < |trace| && EndedAt(Empty(id, limits), trace, i, status)
    {
      EndsAlong(id, limits, trace, status);
    }
  }

  /**
   An executing Run can always be finished: its last round, its verification and
   its report, under keys that are not used yet, lead to the reported status.
   */
  lemma CanFinish(r: Run, key: string, d: Decision, verify: string, passed: bool, report: string, partial: bool)
    requires Inv(r) && r.memory.Some? && d.complete && Effective(r, r.memory.value, RoundFinished(key, Some(d)))
    requires verify != report && verify != key && report != key
    requires !Noted(r.ledger, verify) && !Noted(r.ledger, report)
    requires forall a :: a in d.terminals ==> TerminalKey(a) != verify && TerminalKey(a) != report
    ensures var end := Step(Step(Step(r, RoundFinished(key, Some(d)), true), Verified(r.id, verify, passed), true),
                            Reported(r.id, report, partial), true);
            StatusOf(end) == Some(if partial then PartiallyCompleted else Completed)
  {
    hide Inv, Step, Noted, Effective;
    var a := Step(r, RoundFinished(key, Some(d)), true);
    FinishesRound(r, key, d, verify);
    FinishesRound(r, key, d, report);
    FinishesVerification(a, verify, passed, report);
    FinishesReport(Step(a, Verified(r.id, verify, passed), true), report, partial);
  }

  /** The ledger of a Run whose plan was just accepted. */
  function PlannedLedger(id: string, agent: string, plan: string): seq<Event> {
    [RunCreated(CreatedKey(id)), StatusChanged(Planning, false),
     AgentRunStarted(StartedKey(agent), agent), AgentRunTerminal(TerminalKey(agent), agent),
     PlanAccepted(PlanKey(id), agent, plan), StatusChanged(Executing, false)]
  }

  /** A Run can always be created, planned and set executing. */
  lemma CanExecute(id: string, limits: Limits, request: string, agent: string, plan: string)
    ensures var a := Step(Empty(id, limits), Create(id, request), true);
            var b := Step(a, AgentStarted(id, agent, true), true);
            var c := Step(b, AcceptPlan(id, agent, plan, true), true);
            && StatusOf(a) == StatusOf(b) == Some(Planning) && StatusOf(c) == Some(Executing)
            && Inv(c) && c.memory.value.plan == Some(plan) && c.memory.value.candidates == []
            && c.id == id && c.ledger == PlannedLedger(id, agent, plan)
  {
    var empty := Empty(id, limits);
    RunSafety.EveryRunIsSound(id, limits, []);
    var a := Step(empty, Create(id, request), true);
    ReactionExact(empty, Create(id, request), true);
    RunSafety.StepKeeps(empty, Create(id, request), true);
    StartsPlanner(a, agent, request);
    var b := Step(a, AgentStarted(id, agent, true), true);
    hide Step, Inv;
    AcceptsPlan(b, agent, plan);
  }

  lemma StartsPlanner(r: Run, agent: string, request: string)
    requires Inv(r) && r.memory.Some? && Fresh(r.memory.value, request) && r.receipts == map[]
    requires r.ledger == [RunCreated(CreatedKey(r.id)), StatusChanged(Planning, false)]
    ensures var b := Step(r, AgentStarted(r.id, agent, true), true);
            && Inv(b) && StatusOf(b) == Some(Planning) && b.memory.value.candidates == [] && b.receipts == map[]
            && b.id == r.id
            && b.ledger == r.ledger + [AgentRunStarted(StartedKey(agent), agent)]
  {
    var start := AgentStarted(r.id, agent, true);
    assert CreatedKey(r.id)[0] == 'r' && StartedKey(agent)[0] == 'a';
    assert !Noted(r.ledger, StartedKey(agent));
    EffectOf(r, r.memory.value, start);
    hide Step, Inv;
    assert r.ledger + Notes(r, r.memory.value, start) + [] == r.ledger + Notes(r, r.memory.value, start);
  }

  lemma AcceptsPlan(r: Run, agent: string, plan: string)
    requires Inv(r) && StatusOf(r) == Some(Planning) && r.memory.value.candidates == [] && r.receipts == map[]
    requires r.ledger == [RunCreated(CreatedKey(r.id)), StatusChanged(Planning, false),
                          AgentRunStarted(StartedKey(agent), agent)]
    ensures var c := Step(r, AcceptPlan(r.id, agent, plan, true), true);
            && Inv(c) && StatusOf(c) == Some(Executing) && c.memory.value.candidates == []
            && c.memory.value.plan == Some(plan) && c.id == r.id && c.ledger == PlannedLedger(r.id, agent, plan)
  {
    hide Step, Inv, Effective, StateAfter, Notes, StatusNotes, ReceiptsAfter;
    hide CreatedKey, StartedKey, TerminalKey, PlanKey;
    var accept := AcceptPlan(r.id, agent, plan, true);
    PlanIsEffective(r, agent, plan);
    var s := r.memory.value;
    EffectOf(r, s, accept);
    PlanTaken(r.limits, s, accept, Step(r, accept, true).memory.value);
    PlanNotes(r, s, agent, plan);
  }

  lemma PlanNotes(r: Run, s: RunState, agent: string, plan: string)
    requires s.status == Planning && Effective(r, s, AcceptPlan(r.id, agent, plan, true))
    ensures Notes(r, s, AcceptPlan(r.id, agent, plan, true))
            == [AgentRunTerminal(TerminalKey(agent), agent),
                PlanAccepted(PlanKey(r.id), agent, plan)]
    ensures StatusNotes(r.limits, s, AcceptPlan(r.id, agent, plan, true)) == [StatusChanged(Executing, false)]
  {
    hide Effective;
  }

  /** An effective message, once more. */
  lemma EffectOf(r: Run, s: RunState, m: Message)
    requires Inv(r) && r.memory == Some(s) && Effective(r, s, m)
    ensures var after := Step(r, m, true);
            && Inv(after) && after.id == r.id && after.limits == r.limits
            && after.memory.Some? && StateAfter(r.limits, s, m, after.memory.value)
            && after.ledger == r.ledger + Notes(r, s, m) + StatusNotes(r.limits, s, m)
            && after.receipts == ReceiptsAfter(r, s, m)
  {
    RunSafety.StepKeeps(r, m, true);
    ReactionExact(r, m, true);
    hide Step, Inv, Effective, StateAfter, Notes, ReceiptsAfter, StatusAfter;
  }

  lemma PlanIsEffective(r: Run, agent: string, plan: string)
    requires StatusOf(r) == Some(Planning) && r.receipts == map[]
    requires r.ledger == [RunCreated(CreatedKey(r.id)), StatusChanged(Planning, false),
                          AgentRunStarted(StartedKey(agent), agent)]
    ensures Effective(r, r.memory.value, AcceptPlan(r.id, agent, plan, true))
  {
    assert CreatedKey(r.id)[4] == 'c' && PlanKey(r.id)[4] == 'p';
    assert StartedKey(agent)[0] == 'a' && PlanKey(r.id)[0] == 'r';
    assert !Noted(r.ledger, PlanKey(r.id));
    assert AgentRunStarted(StartedKey(agent), agent) in r.ledger;
    hide Noted, Begun;
  }

  lemma PlanTaken(l: Limits, s: RunState, m: Message, after: RunState)
    requires m.AcceptPlan? && StateAfter(l, s, m, after)
    ensures after.status == Executing && after.plan == Some(m.plan) && after.candidates == s.candidates
  {
  }

  /**
   Every Run can be brought to its end: created, planned, one last round without
   work left, verified and reported, it ends as the report says.
   */
  lemma EveryRunCanComplete(
    id: string, limits: Limits, request: string, agent: string, plan: string, dispatched: nat,
    round: string, verify: string, passed: bool, report: string, partial: bool)
    requires verify != report && verify != round && report != round
    requires !Noted(PlannedLedger(id, agent, plan), verify) && !Noted(PlannedLedger(id, agent, plan), report)
    ensures var last := RoundFinished(round, Some(Decision(true, dispatched, [], [], [], {})));
            var trace := [Create(id, request), AgentStarted(id, agent, true), AcceptPlan(id, agent, plan, true),
                          last, Verified(id, verify, passed), Reported(id, report, partial)];
            StatusOf(Delivered(Empty(id, limits), trace)) == Some(if partial then PartiallyCompleted else Completed)
  {
    CanExecute(id, limits, request, agent, plan);
    var empty := Empty(id, limits);
    var a := Step(empty, Create(id, request), true);
    var b := Step(a, AgentStarted(id, agent, true), true);
    var c := Step(b, AcceptPlan(id, agent, plan, true), true);
    var d := Decision(true, dispatched, [], [], [], {});
    var last := RoundFinished(round, Some(d));
    hide Step, Inv, Noted;
    assert Effective(c, c.memory.value, last);
    CanFinish(c, round, d, verify, passed, report, partial);
    DeliveredSix(empty, [Create(id, request), AgentStarted(id, agent, true), AcceptPlan(id, agent, plan, true),
                         last, Verified(id, verify, passed), Reported(id, report, partial)]);
  }

  /** The Run after some messages, with a store that works. */
  function Delivered(r: Run, messages: seq<Message>): Run
    decreases |messages|
  {
    if messages == [] then r else Delivered(Step(r, messages[0], true), messages[1..])
  }

  lemma DeliveredSix(r: Run, m: seq<Message>)
    requires |m| == 6
    ensures Delivered(r, m)
            == Step(Step(Step(Step(Step(Step(r, m[0], true), m[1], true), m[2], true), m[3], true), m[4], true),
                    m[5], true)
  {
    hide Step;
    assert m == [m[0], m[1], m[2], m[3], m[4], m[5]];
    var a := Step(r, m[0], true);
    var b := Step(a, m[1], true);
    var c := Step(b, m[2], true);
    var d := Step(c, m[3], true);
    var e := Step(d, m[4], true);
    var f := Step(e, m[5], true);
    assert m[1..][1..] == m[2..] && m[2..][1..] == m[3..] && m[3..][1..] == m[4..] && m[4..][1..] == m[5..];
    assert m[5..][1..] == [];
    assert Delivered(e, m[5..]) == Delivered(f, []);
    assert Delivered(d, m[4..]) == Delivered(e, m[5..]);
    assert Delivered(c, m[3..]) == Delivered(d, m[4..]);
    assert Delivered(b, m[2..]) == Delivered(c, m[3..]);
    assert Delivered(a, m[1..]) == Delivered(b, m[2..]);
  }

  lemma FinishesRound(r: Run, key: string, d: Decision, other: string)
    requires Inv(r) && r.memory.Some? && d.complete && Effective(r, r.memory.value, RoundFinished(key, Some(d)))
    requires other != key && !Noted(r.ledger, other) && forall a :: a in d.terminals ==> TerminalKey(a) != other
    ensures var a := Step(r, RoundFinished(key, Some(d)), true);
            Inv(a) && a.id == r.id && StatusOf(a) == Some(Verifying) && !Noted(a.ledger, other)
  {
    var round := RoundFinished(key, Some(d));
    RunSafety.StepKeeps(r, round, true);
    ReactionExact(r, round, true);
    hide Inv, Step, Noted, Effective, Recorded, AdmitAll, ClaimsMatch, EndsReceipted;
    RoundKeys(r, r.memory.value, key, d, Step(r, round, true), other);
  }

  lemma FinishesVerification(r: Run, key: string, passed: bool, other: string)
    requires Inv(r) && StatusOf(r) == Some(Verifying) && !Noted(r.ledger, key)
    requires other != key && !Noted(r.ledger, other)
    ensures var a := Step(r, Verified(r.id, key, passed), true);
            Inv(a) && a.id == r.id && StatusOf(a) == Some(Reporting) && !Noted(a.ledger, other)
  {
    var check := Verified(r.id, key, passed);
    RunSafety.StepKeeps(r, check, true);
    ReactionExact(r, check, true);
    hide Inv, Step, Noted, Recorded;
    VerifiedKeys(r, r.memory.value, key, passed, Step(r, check, true), other);
  }

  lemma FinishesReport(r: Run, key: string, partial: bool)
    requires Inv(r) && StatusOf(r) == Some(Reporting) && !Noted(r.ledger, key)
    ensures StatusOf(Step(r, Reported(r.id, key, partial), true))
            == Some(if partial then PartiallyCompleted else Completed)
  {
    ReactionExact(r, Reported(r.id, key, partial), true);
    hide Inv, Step, Noted, Recorded;
  }

  lemma {:induction false} EndNoteKeys(ledger: seq<Event>, agents: seq<string>)
    ensures forall e :: e in EndNotes(ledger, agents) ==>
              exists a :: a in agents && KeyOf(e) == Some(TerminalKey(a))
  {
    if agents != [] {
      var front, last := agents[..|agents| - 1], agents[|agents| - 1];
      EndNoteKeys(ledger, front);
      forall e | e in EndNotes(ledger, agents)
        ensures exists a :: a in agents && KeyOf(e) == Some(TerminalKey(a))
      {
        if e in EndNotes(ledger, front) {
          var a :| a in front && KeyOf(e) == Some(TerminalKey(a));
          assert a in agents;
        } else {
          assert KeyOf(e) == Some(TerminalKey(last)) && last in agents;
        }
      }
    }
  }

  lemma KeyBeyond(before: seq<Event>, added: seq<Event>, key: string)
    requires forall e :: e in added ==> KeyOf(e) != Some(key)
    ensures Noted(before + added, key) <==> Noted(before, key)
  {
    forall i | |before| <= i < |before + added|
      ensures KeyOf((before + added)[i]) != Some(key)
    {
      assert (before + added)[i] == added[i - |before|] && added[i - |before|] in added;
    }
    assert forall i :: 0 <= i < |before| ==> (before + added)[i] == before[i];
    if i :| 0 <= i < |before| && KeyOf(before[i]) == Some(key) {
      assert (before + added)[i] == before[i];
    }
  }

  lemma RoundKeys(r: Run, s: RunState, key: string, d: Decision, after: Run, other: string)
    requires r.memory == Some(s) && d.complete && Effective(r, s, RoundFinished(key, Some(d)))
    requires Recorded(r, s, RoundFinished(key, Some(d)), after)
    requires other != key && forall a :: a in d.terminals ==> TerminalKey(a) != other
    ensures Noted(after.ledger, other) <==> Noted(r.ledger, other)
  {
    hide Noted, AdmitAll, ClaimsMatch, EndsReceipted;
    var ends := EndNotes(r.ledger, d.terminals);
    var notes := CandidateNotes(AdmitAll(s.candidates, d.claims).value.accepted);
    var last := [RoundCommitted(key, d.complete, d.dispatchCount)];
    EndNoteKeys(r.ledger, d.terminals);
    var added := ends + notes + last + [StatusChanged(Verifying, false)];
    assert after.ledger == r.ledger + added;
    KeyBeyond(r.ledger, added, other);
  }

  lemma VerifiedKeys(r: Run, s: RunState, key: string, passed: bool, after: Run, other: string)
    requires r.memory == Some(s) && Effective(r, s, Verified(r.id, key, passed))
    requires Recorded(r, s, Verified(r.id, key, passed), after) && other != key
    ensures Noted(after.ledger, other) <==> Noted(r.ledger, other)
  {
    hide Noted;
    var added := [VerifyCompleted(key, passed)] + [StatusChanged(Reporting, false)];
    assert after.ledger == r.ledger + added;
    KeyBeyond(r.ledger, added, other);
  }
}
