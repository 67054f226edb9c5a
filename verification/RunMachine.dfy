/**
 The single-writer Run actor as a state machine (`runtime/actor.py`,
 `runtime/contracts.py`, `runtime/budget.py`): what one message does to the
 actor's memory, to the stored state and to the append-only event ledger.
 `RunActors` holds the handlers themselves.
 */
module RunMachine {
  import opened Counting
  import opened Options
  import opened CandidateChain

  datatype Status =
    Created | Planning | Executing | Verifying | Reporting | Completed | PartiallyCompleted | Failed | Cancelled

  predicate Terminal(s: Status) {
    s == Completed || s == PartiallyCompleted || s == Failed || s == Cancelled
  }

  type Positive = n: nat | n > 0 witness 1

  datatype Limits = Limits(input: Positive, output: Positive, cost: Positive)

  datatype Usage = Usage(input: nat, output: nat, cost: nat)

  /** Some dimension has used at least 80% of its limit. */
  predicate Warns(u: Usage, l: Limits) {
    5 * u.input >= 4 * l.input || 5 * u.output >= 4 * l.output || 5 * u.cost >= 4 * l.cost
  }

  predicate Exhausts(u: Usage, l: Limits) {
    u.input >= l.input || u.output >= l.output || u.cost >= l.cost
  }

  datatype Dispatch = Dispatch(attempt: string, subject: string, check: string, commit: Oid)

  predicate SameKey(a: Dispatch, b: Dispatch) {
    a.subject == b.subject && a.check == b.check
  }

  datatype RunState = RunState(
    status: Status, version: nat, cancelRequested: bool, budgetFailed: bool, callsEnabled: bool,
    usage: Usage, warned: bool, dispatches: seq<Dispatch>, continuations: map<int, nat>,
    failedSlices: seq<string>, adopted: seq<string>, pending: seq<string>, reportingHalted: bool,
    request: string, plan: Option<string>, candidates: seq<Fact>)

  datatype Event =
    | RunCreated(key: string)
    | StatusChanged(status: Status, budgetFailed: bool)
    | AgentRunStarted(key: string, agent: string)
    | AgentRunTerminal(key: string, agent: string)
    | PlanAccepted(key: string, agent: string, plan: string)
    | IntegrationReceipted(key: string, slice: string, generation: nat, oid: Oid)
    | VerifiedAdvanced(slice: string, generation: nat, oid: Oid)
    | CandidateAccepted(agent: string, slice: string, generation: nat)
    | RoundCommitted(key: string, complete: bool, dispatchCount: nat)
    | VerifyCompleted(key: string, passed: bool)
    | ReportCompleted(key: string, status: Status)
    | RunCancelled
    | InputAccepted(kind: string)
    | ConfirmationRejected(id: string)
    | AdviceConfirmed(id: string)
    | AdviceNoted(kind: string)
    | ContinuationScheduled(segment: int, continuation: nat)
    | SliceFailed(reason: string)
    | DispatchStarted(attempt: string, check: string)
    | DispatchCompleted(result: string)
    | LateDispatchResult
    | BudgetWarning
    | BudgetStep(name: string)
    | RecoveryStep(name: string)

  function KeyOf(e: Event): Option<string> {
    match e
    case RunCreated(k) => Some(k)
    case AgentRunStarted(k, _) => Some(k)
    case AgentRunTerminal(k, _) => Some(k)
    case PlanAccepted(k, _, _) => Some(k)
    case IntegrationReceipted(k, _, _, _) => Some(k)
    case RoundCommitted(k, _, _) => Some(k)
    case VerifyCompleted(k, _) => Some(k)
    case ReportCompleted(k, _) => Some(k)
    case _ => None
  }

  predicate HasKey(ledger: seq<Event>, key: string) {
    exists i :: 0 <= i < |ledger| && KeyOf(ledger[i]) == Some(key)
  }

  predicate HasStarted(ledger: seq<Event>, agent: string) {
    exists i :: 0 <= i < |ledger| && ledger[i].AgentRunStarted? && ledger[i].agent == agent
  }

  predicate HasEnded(ledger: seq<Event>, agent: string) {
    exists i :: 0 <= i < |ledger| && ledger[i].AgentRunTerminal? && ledger[i].agent == agent
  }

  function CreatedKey(run: string): string { "run.created:" + run }
  function PlanKey(run: string): string { "run.plan.accepted:" + run }
  function StartedKey(agent: string): string { "agent_run.started:" + agent }
  function TerminalKey(agent: string): string { "agent_run.terminal:" + agent }
  function IntegratedKey(intent: string): string { "integration.completed:" + intent }

  datatype Disposition = AutoAdopted | ConfirmationRequired | Discarded

  datatype Decision = Decision(
    complete: bool, dispatchCount: nat, completed: seq<string>, claims: seq<Claim>, terminals: seq<string>,
    soundTerminals: set<string>)

  /**
   What reaches the mailbox.  `sound` and `durable` stand for the checks of
   stored AgentRun records, digests and integration receipts that read nothing
   of the Run state.
   */
  datatype Message =
    | Create(run: string, request: string)
    | Cancel(expected: int)
    | Input(kind: string)
    | ConfirmAdvice(id: string)
    | SegmentStopped(segment: Option<int>, progress: bool, slice: string)
    | DispatchStart(run: string, dispatch: Dispatch)
    | DispatchFinish(run: string, dispatch: Dispatch, result: string)
    | Spend(input: int, output: int, cost: int, checkpointFails: bool, archiveFails: bool)
    | Recover(known: bool, interrupted: seq<string>, missing: seq<string>, corrupt: bool, drift: bool)
    | Advise(run: string, id: string, disposition: Disposition)
    | AcceptPlan(run: string, agent: string, plan: string, sound: bool)
    | AgentStarted(run: string, agent: string, sound: bool)
    | AgentEnded(run: string, agent: string, sound: bool, sameFacts: bool)
    | Integrated(run: string, intent: string, slice: string, generation: nat, oid: Oid, durable: bool)
    | Verified(run: string, key: string, passed: bool)
    | Reported(run: string, key: string, partial: bool)
    | RoundFinished(key: string, decision: Option<Decision>)

  /** Which command recorded an AgentRun's terminal receipt. */
  datatype Category = PlanReceipt | SessionReceipt

  /** One Run: what the actor holds in memory, and what the store holds. */
  datatype Run = Run(
    id: string, limits: Limits, memory: Option<RunState>, disk: Option<RunState>,
    ledger: seq<Event>, receipts: map<string, Category>, history: seq<Fact>)

  /** The transaction a handler attempts. */
  datatype Change =
    | Nothing
    | Commit(next: RunState, events: seq<Event>, accepted: seq<Fact>)
    | CommitAgentReceipt(next: RunState, events: seq<Event>, agent: string, category: Category)
    | CommitIntegration(next: RunState, events: seq<Event>)

  function StatusNote(before: Option<RunState>, next: RunState): seq<Event> {
    if before.Some? && before.value.status != next.status then [StatusChanged(next.status, next.budgetFailed)] else []
  }

  /** The three ways a transaction reaches the store; `ok` is false when the store fails. */
  function Apply(r: Run, c: Change, ok: bool): Run {
    match c
    case Nothing => r
    case Commit(next, events, accepted) =>
      if !ok || r.disk.None? then r
      else r.(memory := Some(next), disk := Some(next), ledger := r.ledger + (events + StatusNote(r.memory, next)),
              history := r.history + accepted)
    case CommitAgentReceipt(next, events, agent, category) =>
      // The store answers a receipt it already has; the actor then only changes its memory.
      if agent in r.receipts then (if r.receipts[agent] == category then r.(memory := Some(next)) else r)
      else if !ok || r.disk.None? || next.version != r.disk.value.version + 1 then r
      else r.(memory := Some(next), disk := Some(next), ledger := r.ledger + events,
              receipts := r.receipts[agent := category])
    case CommitIntegration(next, events) =>
      if !ok || r.disk.None? || next.version != r.disk.value.version + 1 then r
      else r.(memory := Some(next), disk := Some(next), ledger := r.ledger + events)
  }

  function Bump(s: RunState): RunState {
    s.(version := s.version + 1)
  }

  function InitialState(request: string): RunState {
    RunState(Planning, 1, false, false, true, Usage(0, 0, 0), false, [], map[], [], [], [], false, request, None, [])
  }

  function CreateRun(r: Run, request: string, ok: bool): Run {
    if !ok || r.disk.Some? then r
    else
      var s := InitialState(request);
      r.(memory := Some(s), disk := Some(s), ledger := [RunCreated(CreatedKey(r.id)), StatusChanged(Planning, false)])
  }

  function CancelChange(s: RunState, expected: int): Change {
    if expected != s.version || Terminal(s.status) then Nothing
    else
      Commit(
        Bump(s).(status := Cancelled, cancelRequested := true, callsEnabled := false, dispatches := []),
        [RunCancelled], [])
  }

  function Without(ids: seq<string>, id: string): (r: seq<string>)
    ensures forall x :: x in r <==> x in ids && x != id
  {
    if ids == [] then [] else (if ids[0] == id then [] else [ids[0]]) + Without(ids[1..], id)
  }

  function ConfirmChange(s: RunState, id: string): Change {
    if Terminal(s.status) then Nothing
    else if id !in s.pending then Commit(s, [ConfirmationRejected(id)], [])
    else Commit(Bump(s).(pending := Without(s.pending, id), adopted := s.adopted + [id]), [AdviceConfirmed(id)], [])
  }

  const MAX_CONTINUATIONS: nat := 3

  function CountOf(counts: map<int, nat>, generation: int): nat {
    if generation in counts then counts[generation] else 0
  }

  function Schedule(s: RunState, g: int): Change {
    var n := CountOf(s.continuations, g) + 1;
    Commit(Bump(s).(continuations := s.continuations[g := n]), [ContinuationScheduled(g, n)], [])
  }

  function FailSlice(s: RunState, g: int, slice: string): Change {
    var failed := if slice in s.failedSlices then s.failedSlices else s.failedSlices + [slice];
    Commit(
      Bump(s).(continuations := s.continuations[g := CountOf(s.continuations, g)], failedSlices := failed),
      [SliceFailed("INDEPENDENT_SLICE_TERMINAL_FAILURE")], [])
  }

  function SegmentChange(s: RunState, segment: Option<int>, progress: bool, slice: string): Change {
    if Terminal(s.status) then Nothing
    else if segment.None? || !(0 <= segment.value < 3) then Commit(Bump(s), [SliceFailed("INVALID_GENERATION")], [])
    else if s.callsEnabled && progress && CountOf(s.continuations, segment.value) < MAX_CONTINUATIONS then
      Schedule(s, segment.value)
    else FailSlice(s, segment.value, slice)
  }

  function DispatchOf(dispatches: seq<Dispatch>, d: Dispatch): (r: Option<Dispatch>)
    ensures r.Some? ==> r.value in dispatches && SameKey(r.value, d)
    ensures r.None? ==> forall x :: x in dispatches ==> !SameKey(x, d)
  {
    if dispatches == [] then None
    else if SameKey(dispatches[0], d) then Some(dispatches[0])
    else DispatchOf(dispatches[1..], d)
  }

  function WithoutDispatch(dispatches: seq<Dispatch>, d: Dispatch): (r: seq<Dispatch>)
    ensures forall x :: x in r <==> x in dispatches && x != d
  {
    if dispatches == [] then []
    else (if dispatches[0] == d then [] else [dispatches[0]]) + WithoutDispatch(dispatches[1..], d)
  }

  function StartChange(s: RunState, sameRun: bool, d: Dispatch): Change {
    if !sameRun || Terminal(s.status) || !s.callsEnabled || s.cancelRequested then Nothing
    else if DispatchOf(s.dispatches, d).Some? then Nothing
    else
      Commit(
        Bump(s).(status := Executing, dispatches := s.dispatches + [d]), [DispatchStarted(d.attempt, d.check)], [])
  }

  function FinishChange(s: RunState, sameRun: bool, d: Dispatch, result: string): Change {
    if !sameRun || DispatchOf(s.dispatches, d) != Some(d) then Commit(s, [LateDispatchResult], [])
    else Commit(Bump(s).(dispatches := WithoutDispatch(s.dispatches, d)), [DispatchCompleted(result)], [])
  }

  datatype Evaluation = Evaluation(usage: Usage, warning: bool, exhausted: bool)

  /** Utilization is compared as an exact fraction: 80% warns, once, and 100% exhausts. */
  function EvaluateBudget(previous: Usage, l: Limits, input: nat, output: nat, cost: nat, warned: bool): Evaluation {
    var usage := Usage(previous.input + input, previous.output + output, previous.cost + cost);
    Evaluation(usage, !warned && Warns(usage, l), Exhausts(usage, l))
  }

  function SpendChange(
    l: Limits, s: RunState, input: int, output: int, cost: int, checkpointFails: bool, archiveFails: bool): Change
  {
    if Terminal(s.status) || input < 0 || output < 0 || cost < 0 then Nothing
    else
      var evaluation := EvaluateBudget(s.usage, l, input, output, cost, s.warned);
      var spent := Bump(s).(usage := evaluation.usage, warned := s.warned || evaluation.warning);
      var head := if evaluation.warning then [BudgetWarning] else [];
      if !evaluation.exhausted then Commit(spent, head, [])
      else
        Commit(
          spent.(status := Failed, budgetFailed := true, callsEnabled := false, dispatches := []),
          head + FailureSteps(checkpointFails, archiveFails), [])
  }

  function FailureSteps(checkpointFails: bool, archiveFails: bool): seq<Event> {
    [BudgetStep("checkpoint.pre")]
    + (if checkpointFails then [BudgetStep("checkpoint.write_failed")] else [])
    + (if archiveFails then [BudgetStep("archive.failed")] else [])
    + [BudgetStep("run.archived"), BudgetStep("run.failed"), BudgetStep("budget.exhausted")]
  }

  function RecoverySteps(names: seq<string>): (r: seq<Event>)
    ensures |r| == |names| && forall i :: 0 <= i < |r| ==> r[i] == RecoveryStep(names[i])
  {
    if names == [] then [] else [RecoveryStep(names[0])] + RecoverySteps(names[1..])
  }

  function RecoverChange(
    s: RunState, known: bool, interrupted: seq<string>, missing: seq<string>, corrupt: bool, drift: bool): Change
  {
    if !known then Nothing
    else
      Commit(
        Bump(s).(dispatches := [], reportingHalted := drift),
        RecoverySteps(
          ["recovery.actor_rebuilt"] + interrupted + ["git.refs.reconciled", "receipts.repaired"] + missing
          + (if corrupt then ["checkpoint.discarded"] else []) + (if drift then ["recovery.ref_drift"] else [])
          + ["recovery.completed"]), [])
  }

  function AdviseChange(s: RunState, sameRun: bool, id: string, disposition: Disposition): Change {
    if !sameRun || disposition == Discarded then Commit(s, [AdviceNoted("advice.discarded")], [])
    else if disposition == AutoAdopted then
      if id in s.adopted then Commit(s, [AdviceNoted("advice.duplicate")], [])
      else Commit(Bump(s).(adopted := s.adopted + [id]), [AdviceNoted("advice.adopted")], [])
    else
      if id in s.pending then Commit(s, [AdviceNoted("advice.duplicate")], [])
      else Commit(Bump(s).(pending := s.pending + [id]), [AdviceNoted("advice.confirmation_required")], [])
  }

  function PlanChange(r: Run, s: RunState, agent: string, plan: string, sound: bool): Change {
    if HasKey(r.ledger, PlanKey(r.id)) || s.status != Planning || !sound || !HasStarted(r.ledger, agent) then Nothing
    else
      CommitAgentReceipt(
        Bump(s).(status := Executing, plan := Some(plan)),
        [AgentRunTerminal(TerminalKey(agent), agent), PlanAccepted(PlanKey(r.id), agent, plan),
         StatusChanged(Executing, s.budgetFailed)], agent, PlanReceipt)
  }

  function AgentStartedChange(r: Run, s: RunState, agent: string, sound: bool): Change {
    if HasKey(r.ledger, StartedKey(agent)) || !sound || (s.status != Planning && s.status != Executing) then Nothing
    else Commit(Bump(s), [AgentRunStarted(StartedKey(agent), agent)], [])
  }

  function AgentEndedChange(r: Run, s: RunState, agent: string, sound: bool, sameFacts: bool): Change {
    if HasKey(r.ledger, TerminalKey(agent)) || s.status != Executing || !sound || !HasStarted(r.ledger, agent) then
      Nothing
    else if agent in r.receipts && !sameFacts then Nothing
    else CommitAgentReceipt(Bump(s), [AgentRunTerminal(TerminalKey(agent), agent)], agent, SessionReceipt)
  }

  function IntegratedChange(
    r: Run, s: RunState, intent: string, slice: string, generation: nat, oid: Oid, durable: bool): Change
  {
    if HasKey(r.ledger, IntegratedKey(intent)) || s.status != Executing || s.plan.None? || !durable
       || Current(s.candidates, slice, generation).None? then Nothing
    else
      CommitIntegration(
        Bump(s),
        [IntegrationReceipted(IntegratedKey(intent), slice, generation, oid), VerifiedAdvanced(slice, generation, oid)])
  }

  function VerifiedChange(r: Run, s: RunState, key: string, passed: bool): Change {
    if HasKey(r.ledger, key) || s.status != Verifying then Nothing
    else Commit(Bump(s).(status := Reporting), [VerifyCompleted(key, passed)], [])
  }

  function ReportedChange(r: Run, s: RunState, key: string, partial: bool): Change {
    var status := if partial then PartiallyCompleted else Completed;
    if HasKey(r.ledger, key) || s.status != Reporting then Nothing
    else Commit(Bump(s).(status := status), [ReportCompleted(key, status)], [])
  }

  function Claimants(claims: seq<Claim>): (r: seq<string>)
    ensures |r| == |claims| && forall i :: 0 <= i < |r| ==> r[i] == claims[i].agent
  {
    seq(|claims|, i requires 0 <= i < |claims| => claims[i].agent)
  }

  /** The claims name exactly the completed write AgentRuns, once each, and those are among the terminal ones. */
  predicate ClaimsComplete(d: Decision) {
    && Distinct(Claimants(d.claims)) && Distinct(d.completed) && Distinct(d.terminals)
    && (forall a :: a in d.completed ==> a in Claimants(d.claims) && a in d.terminals)
    && (forall a :: a in Claimants(d.claims) ==> a in d.completed)
  }

  predicate TerminalsSound(r: Run, d: Decision) {
    forall a :: a in d.terminals ==>
      a in r.receipts && r.receipts[a] == SessionReceipt && a in d.soundTerminals && HasStarted(r.ledger, a)
  }

  function MissingEnd(ledger: seq<Event>, agent: string): (r: seq<Event>)
    ensures forall e :: e in r ==> e.AgentRunTerminal?
  {
    if HasEnded(ledger, agent) then [] else [AgentRunTerminal(TerminalKey(agent), agent)]
  }

  function MissingEnds(ledger: seq<Event>, agents: seq<string>): (r: seq<Event>)
    ensures forall e :: e in r ==> e.AgentRunTerminal?
  {
    if agents == [] then [] else MissingEnd(ledger, agents[0]) + MissingEnds(ledger, agents[1..])
  }

  function AcceptanceNotes(facts: seq<Fact>): (r: seq<Event>)
    ensures forall e :: e in r ==> e.CandidateAccepted?
  {
    if facts == [] then []
    else [CandidateAccepted(facts[0].agent, facts[0].slice, facts[0].generation)] + AcceptanceNotes(facts[1..])
  }

  function RoundChange(r: Run, s: RunState, key: string, d: Decision): Change {
    if s.status != Executing || s.plan.None? || !ClaimsComplete(d) || !TerminalsSound(r, d) then Nothing
    else
      var admission := AdmitAll(s.candidates, d.claims);
      if admission.None? then Nothing
      else
        Commit(
          Bump(s).(status := if d.complete then Verifying else Executing, candidates := admission.value.facts),
          MissingEnds(r.ledger, d.terminals) + AcceptanceNotes(admission.value.accepted)
          + [RoundCommitted(key, d.complete, d.dispatchCount)],
          admission.value.accepted)
  }

  /** What a message makes the actor of an existing Run attempt. */
  function Decide(r: Run, s: RunState, m: Message): Change {
    match m
    case Create(_, _) => Nothing
    case Cancel(expected) => CancelChange(s, expected)
    case Input(kind) => if Terminal(s.status) then Nothing else Commit(Bump(s), [InputAccepted(kind)], [])
    case ConfirmAdvice(id) => ConfirmChange(s, id)
    case SegmentStopped(segment, progress, slice) => SegmentChange(s, segment, progress, slice)
    case DispatchStart(run, d) => StartChange(s, run == r.id, d)
    case DispatchFinish(run, d, result) => FinishChange(s, run == r.id, d, result)
    case Spend(input, output, cost, checkpointFails, archiveFails) =>
      SpendChange(r.limits, s, input, output, cost, checkpointFails, archiveFails)
    case Recover(known, interrupted, missing, corrupt, drift) =>
      RecoverChange(s, known, interrupted, missing, corrupt, drift)
    case Advise(run, id, disposition) => AdviseChange(s, run == r.id, id, disposition)
    case AcceptPlan(run, agent, plan, sound) => if run == r.id then PlanChange(r, s, agent, plan, sound) else Nothing
    case AgentStarted(run, agent, sound) => if run == r.id then AgentStartedChange(r, s, agent, sound) else Nothing
    case AgentEnded(run, agent, sound, same) =>
      if run == r.id then AgentEndedChange(r, s, agent, sound, same) else Nothing
    case Integrated(run, intent, slice, generation, oid, durable) =>
      if run == r.id then IntegratedChange(r, s, intent, slice, generation, oid, durable) else Nothing
    case Verified(run, key, passed) => if run == r.id then VerifiedChange(r, s, key, passed) else Nothing
    case Reported(run, key, partial) => if run == r.id then ReportedChange(r, s, key, partial) else Nothing
    case RoundFinished(key, decision) => if decision.Some? then RoundChange(r, s, key, decision.value) else Nothing
  }

  /** One message, with a store that works (`ok`) or fails. */
  function Step(r: Run, m: Message, ok: bool): Run {
    if r.memory.Some? then Apply(r, Decide(r, r.memory.value, m), ok)
    else if m.Create? && m.run == r.id then CreateRun(r, m.request, ok)
    else r
  }

  datatype Delivery = Delivery(message: Message, ok: bool)

  function Play(r: Run, trace: seq<Delivery>): Run
    decreases |trace|
  {
    if trace == [] then r
    else
      var last := |trace| - 1;
      Step(Play(r, trace[..last]), trace[last].message, trace[last].ok)
  }

  function Empty(id: string, limits: Limits): Run {
    Run(id, limits, None, None, [], map[], [])
  }

  // ----- what the ledger says about the state -----

  /** The status, plans, warnings and continuations the ledger reports. */
  datatype Summary = Summary(status: Option<Status>, plans: seq<string>, warnings: nat, continued: map<int, nat>)

  function Note(sum: Summary, e: Event): Summary {
    match e
    case StatusChanged(status, _) => sum.(status := Some(status))
    case PlanAccepted(_, _, plan) => sum.(plans := sum.plans + [plan])
    case BudgetWarning => sum.(warnings := sum.warnings + 1)
    case ContinuationScheduled(g, _) => sum.(continued := sum.continued[g := CountOf(sum.continued, g) + 1])
    case _ => sum
  }

  function Summarize(ledger: seq<Event>): Summary {
    if ledger == [] then Summary(None, [], 0, map[])
    else Note(Summarize(ledger[..|ledger| - 1]), ledger[|ledger| - 1])
  }

  /** An event that reports none of these, nor an integration. */
  predicate Quiet(e: Event) {
    !e.StatusChanged? && !e.PlanAccepted? && !e.BudgetWarning? && !e.ContinuationScheduled? && !e.VerifiedAdvanced?
  }

  predicate AllQuiet(events: seq<Event>) {
    forall i :: 0 <= i < |events| ==> Quiet(events[i])
  }

  lemma SummarizeOne(ledger: seq<Event>, e: Event)
    ensures Summarize(ledger + [e]) == Note(Summarize(ledger), e)
  {
    assert (ledger + [e])[..|ledger|] == ledger;
  }

  lemma {:induction false} SummarizeQuiet(ledger: seq<Event>, events: seq<Event>)
    requires AllQuiet(events)
    ensures Summarize(ledger + events) == Summarize(ledger)
  {
    if events == [] {
      assert ledger + events == ledger;
    } else {
      var last := |events| - 1;
      SummarizeQuiet(ledger, events[..last]);
      SummarizeOne(ledger + events[..last], events[last]);
      assert (ledger + events[..last]) + [events[last]] == ledger + events;
    }
  }

  // ----- invariants -----

  predicate DispatchesDistinct(dispatches: seq<Dispatch>) {
    forall i, j :: 0 <= i < j < |dispatches| ==> !SameKey(dispatches[i], dispatches[j])
  }

  predicate ContinuationsBounded(counts: map<int, nat>) {
    forall g :: g in counts ==> 0 <= g < 3 && counts[g] <= MAX_CONTINUATIONS
  }

  ghost predicate StatusOk(l: Limits, s: RunState) {
    && s.version >= 1 && s.status != Created
    && (s.status in {Verifying, Reporting, Completed, PartiallyCompleted} ==> s.plan.Some?)
    && (s.status == Planning ==> s.plan.None?)
    && (!s.callsEnabled <==> s.status in {Failed, Cancelled})
    && (!s.callsEnabled ==> s.dispatches == [])
    && (s.cancelRequested <==> s.status == Cancelled)
    && (s.budgetFailed <==> s.status == Failed)
    && (s.warned <==> Warns(s.usage, l))
    && (s.budgetFailed <==> Exhausts(s.usage, l))
  }

  ghost predicate ListsOk(s: RunState) {
    && DispatchesDistinct(s.dispatches) && ContinuationsBounded(s.continuations)
    && Distinct(s.pending) && Distinct(s.failedSlices)
  }

  ghost predicate SummaryOk(s: RunState, sum: Summary) {
    && sum.plans == (if s.plan.Some? then [s.plan.value] else [])
    && sum.warnings == (if s.warned then 1 else 0)
    && forall g :: CountOf(sum.continued, g) == CountOf(s.continuations, g)
  }

  ghost predicate LedgerOk(s: RunState, ledger: seq<Event>) {
    SummaryOk(s, Summarize(ledger)) && Summarize(ledger).status == Some(s.status)
  }

  /** A verified head only ever advanced for a pair with an accepted candidate. */
  ghost predicate AdvancesBacked(ledger: seq<Event>, candidates: seq<Fact>) {
    forall i :: 0 <= i < |ledger| && ledger[i].VerifiedAdvanced? ==>
      Current(candidates, ledger[i].slice, ledger[i].generation).Some?
  }

  ghost predicate ReceiptsOk(receipts: map<string, Category>, ledger: seq<Event>, plan: Option<string>) {
    forall a :: a in receipts ==>
      HasKey(ledger, TerminalKey(a)) && HasEnded(ledger, a) && (receipts[a] == PlanReceipt ==> plan.Some?)
  }

  ghost predicate StateOk(
    l: Limits, s: RunState, ledger: seq<Event>, receipts: map<string, Category>, history: seq<Fact>)
  {
    && StatusOk(l, s) && ListsOk(s) && LedgerOk(s, ledger)
    && ChainInv(s.candidates, history) && AdvancesBacked(ledger, s.candidates)
    && ReceiptsOk(receipts, ledger, s.plan)
  }

  /** Memory and store agree, and everything above holds of the state. */
  ghost predicate Inv(r: Run) {
    && r.memory == r.disk
    && (r.memory.None? ==> r.ledger == [] && r.receipts == map[] && r.history == [])
    && (r.memory.Some? ==> StateOk(r.limits, r.memory.value, r.ledger, r.receipts, r.history))
  }
}
