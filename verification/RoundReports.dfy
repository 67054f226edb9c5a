/**
 What an execution round reports to the Run actor (the end of
 `advance_one_round` in `runtime/execution_agent.py`), and when the actor takes
 the report.
 */
module RoundReports {
  import opened Counting
  import opened Options
  import opened CandidateChain
  import opened RunMachine
  import RunEffects

  /** An AgentRun that ended, with the receipt of its candidate checkpoint if it left one. */
  datatype Ended = Ended(agent: string, receipt: Option<Claim>)

  function AgentsOf(ended: seq<Ended>): (r: seq<string>)
    ensures |r| == |ended| && forall i :: 0 <= i < |r| ==> r[i] == ended[i].agent
  {
    seq(|ended|, i requires 0 <= i < |ended| => ended[i].agent)
  }

  /** Those that left a candidate, in order. */
  function WithCandidate(ended: seq<Ended>): (r: seq<Ended>)
    ensures forall e :: e in r <==> e in ended && e.receipt.Some?
  {
    if ended == [] then []
    else
      var front, last := ended[..|ended| - 1], ended[|ended| - 1];
      assert ended == front + [last];
      WithCandidate(front) + if last.receipt.Some? then [last] else []
  }

  /** A report of these AgentRuns: all of them ended, and those with a candidate claim it, each under its own name. */
  ghost predicate Reports(ended: seq<Ended>, d: Decision) {
    var found := WithCandidate(ended);
    && d.terminals == AgentsOf(ended) && d.completed == AgentsOf(found)
    && |d.claims| == |found|
    && forall k :: 0 <= k < |found| ==>
         found[k].receipt.Some? && d.claims[k] == found[k].receipt.value.(agent := found[k].agent)
  }

  lemma OneMoreReported(ended: seq<Ended>, e: Ended, d: Decision, more: Decision)
    requires Reports(ended, d)
    requires more == d.(terminals := d.terminals + [e.agent],
                        completed := d.completed + if e.receipt.Some? then [e.agent] else [],
                        claims := d.claims + if e.receipt.Some? then [e.receipt.value.(agent := e.agent)] else [])
    ensures Reports(ended + [e], more)
  {
    var longer := ended + [e];
    assert longer[..|ended|] == ended && longer[|ended|] == e;
    assert AgentsOf(longer) == AgentsOf(ended) + [e.agent];
    var found := WithCandidate(ended);
    assert WithCandidate(longer) == found + if e.receipt.Some? then [e] else [];
    assert found + [] == found && d.completed + [] == d.completed && d.claims + [] == d.claims;
  }

  /** Add AgentRuns to a report, in order. */
  method Collect(before: Decision, ghost earlier: seq<Ended>, ended: seq<Ended>) returns (d: Decision)
    requires Reports(earlier, before)
    ensures Reports(earlier + ended, d)
    ensures d.complete == before.complete && d.dispatchCount == before.dispatchCount
    ensures d.soundTerminals == before.soundTerminals
  {
    var terminals, completed, claims := before.terminals, before.completed, before.claims;
    assert earlier + ended[..0] == earlier;
    for i := 0 to |ended|
      invariant Reports(earlier + ended[..i],
                        before.(terminals := terminals, completed := completed, claims := claims))
    {
      var e := ended[i];
      ghost var now := before.(terminals := terminals, completed := completed, claims := claims);
      assert earlier + ended[..i + 1] == (earlier + ended[..i]) + [e];
      terminals := terminals + [e.agent];
      if e.receipt.Some? {
        completed := completed + [e.agent];
        claims := claims + [e.receipt.value.(agent := e.agent)];
      }
      OneMoreReported(earlier + ended[..i], e, now,
                      before.(terminals := terminals, completed := completed, claims := claims));
    }
    assert ended[..|ended|] == ended;
    d := before.(terminals := terminals, completed := completed, claims := claims);
  }

  /**
   The report of a round: the terminals found again, then what it dispatched.
   `sound` names the AgentRuns whose stored records hold.
   */
  method Report(recovered: seq<Ended>, outcomes: seq<Ended>, sound: set<string>) returns (d: Decision)
    ensures Reports(recovered + outcomes, d)
    ensures !d.complete && d.dispatchCount == |outcomes| && d.soundTerminals == sound
    ensures Distinct(AgentsOf(recovered + outcomes)) ==> RunEffects.ClaimsMatch(d)
  {
    d := Decision(false, |outcomes|, [], [], [], sound);
    d := Collect(d, [], recovered);
    assert [] + recovered == recovered;
    d := Collect(d, recovered, outcomes);
    if Distinct(AgentsOf(recovered + outcomes)) {
      ReportsMatch(recovered + outcomes, d);
    }
  }

  /** A report of distinct AgentRuns always passes the actor's comparison of claims, completed and ended ones. */
  lemma ReportsMatch(ended: seq<Ended>, d: Decision)
    requires Reports(ended, d) && Distinct(AgentsOf(ended))
    ensures RunEffects.ClaimsMatch(d)
  {
    var found := WithCandidate(ended);
    DistinctFound(ended);
    assert forall k :: 0 <= k < |found| ==> d.claims[k].agent == d.completed[k];
    hide Reports, WithCandidate, AgentsOf;
    forall a
      ensures a in d.completed <==> exists c :: c in d.claims && c.agent == a
    {
      if a in d.completed {
        var k :| 0 <= k < |d.completed| && d.completed[k] == a;
        assert d.claims[k] in d.claims;
      }
      if c :| c in d.claims && c.agent == a {
        var k :| 0 <= k < |d.claims| && d.claims[k] == c;
        assert d.completed[k] == a;
      }
    }
  }

  lemma {:induction false} DistinctFound(ended: seq<Ended>)
    requires Distinct(AgentsOf(ended))
    ensures Distinct(AgentsOf(WithCandidate(ended)))
    ensures forall a :: a in AgentsOf(WithCandidate(ended)) ==> a in AgentsOf(ended)
  {
    if ended != [] {
      var front, last := ended[..|ended| - 1], ended[|ended| - 1];
      assert AgentsOf(ended) == AgentsOf(front) + [last.agent];
      DistinctFound(front);
      assert WithCandidate(ended) == WithCandidate(front) + if last.receipt.Some? then [last] else [];
      assert last.agent !in AgentsOf(front);
      if last.receipt.Some? {
        assert AgentsOf(WithCandidate(ended)) == AgentsOf(WithCandidate(front)) + [last.agent];
      }
    }
  }

  /**
   The report of a round of new candidates moves an executing Run with a plan on
   exactly when every AgentRun in it has the receipt of its session and every
   candidate starts from where its pair stands.
   */
  lemma ReportIsTaken(r: Run, s: RunState, key: string, ended: seq<Ended>, d: Decision)
    requires Inv(r) && r.memory == Some(s) && s.status == Executing && s.plan.Some?
    requires Reports(ended, d) && Distinct(AgentsOf(ended)) && NewDigests(s.candidates, d.claims)
    ensures RunEffects.Effective(r, s, RoundFinished(key, Some(d)))
            <==> RunEffects.EndsReceipted(r, d) && AllFollow(s.candidates, d.claims)
    ensures RunEffects.Effective(r, s, RoundFinished(key, Some(d))) ==>
              var after := Step(r, RoundFinished(key, Some(d)), true);
              && after.memory.Some? && AllAccepted(s.candidates, d.claims,
                                                   Admission(after.memory.value.candidates, FactsOf(d.claims)))
  {
    hide Inv, Step, Reports, NewDigests, RunEffects.Effective, RunEffects.Moved;
    ReportsMatch(ended, d);
    CandidatesOnce(r, s);
    NewRoundExact(s.candidates, d.claims);
    RunEffects.EffectExact(r, RoundFinished(key, Some(d)), true);
    RoundTaken(r, s, key, d, Step(r, RoundFinished(key, Some(d)), true));
  }

  lemma CandidatesOnce(r: Run, s: RunState)
    requires Inv(r) && r.memory == Some(s)
    ensures OnePerPair(s.candidates)
  {
  }

  lemma RoundTaken(r: Run, s: RunState, key: string, d: Decision, after: Run)
    requires r.memory == Some(s) && RunEffects.Moved(r, RoundFinished(key, Some(d)), true, after)
    requires s.status == Executing && s.plan.Some? && RunEffects.ClaimsMatch(d)
    requires AdmitAll(s.candidates, d.claims).Some? <==> AllFollow(s.candidates, d.claims)
    requires AdmitAll(s.candidates, d.claims).Some? ==>
               AllAccepted(s.candidates, d.claims, AdmitAll(s.candidates, d.claims).value)
    ensures RunEffects.Effective(r, s, RoundFinished(key, Some(d)))
            <==> RunEffects.EndsReceipted(r, d) && AllFollow(s.candidates, d.claims)
    ensures RunEffects.Effective(r, s, RoundFinished(key, Some(d))) ==>
              after.memory.Some? && AllAccepted(s.candidates, d.claims,
                                                Admission(after.memory.value.candidates, FactsOf(d.claims)))
  {
    hide AdmitAll, AllFollow, RunEffects.ClaimsMatch, RunEffects.EndsReceipted, OnePerPair, FactsAreLatest;
  }
}
