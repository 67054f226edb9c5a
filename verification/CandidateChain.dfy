/**
 Accepting candidate checkpoint claims in an execution round
 (`_validate_candidate_claim` and the claim loop of `_commit_execution_round`
 in `runtime/actor.py`).
 */
module CandidateChain {
  import opened Options

  type Oid = string

  /** `committed` stands for the AgentRun, receipt and workspace checks that do not compare commits. */
  datatype Claim = Claim(
    agent: string, slice: string, generation: nat, baseline: Oid, expected: Oid, oid: Oid, digest: string,
    committed: bool)

  datatype Fact = Fact(agent: string, slice: string, generation: nat, expected: Oid, oid: Oid, digest: string)

  datatype Admission = Admission(facts: seq<Fact>, accepted: seq<Fact>)

  predicate IsFor(f: Fact, slice: string, generation: nat) {
    f.slice == slice && f.generation == generation
  }

  /** The position of the first fact of a pair, or the length. */
  function IndexOf(facts: seq<Fact>, slice: string, generation: nat): (k: nat)
    ensures k <= |facts|
    ensures k < |facts| ==> IsFor(facts[k], slice, generation)
    ensures forall i :: 0 <= i < k ==> !IsFor(facts[i], slice, generation)
  {
    if facts == [] then 0
    else if IsFor(facts[0], slice, generation) then 0
    else 1 + IndexOf(facts[1..], slice, generation)
  }

  function Current(facts: seq<Fact>, slice: string, generation: nat): Option<Fact> {
    var k := IndexOf(facts, slice, generation);
    if k < |facts| then Some(facts[k]) else None
  }

  function WithDigest(facts: seq<Fact>, digest: string): (r: Option<Fact>)
    ensures r.Some? ==> r.value in facts && r.value.digest == digest
    ensures r.None? ==> forall f :: f in facts ==> f.digest != digest
  {
    if facts == [] then None
    else if facts[0].digest == digest then Some(facts[0])
    else WithDigest(facts[1..], digest)
  }

  function FactOf(c: Claim): Fact {
    Fact(c.agent, c.slice, c.generation, c.expected, c.oid, c.digest)
  }

  function Validate(facts: seq<Fact>, c: Claim): Option<Fact> {
    if !c.committed || c.expected != c.baseline || c.oid == c.expected then None
    else
      var previous := WithDigest(facts, c.digest);
      if previous.Some? then
        var p := previous.value;
        if p.agent != c.agent || p.oid != c.oid || !IsFor(p, c.slice, c.generation) then None else previous
      else
        var current := Current(facts, c.slice, c.generation);
        var expected := if current.Some? then current.value.oid else c.baseline;
        if c.expected != expected then None else Some(FactOf(c))
  }

  /** One claim: refused, or the facts it leaves and the fact it adds, if any. */
  function Admit(facts: seq<Fact>, c: Claim): Option<Admission> {
    var fact := Validate(facts, c);
    if fact.None? then None
    else
      var k := IndexOf(facts, fact.value.slice, fact.value.generation);
      if k < |facts| && facts[k].digest == fact.value.digest then Some(Admission(facts, []))
      else if k == |facts| then Some(Admission(facts + [fact.value], [fact.value]))
      else Some(Admission(facts[k := fact.value], [fact.value]))
  }

  /** A whole round of claims, refused as soon as one of them is. */
  function AdmitAll(facts: seq<Fact>, claims: seq<Claim>): Option<Admission>
    decreases |claims|
  {
    if claims == [] then Some(Admission(facts, []))
    else
      var before := AdmitAll(facts, claims[..|claims| - 1]);
      if before.None? then None
      else
        var last := Admit(before.value.facts, claims[|claims| - 1]);
        if last.None? then None
        else Some(Admission(last.value.facts, before.value.accepted + last.value.accepted))
  }

  /** The claim loop of a round. */
  method AcceptClaims(facts: seq<Fact>, claims: seq<Claim>) returns (result: Option<Admission>)
    ensures result == AdmitAll(facts, claims)
  {
    var now, accepted := facts, [];
    for i := 0 to |claims|
      invariant AdmitAll(facts, claims[..i]) == Some(Admission(now, accepted))
    {
      assert claims[..i + 1][..i] == claims[..i];
      var fact := Validate(now, claims[i]);
      if fact.None? {
        RefusedRound(facts, claims, i + 1);
        return None;
      }
      var k := IndexOf(now, fact.value.slice, fact.value.generation);
      if k < |now| && now[k].digest == fact.value.digest {
        assert accepted + [] == accepted;
        continue;
      }
      if k == |now| {
        now := now + [fact.value];
      } else {
        now := now[k := fact.value];
      }
      accepted := accepted + [fact.value];
    }
    assert claims[..|claims|] == claims;
    return Some(Admission(now, accepted));
  }

  /** One refused claim refuses its whole round, whatever comes after it. */
  lemma {:induction false} RefusedRound(facts: seq<Fact>, claims: seq<Claim>, n: nat)
    requires n <= |claims| && AdmitAll(facts, claims[..n]).None?
    ensures AdmitAll(facts, claims).None?
    decreases |claims|
  {
    if n == |claims| {
      assert claims[..n] == claims;
    } else {
      assert claims[..|claims| - 1][..n] == claims[..n];
      RefusedRound(facts, claims[..|claims| - 1], n);
    }
  }

  // ----- the chain of accepted facts -----

  predicate OnePerPair(facts: seq<Fact>) {
    forall i, j :: 0 <= i < j < |facts| ==> !IsFor(facts[j], facts[i].slice, facts[i].generation)
  }

  /** The last fact of a pair in a history. */
  function Latest(history: seq<Fact>, slice: string, generation: nat): Option<Fact> {
    if history == [] then None
    else
      var last := |history| - 1;
      if IsFor(history[last], slice, generation) then Some(history[last])
      else Latest(history[..last], slice, generation)
  }

  /** `f` moves its pair's candidate from the head that `before` left, if it left one. */
  predicate ExtendsLatest(before: seq<Fact>, f: Fact) {
    && f.oid != f.expected
    && var previous := Latest(before, f.slice, f.generation);
       previous.Some? ==> f.expected == previous.value.oid
  }

  ghost predicate Chained(history: seq<Fact>) {
    forall i :: 0 <= i < |history| ==> ExtendsLatest(history[..i], history[i])
  }

  ghost predicate FactsAreLatest(facts: seq<Fact>, history: seq<Fact>) {
    forall slice, generation: nat :: Current(facts, slice, generation) == Latest(history, slice, generation)
  }

  /** The accepted facts of every pair form a chain of commits, and the facts of the state are its last links. */
  ghost predicate ChainInv(facts: seq<Fact>, history: seq<Fact>) {
    OnePerPair(facts) && Chained(history) && FactsAreLatest(facts, history)
  }

  lemma CurrentOfMember(facts: seq<Fact>, f: Fact)
    requires OnePerPair(facts) && f in facts
    ensures Current(facts, f.slice, f.generation) == Some(f)
  {
    var k := IndexOf(facts, f.slice, f.generation);
    var j :| 0 <= j < |facts| && facts[j] == f;
    assert k <= j;
  }

  lemma ChainGrows(history: seq<Fact>, f: Fact)
    requires Chained(history) && ExtendsLatest(history, f)
    ensures Chained(history + [f])
  {
    var h := history + [f];
    forall i | 0 <= i < |h|
      ensures ExtendsLatest(h[..i], h[i])
    {
      assert i < |history| ==> h[..i] == history[..i] && h[i] == history[i];
      assert i == |history| ==> h[..i] == history;
    }
  }

  /** What a new fact does to the current ones: it becomes the current one of its pair and of no other. */
  lemma CurrentAfterAdmit(facts: seq<Fact>, c: Claim, slice: string, generation: nat)
    requires OnePerPair(facts) && Admit(facts, c).Some?
    ensures var a := Admit(facts, c).value;
            && OnePerPair(a.facts)
            && Current(a.facts, slice, generation)
               == if a.accepted != [] && IsFor(FactOf(c), slice, generation) then Some(FactOf(c))
                  else Current(facts, slice, generation)
    ensures var a := Admit(facts, c).value;
            a.accepted != [] ==> a.accepted == [FactOf(c)] && Validate(facts, c) == Some(FactOf(c))
                                 && WithDigest(facts, c.digest).None?
  {
    var previous := WithDigest(facts, c.digest);
    if previous.Some? {
      CurrentOfMember(facts, previous.value);
    } else {
      var a := Admit(facts, c).value;
      var k := IndexOf(facts, c.slice, c.generation);
      var before, after := IndexOf(facts, slice, generation), IndexOf(a.facts, slice, generation);
      assert forall i :: 0 <= i < |facts| && i != k ==> a.facts[i] == facts[i];
      assert a.facts[k] == FactOf(c);
      if slice == c.slice && generation == c.generation {
        assert after == k;
      } else {
        assert before < |facts| ==> after == before;
        assert before == |facts| ==> after == |a.facts|;
      }
    }
  }

  /** Whatever is admitted keeps the chains. */
  lemma AdmitKeeps(facts: seq<Fact>, history: seq<Fact>, c: Claim)
    requires ChainInv(facts, history) && Admit(facts, c).Some?
    ensures ChainInv(Admit(facts, c).value.facts, history + Admit(facts, c).value.accepted)
    ensures c.expected == c.baseline
  {
    var a := Admit(facts, c).value;
    CurrentAfterAdmit(facts, c, c.slice, c.generation);
    if a.accepted == [] {
      assert history + [] == history;
      forall slice, generation: nat
        ensures Current(a.facts, slice, generation) == Latest(history, slice, generation)
      {
        CurrentAfterAdmit(facts, c, slice, generation);
      }
    } else {
      var f := FactOf(c);
      assert Current(facts, f.slice, f.generation) == Latest(history, f.slice, f.generation);
      ChainGrows(history, f);
      var h := history + [f];
      assert h[..|h| - 1] == history;
      forall slice, generation: nat
        ensures Current(a.facts, slice, generation) == Latest(h, slice, generation)
      {
        CurrentAfterAdmit(facts, c, slice, generation);
      }
    }
  }

  lemma {:induction false} AdmitAllKeeps(facts: seq<Fact>, history: seq<Fact>, claims: seq<Claim>)
    requires ChainInv(facts, history) && AdmitAll(facts, claims).Some?
    ensures ChainInv(AdmitAll(facts, claims).value.facts, history + AdmitAll(facts, claims).value.accepted)
    decreases |claims|
  {
    if claims == [] {
      assert history + [] == history;
    } else {
      var before := AdmitAll(facts, claims[..|claims| - 1]).value;
      AdmitAllKeeps(facts, history, claims[..|claims| - 1]);
      AdmitKeeps(before.facts, history + before.accepted, claims[|claims| - 1]);
      var last := Admit(before.facts, claims[|claims| - 1]).value;
      assert history + (before.accepted + last.accepted) == (history + before.accepted) + last.accepted;
    }
  }

  /** A pair that has a fact keeps one. */
  lemma {:induction false} AdmitAllKeepsPairs(facts: seq<Fact>, claims: seq<Claim>, slice: string, generation: nat)
    requires OnePerPair(facts) && AdmitAll(facts, claims).Some? && Current(facts, slice, generation).Some?
    ensures OnePerPair(AdmitAll(facts, claims).value.facts)
    ensures Current(AdmitAll(facts, claims).value.facts, slice, generation).Some?
    decreases |claims|
  {
    if claims != [] {
      AdmitAllKeepsPairs(facts, claims[..|claims| - 1], slice, generation);
      CurrentAfterAdmit(
        AdmitAll(facts, claims[..|claims| - 1]).value.facts, claims[|claims| - 1], slice, generation);
    }
  }

  // ----- replays -----

  /**
   A claim leaves the facts as they are exactly when its receipt is the current
   one of its pair.
   */
  lemma ReplayExact(facts: seq<Fact>, c: Claim)
    requires OnePerPair(facts) && c.committed && c.expected == c.baseline && c.oid != c.expected
    ensures Admit(facts, c) == Some(Admission(facts, []))
            <==> var current := Current(facts, c.slice, c.generation);
                 && current.Some? && current.value.digest == c.digest
                 && current.value.agent == c.agent && current.value.oid == c.oid
                 && WithDigest(facts, c.digest) == current
  {
    var previous := WithDigest(facts, c.digest);
    if previous.Some? {
      CurrentOfMember(facts, previous.value);
    }
  }

  /**
   A claim with a new receipt is admitted exactly when its checkpoint is committed,
   moves its AgentRun's baseline, and that is the commit its pair stands at, if it
   has a fact; it then is the one new fact.
   */
  lemma NewClaimExact(facts: seq<Fact>, c: Claim)
    requires OnePerPair(facts) && forall f :: f in facts ==> f.digest != c.digest
    ensures Admit(facts, c).Some?
            <==> && c.committed && c.expected == c.baseline && c.oid != c.expected
                 && forall f :: f in facts && IsFor(f, c.slice, c.generation) ==> f.oid == c.expected
    ensures Admit(facts, c).Some? ==> Admit(facts, c).value.accepted == [FactOf(c)]
  {
    var current := Current(facts, c.slice, c.generation);
    if current.Some? {
      forall f | f in facts && IsFor(f, c.slice, c.generation)
        ensures f == current.value
      {
        CurrentOfMember(facts, f);
      }
    }
  }

  function FactsOf(claims: seq<Claim>): (r: seq<Fact>)
    ensures |r| == |claims| && forall i :: 0 <= i < |claims| ==> r[i] == FactOf(claims[i])
  {
    seq(|claims|, i requires 0 <= i < |claims| => FactOf(claims[i]))
  }

  /** The claim at `i` starts from what the facts and the claims before it left. */
  ghost predicate Follows(facts: seq<Fact>, claims: seq<Claim>, i: nat)
    requires i < |claims|
  {
    && claims[i].committed && claims[i].expected == claims[i].baseline
    && ExtendsLatest(facts + FactsOf(claims[..i]), FactOf(claims[i]))
  }

  ghost predicate AllFollow(facts: seq<Fact>, claims: seq<Claim>) {
    forall i :: 0 <= i < |claims| ==> Follows(facts, claims, i)
  }

  lemma FollowSplit(facts: seq<Fact>, claims: seq<Claim>)
    requires claims != []
    ensures AllFollow(facts, claims)
            <==> AllFollow(facts, claims[..|claims| - 1]) && Follows(facts, claims, |claims| - 1)
  {
    var n := |claims| - 1;
    forall i | 0 <= i < n
      ensures Follows(facts, claims, i) == Follows(facts, claims[..n], i)
    {
      assert claims[..n][..i] == claims[..i];
    }
  }

  ghost predicate NewDigests(facts: seq<Fact>, claims: seq<Claim>) {
    && (forall f, c :: f in facts && c in claims ==> f.digest != c.digest)
    && (forall i, j :: 0 <= i < j < |claims| ==> claims[i].digest != claims[j].digest)
  }

  /** A whole round became facts, and the last fact of each pair is its current one. */
  ghost predicate AllAccepted(facts: seq<Fact>, claims: seq<Claim>, a: Admission) {
    && a.accepted == FactsOf(claims) && OnePerPair(a.facts)
    && (forall f :: f in a.facts ==> f in facts + FactsOf(claims))
    && FactsAreLatest(a.facts, facts + FactsOf(claims))
  }

  lemma {:induction false} LatestOfFacts(facts: seq<Fact>, slice: string, generation: nat)
    requires OnePerPair(facts)
    ensures Latest(facts, slice, generation) == Current(facts, slice, generation)
  {
    if facts != [] {
      var front, last := facts[..|facts| - 1], facts[|facts| - 1];
      LatestOfFacts(front, slice, generation);
      assert facts == front + [last];
      CurrentAppend(front, last, slice, generation);
    }
  }

  lemma CurrentAppend(facts: seq<Fact>, f: Fact, slice: string, generation: nat)
    requires OnePerPair(facts + [f])
    ensures Current(facts + [f], slice, generation)
            == if IsFor(f, slice, generation) then Some(f) else Current(facts, slice, generation)
  {
    var all := facts + [f];
    var k, n := IndexOf(facts, slice, generation), IndexOf(all, slice, generation);
    assert forall i :: 0 <= i < |facts| ==> all[i] == facts[i];
    assert all[|facts|] == f;
  }

  lemma AdmitMembers(facts: seq<Fact>, c: Claim)
    requires Admit(facts, c).Some?
    ensures forall f :: f in Admit(facts, c).value.facts ==> f in facts || f == FactOf(c)
  {
    var fact := Validate(facts, c).value;
    var k := IndexOf(facts, fact.slice, fact.generation);
    if k < |facts| {
      assert forall i :: 0 <= i < |facts| && i != k ==> facts[k := fact][i] == facts[i];
    }
  }

  lemma SplitDigests(facts: seq<Fact>, claims: seq<Claim>)
    requires NewDigests(facts, claims) && claims != []
    ensures NewDigests(facts, claims[..|claims| - 1])
    ensures forall f :: f in facts + FactsOf(claims[..|claims| - 1]) ==> f.digest != claims[|claims| - 1].digest
  {
    var front, last := claims[..|claims| - 1], claims[|claims| - 1];
    assert last in claims && forall c :: c in front ==> c in claims;
    forall f | f in facts + FactsOf(front)
      ensures f.digest != last.digest
    {
      if f !in facts {
        var i :| 0 <= i < |front| && FactsOf(front)[i] == f;
        assert claims[i] == front[i];
      }
    }
  }

  /**
   A round of claims with new receipts is accepted exactly when every claim starts
   from what the state and the claims before it left; its facts are then the
   claims, in order, and the last one of each pair is current.
   */
  lemma {:induction false} NewRoundExact(facts: seq<Fact>, claims: seq<Claim>)
    requires OnePerPair(facts) && NewDigests(facts, claims)
    ensures AdmitAll(facts, claims).Some? <==> AllFollow(facts, claims)
    ensures AdmitAll(facts, claims).Some? ==> AllAccepted(facts, claims, AdmitAll(facts, claims).value)
    decreases |claims|
  {
    if claims == [] {
      assert facts + FactsOf(claims) == facts;
      forall slice, generation: nat { LatestOfFacts(facts, slice, generation); }
    } else {
      var front := claims[..|claims| - 1];
      SplitDigests(facts, claims);
      FollowSplit(facts, claims);
      hide AllAccepted, FactsAreLatest, OnePerPair, AllFollow, Follows, NewDigests, FactsOf;
      NewRoundExact(facts, front);
      if AdmitAll(facts, front).Some? { LastOfRound(facts, claims, AdmitAll(facts, front).value); }
    }
  }

  lemma LastOfRound(facts: seq<Fact>, claims: seq<Claim>, before: Admission)
    requires claims != []
    requires var front := claims[..|claims| - 1];
             && AdmitAll(facts, front) == Some(before) && AllAccepted(facts, front, before)
             && (forall f :: f in facts + FactsOf(front) ==> f.digest != claims[|claims| - 1].digest)
    ensures AdmitAll(facts, claims).Some? <==> Follows(facts, claims, |claims| - 1)
    ensures AdmitAll(facts, claims).Some? ==> AllAccepted(facts, claims, AdmitAll(facts, claims).value)
  {
    var n := |claims| - 1;
    var last := claims[n];
    var history := facts + FactsOf(claims[..n]);
    assert FactsOf(claims) == FactsOf(claims[..n]) + [FactOf(last)];
    assert facts + FactsOf(claims) == history + [FactOf(last)];
    AdmitExactly(before.facts, history, last);
    assert AdmitAll(facts, claims)
           == match Admit(before.facts, last)
              case None => None
              case Some(a) => Some(Admission(a.facts, before.accepted + a.accepted));
    hide Latest, FactsOf, AdmitAll, Admit, FactsAreLatest, OnePerPair, ExtendsLatest;
  }

  /** A claim with a new receipt is admitted when it extends the history, and then is its next fact. */
  lemma AdmitExactly(facts: seq<Fact>, history: seq<Fact>, c: Claim)
    requires OnePerPair(facts) && FactsAreLatest(facts, history) && forall f :: f in facts ==> f.digest != c.digest
    ensures Admit(facts, c).Some?
            <==> c.committed && c.expected == c.baseline && ExtendsLatest(history, FactOf(c))
    ensures Admit(facts, c).Some? ==>
              && Admit(facts, c).value.accepted == [FactOf(c)] && OnePerPair(Admit(facts, c).value.facts)
              && (forall f :: f in Admit(facts, c).value.facts ==> f in facts || f == FactOf(c))
              && FactsAreLatest(Admit(facts, c).value.facts, history + [FactOf(c)])
  {
    NewClaimExact(facts, c);
    assert Current(facts, c.slice, c.generation) == Latest(history, c.slice, c.generation);
    CurrentStands(facts, c.slice, c.generation, c.expected);
    hide Latest, Current;
    if Admit(facts, c).Some? {
      AdmitMembers(facts, c);
      LatestAfter(facts, history, c);
    }
    hide Admit, FactsAreLatest, OnePerPair;
  }

  lemma CurrentStands(facts: seq<Fact>, slice: string, generation: nat, oid: Oid)
    requires OnePerPair(facts)
    ensures (forall f :: f in facts && IsFor(f, slice, generation) ==> f.oid == oid)
            <==> (Current(facts, slice, generation).Some? ==> Current(facts, slice, generation).value.oid == oid)
  {
    forall f | f in facts && IsFor(f, slice, generation)
      ensures Current(facts, slice, generation) == Some(f)
    {
      CurrentOfMember(facts, f);
    }
  }

  lemma LatestAfter(facts: seq<Fact>, history: seq<Fact>, c: Claim)
    requires OnePerPair(facts) && FactsAreLatest(facts, history)
    requires Admit(facts, c).Some? && Admit(facts, c).value.accepted == [FactOf(c)]
    ensures OnePerPair(Admit(facts, c).value.facts)
    ensures FactsAreLatest(Admit(facts, c).value.facts, history + [FactOf(c)])
  {
    var a := Admit(facts, c).value;
    var h := history + [FactOf(c)];
    assert h[..|h| - 1] == history;
    CurrentAfterAdmit(facts, c, c.slice, c.generation);
    forall slice, generation: nat
      ensures Current(a.facts, slice, generation) == Latest(h, slice, generation)
    {
      CurrentAfterAdmit(facts, c, slice, generation);
    }
  }

  /** A claim that was just accepted can be replayed without effect. */
  lemma AcceptedReplays(facts: seq<Fact>, c: Claim)
    requires OnePerPair(facts) && Admit(facts, c).Some?
    ensures var after := Admit(facts, c).value.facts; Admit(after, c) == Some(Admission(after, []))
  {
    var after := Admit(facts, c).value.facts;
    CurrentAfterAdmit(facts, c, c.slice, c.generation);
    if Admit(facts, c).value.accepted != [] {
      var k := IndexOf(facts, c.slice, c.generation);
      assert forall i :: 0 <= i < |after| && i != k ==> after[i] in facts;
      assert after[k] == FactOf(c);
      assert WithDigest(after, c.digest) == Some(FactOf(c));
    }
  }

  /** A receipt that is no longer current is accepted again exactly when its expected commit is current again. */
  lemma SupersededExact(facts: seq<Fact>, c: Claim)
    requires OnePerPair(facts) && c.committed && c.expected == c.baseline && c.oid != c.expected
    requires WithDigest(facts, c.digest).None? && Current(facts, c.slice, c.generation).Some?
    ensures Admit(facts, c).Some? <==> Current(facts, c.slice, c.generation).value.oid == c.expected
    ensures Admit(facts, c).Some? ==> Admit(facts, c).value.accepted == [FactOf(c)]
  {
    CurrentOfMember(facts, Current(facts, c.slice, c.generation).value);
  }

  /** Every accepted fact lies deeper than the one it expected. */
  ghost predicate Deepens(depth: map<Oid, nat>, history: seq<Fact>) {
    forall i :: 0 <= i < |history| ==>
      history[i].expected in depth && history[i].oid in depth && depth[history[i].expected] < depth[history[i].oid]
  }

  lemma {:induction false} LatestIsDeepest(depth: map<Oid, nat>, history: seq<Fact>, i: nat)
    requires Chained(history) && Deepens(depth, history) && i < |history|
    ensures var latest := Latest(history, history[i].slice, history[i].generation);
            latest.Some? && latest.value.oid in depth && depth[history[i].expected] < depth[latest.value.oid]
    decreases |history|
  {
    var last := |history| - 1;
    var before := history[..last];
    if i < last {
      assert Chained(before) by {
        forall j | 0 <= j < last ensures ExtendsLatest(before[..j], before[j]) {
          assert before[..j] == history[..j];
        }
      }
      LatestIsDeepest(depth, before, i);
      assert before[i] == history[i];
      assert ExtendsLatest(history[..last], history[last]);
    }
  }

  /** When commits only grow, a superseded receipt is refused for ever. */
  lemma SupersededIsRefused(depth: map<Oid, nat>, facts: seq<Fact>, history: seq<Fact>, i: nat, c: Claim)
    requires ChainInv(facts, history) && Deepens(depth, history) && i < |history|
    requires FactOf(c) == history[i] && WithDigest(facts, c.digest).None?
    ensures Admit(facts, c).None?
  {
    LatestIsDeepest(depth, history, i);
    assert Current(facts, c.slice, c.generation) == Latest(history, c.slice, c.generation);
    if c.committed && c.expected == c.baseline && c.oid != c.expected {
      SupersededExact(facts, c);
    }
  }

  lemma {:induction false} LatestIsMember(history: seq<Fact>, slice: string, generation: nat)
    requires Latest(history, slice, generation).Some?
    ensures Latest(history, slice, generation).value in history
  {
    var last := |history| - 1;
    if !IsFor(history[last], slice, generation) {
      LatestIsMember(history[..last], slice, generation);
    }
  }

  lemma FactsAreAccepted(facts: seq<Fact>, history: seq<Fact>, f: Fact)
    requires ChainInv(facts, history) && f in facts
    ensures f in history && Latest(history, f.slice, f.generation) == Some(f)
  {
    CurrentOfMember(facts, f);
    assert Current(facts, f.slice, f.generation) == Latest(history, f.slice, f.generation);
    LatestIsMember(history, f.slice, f.generation);
  }

  /**
   What becomes of any receipt accepted before, when commits only grow and a
   digest names one receipt: the last one of its pair changes nothing, and every
   earlier one is refused.
   */
  lemma PastReceiptExact(depth: map<Oid, nat>, facts: seq<Fact>, history: seq<Fact>, i: nat, c: Claim)
    requires ChainInv(facts, history) && Deepens(depth, history) && i < |history|
    requires FactOf(c) == history[i] && c.committed && c.baseline == c.expected
    requires forall f :: f in history && f.digest == c.digest ==> f == FactOf(c)
    ensures Admit(facts, c)
            == if Latest(history, c.slice, c.generation) == Some(FactOf(c)) then Some(Admission(facts, [])) else None
  {
    assert ExtendsLatest(history[..i], history[i]);
    assert Current(facts, c.slice, c.generation) == Latest(history, c.slice, c.generation);
    var known := WithDigest(facts, c.digest);
    if known.Some? {
      FactsAreAccepted(facts, history, known.value);
      ReplayExact(facts, c);
    } else {
      SupersededIsRefused(depth, facts, history, i, c);
    }
  }

  /**
   Without that, it can come back: A to B, B back to A, and the first receipt is
   accepted a second time.  Two commits that are each other's parent cannot exist
   in a content-addressed store, so only a verifier that lets receipts name other
   commits meets this.
   */
  lemma CyclicReplay(first: Claim, back: Claim)
    requires first.committed && back.committed && first.digest != back.digest
    requires first.expected == first.baseline && back.expected == back.baseline && first.oid != first.expected
    requires back.expected == first.oid && back.oid == first.expected
    requires back.slice == first.slice && back.generation == first.generation
    ensures Admit([], first) == Some(Admission([FactOf(first)], [FactOf(first)]))
    ensures Admit([FactOf(first)], back) == Some(Admission([FactOf(back)], [FactOf(back)]))
    ensures Admit([FactOf(back)], first) == Some(Admission([FactOf(first)], [FactOf(first)]))
  {
    assert [] + [FactOf(first)] == [FactOf(first)];
    assert [FactOf(first)][0 := FactOf(back)] == [FactOf(back)];
    assert [FactOf(back)][0 := FactOf(first)] == [FactOf(first)];
    assert IndexOf([FactOf(back)], first.slice, first.generation) == 0;
    assert Validate([FactOf(back)], first) == Some(FactOf(first));
  }
}
