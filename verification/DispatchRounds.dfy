/**
 Execution rounds over the scheduler (`PersistentExecutionScheduler` in
 `runtime/execution_agent.py`): what one round dispatches, when it stalls, and
 why an accepted plan without failures finishes.
 */
module DispatchRounds {
  import opened PlanGraph
  import opened PlanFreezing
  import opened Counting
  import opened Options
  import opened Scheduling

  /** A terminal AgentRun found again, with or without a candidate. */
  datatype Recovered = Recovered(slice: SliceId, generation: nat, hasCandidate: bool)

  /** The frozen work of a Run and the facts its actor has committed. */
  datatype RoundPlan = RoundPlan(
    run: string, work: seq<ReadySlice>, completed: set<SliceId>, slices: set<SliceId>, pools: set<Pool>,
    failures: set<SliceId>, pending: seq<(SliceId, nat)>, recovered: seq<Recovered>)

  /** What the plan's own validation leaves: the work names its Run, and each slice once. */
  ghost predicate PlanValid(p: RoundPlan) {
    && (forall item :: item in p.work ==> item.run == p.run)
    && (forall i, j :: 0 <= i < j < |p.work| ==> p.work[i].slice != p.work[j].slice)
    && (forall item :: item in p.work ==> item.slice in p.slices && item.slice !in p.completed)
    && (forall item :: item in p.work ==> (item.slice, item.generation) !in p.pending)
    && (forall item, r :: item in p.work && r in p.recovered ==> item.slice != r.slice)
    && (forall r :: r in p.recovered ==> r.slice in p.slices && r.slice !in p.completed)
    && (forall w :: w in p.pending ==> w.0 in p.slices)
    && p.completed <= p.slices && p.failures <= p.slices
  }

  predicate Complete(p: RoundPlan) {
    p.slices <= p.completed
  }

  // ----- preparing a round -----

  function Parked(b: Book, run: string, pending: seq<(SliceId, nat)>): Book {
    if pending == [] then b
    else
      var last := pending[|pending| - 1];
      Awaited(Parked(b, run, pending[..|pending| - 1]), run, last.0, last.1)
  }

  /** All submissions, or none when one of them is refused. */
  function Submissions(b: Book, work: seq<ReadySlice>): Option<Book> {
    if work == [] then Some(b)
    else
      match Submissions(b, work[..|work| - 1])
      case None => None
      case Some(before) =>
        var item := work[|work| - 1];
        if Refused(before, item) then None else Some(Submitted(before, item))
  }

  /** The scheduler as a round starts its selections. */
  function Prepared(b: Book, p: RoundPlan): Option<Book> {
    Submissions(Parked(FactsRestored(b, p.run, p.completed, p.failures), p.run, p.pending), p.work)
  }

  lemma {:induction false} RefusedEarlier(b: Book, work: seq<ReadySlice>, n: nat)
    requires n <= |work| && Submissions(b, work[..n]).None?
    ensures Submissions(b, work).None?
  {
    if n == |work| {
      assert work[..n] == work;
    } else {
      assert work[..|work| - 1][..n] == work[..n];
      RefusedEarlier(b, work[..|work| - 1], n);
    }
  }

  // ----- selecting -----

  function ScopesOf(items: seq<ReadySlice>): set<string> {
    set i, s | i in items && s in i.scope :: s
  }

  function Identities(items: seq<ReadySlice>): set<Identity> {
    set i | i in items :: IdentityOf(i)
  }

  /** One selection of a round that has already picked some items. */
  ghost predicate Picks(b: Book, p: RoundPlan, picked: seq<ReadySlice>, result: Selection, after: Book) {
    Selects(b, ScopesOf(picked), p.pools, Some(p.run), result, after)
  }

  /** Selections in a row, each of an item of the plan, with the book after each. */
  ghost predicate PickedAlong(p: RoundPlan, picked: seq<ReadySlice>, books: seq<Book>) {
    && |books| == |picked| + 1
    && forall t :: 0 <= t < |picked| ==> PickedAt(p, picked, books, t)
  }

  ghost predicate PickedAt(p: RoundPlan, picked: seq<ReadySlice>, books: seq<Book>, t: nat)
    requires t < |picked| && |books| == |picked| + 1
  {
    picked[t] in p.work && Picks(books[t], p, picked[..t], Selected(picked[t]), books[t + 1])
  }

  /** What a round picks: as much as it may, or until nothing more is eligible. */
  ghost predicate RoundPicks(b: Book, p: RoundPlan, room: nat, picked: seq<ReadySlice>, books: seq<Book>) {
    && PickedAlong(p, picked, books) && books[0] == b && |picked| <= room
    && (|picked| == room || Picks(books[|picked|], p, picked, Nothing, books[|picked|]))
  }

  /** A selection of something that is not in the plan. */
  ghost predicate StrayPick(b: Book, p: RoundPlan, room: nat, picked: seq<ReadySlice>, books: seq<Book>) {
    && PickedAlong(p, picked, books) && books[0] == b && |picked| < room
    && exists item, after :: item !in p.work && Picks(books[|picked|], p, picked, Selected(item), after)
  }

  /** Picking only adds reservations of the picked items, and each was free before. */
  lemma {:induction false} PickedReserves(p: RoundPlan, picked: seq<ReadySlice>, books: seq<Book>, t: nat)
    requires PickedAlong(p, picked, books) && BookValid(books[0]) && t <= |picked|
    ensures BookValid(books[t])
    ensures books[t] == books[0].(reserved := books[t].reserved, cursor := books[t].cursor)
    ensures Identities(picked[..t]) !! books[0].reserved.Keys
    ensures books[t].reserved.Keys == books[0].reserved.Keys + Identities(picked[..t])
    ensures forall id :: id in books[0].reserved ==> books[t].reserved[id] == books[0].reserved[id]
    ensures forall i :: i in picked[..t] ==> IdentityOf(i) in books[t].reserved && i.run == p.run
    decreases t
  {
    hide Selects, BookValid, Eligible;
    if t > 0 {
      PickedReserves(p, picked, books, t - 1);
      assert PickedAt(p, picked, books, t - 1);
      var item := picked[t - 1];
      SelectsKeeps(books[t - 1], ScopesOf(picked[..t - 1]), p.pools, Some(p.run), Selected(item), books[t]);
      assert picked[..t] == picked[..t - 1] + [item];
      assert Identities(picked[..t]) == Identities(picked[..t - 1]) + {IdentityOf(item)};
    }
  }

  /**
   What a round dispatches together: items of the plan whose predecessors are
   settled by committed facts, with free pools, distinct, and with scopes that
   share no path with one another.
   */
  lemma PicksAreReady(p: RoundPlan, picked: seq<ReadySlice>, books: seq<Book>, t: nat)
    requires PickedAlong(p, picked, books) && BookValid(books[0]) && t < |picked|
    ensures var item, b := picked[t], books[0];
            && item in p.work && item.run == p.run && item.pool in p.pools
            && DependenciesMet(item, Lookup(b.integrated, p.run), Lookup(b.failed, p.run))
            && item.slice !in Lookup(b.integrated, p.run) && IdentityOf(item) !in b.awaiting
            && forall u :: 0 <= u < t ==>
                 IdentityOf(picked[u]) != IdentityOf(item) && !SharePath(item.scope, picked[u].scope)
  {
    PickedReserves(p, picked, books, t);
    assert PickedAt(p, picked, books, t);
    var item := picked[t];
    SelectsKeeps(books[t], ScopesOf(picked[..t]), p.pools, Some(p.run), Selected(item), books[t + 1]);
    forall u | 0 <= u < t
      ensures IdentityOf(picked[u]) != IdentityOf(item) && !SharePath(item.scope, picked[u].scope)
    {
      assert picked[u] in picked[..t];
      assert picked[u].scope <= ScopesOf(picked[..t]);
      EligibleKeepsOut(books[t], item, ScopesOf(picked[..t]), p.pools);
      SharesLess(item.scope, picked[u].scope, ScopesOf(picked[..t]));
    }
  }

  lemma {:induction false} PickedScopes(p: RoundPlan, picked: seq<ReadySlice>, books: seq<Book>, t: nat)
    requires PickedAlong(p, picked, books) && BookValid(books[0]) && t <= |picked|
    ensures forall u :: 0 <= u < t ==>
              IdentityOf(picked[u]) in books[t].reserved && books[t].reserved[IdentityOf(picked[u])] == picked[u].scope
    decreases t
  {
    hide Selects, BookValid, Eligible;
    if t > 0 {
      PickedScopes(p, picked, books, t - 1);
      PickedReserves(p, picked, books, t - 1);
      assert PickedAt(p, picked, books, t - 1);
      var item := picked[t - 1];
      assert forall u :: 0 <= u < t - 1 ==> picked[u] in picked[..t - 1];
      SelectsKeeps(books[t - 1], ScopesOf(picked[..t - 1]), p.pools, Some(p.run), Selected(item), books[t]);
    }
  }

  /**
   A round picks all it may: while there is room, every queued item that was ready
   and shared no path with what was under way before is picked, or shares a path
   with one that is.
   */
  lemma PicksAllItMay(
    b: Book, p: RoundPlan, room: nat, picked: seq<ReadySlice>, books: seq<Book>, item: ReadySlice)
    requires RoundPicks(b, p, room, picked, books) && BookValid(b) && |picked| < room
    requires item in QueueOf(b, p.run) && Ready(b, item, p.pools)
    requires forall id :: id in b.reserved && id.run == p.run ==> !SharePath(item.scope, b.reserved[id])
    ensures exists u :: 0 <= u < |picked|
                        && (IdentityOf(picked[u]) == IdentityOf(item) || SharePath(item.scope, picked[u].scope))
  {
    assert item.run == p.run;
    hide BookValid, DependenciesMet;
    PickedReserves(p, picked, books, |picked|);
    PickedScopes(p, picked, books, |picked|);
    assert picked[..|picked|] == picked;
    var last := books[|picked|];
    assert p.run in last.queues && Idle(last, p.run, ScopesOf(picked), p.pools);
    assert !Eligible(last, item, ScopesOf(picked), p.pools);
    if IdentityOf(item) in Identities(picked) {
      var i :| i in picked && IdentityOf(i) == IdentityOf(item);
      var u :| 0 <= u < |picked| && picked[u] == i;
    } else {
      SharedWithPicked(b, p, picked, last, item);
    }
  }

  lemma HeldByPicked(picked: seq<ReadySlice>, reserved: map<Identity, set<string>>, id: Identity)
    requires forall u :: 0 <= u < |picked| ==>
               IdentityOf(picked[u]) in reserved && reserved[IdentityOf(picked[u])] == picked[u].scope
    ensures id in Identities(picked) ==> id in reserved && reserved[id] <= ScopesOf(picked)
  {
    if id in Identities(picked) {
      var i :| i in picked && IdentityOf(i) == id;
      var u :| 0 <= u < |picked| && picked[u] == i;
    }
  }

  lemma SharedWithPicked(b: Book, p: RoundPlan, picked: seq<ReadySlice>, last: Book, item: ReadySlice)
    requires last.reserved.Keys == b.reserved.Keys + Identities(picked)
    requires forall id :: id in b.reserved ==> last.reserved[id] == b.reserved[id]
    requires forall u :: 0 <= u < |picked| ==>
               IdentityOf(picked[u]) in last.reserved && last.reserved[IdentityOf(picked[u])] == picked[u].scope
    requires SharePath(item.scope, ScopesOf(picked) + ReservedScopes(last, p.run))
    ensures || (exists u :: 0 <= u < |picked| && SharePath(item.scope, picked[u].scope))
            || (exists id :: id in b.reserved && id.run == p.run && SharePath(item.scope, b.reserved[id]))
  {
    hide LiesIn;
    var path, a, e :| a in item.scope && e in ScopesOf(picked) + ReservedScopes(last, p.run)
                      && LiesIn(path, a) && LiesIn(path, e);
    if e in ScopesOf(picked) {
      var i :| i in picked && e in i.scope;
      var u :| 0 <= u < |picked| && picked[u] == i;
      assert SharePath(item.scope, picked[u].scope);
    } else {
      var id :| id in last.reserved && id.run == p.run && e in last.reserved[id];
      HeldByPicked(picked, last.reserved, id);
      assert SharePath(item.scope, b.reserved[id]);
    }
  }

  // ----- one round -----

  datatype DispatchResult = Candidate | NoCandidate | Raised

  datatype Decision =
    | Refusal
    | Finished
    | Stray
    | Stalled
    | DispatchFailed(failed: seq<ReadySlice>)
    | Advanced(dispatched: seq<ReadySlice>)

  /** The decision of a round that starts from `b`. */
  ghost predicate RoundOf(b: Book, p: RoundPlan, room: nat, results: SliceId -> DispatchResult, d: Decision) {
    match Prepared(b, p)
    case None => d == Refusal
    case Some(ready) => if Complete(p) then d == Finished else Selecting(ready, p, room, results, d)
  }

  ghost predicate Selecting(b: Book, p: RoundPlan, room: nat, results: SliceId -> DispatchResult, d: Decision) {
    match d
    case Refusal => false
    case Finished => false
    case Stray => exists picked, books :: StrayPick(b, p, room, picked, books)
    case Stalled => p.recovered == [] && exists books :: RoundPicks(b, p, room, [], books)
    case DispatchFailed(picked) =>
      (exists books :: RoundPicks(b, p, room, picked, books)) && exists i :: i in picked && results(i.slice) == Raised
    case Advanced(picked) =>
      && (exists books :: RoundPicks(b, p, room, picked, books)) && (picked != [] || p.recovered != [])
      && forall i :: i in picked ==> results(i.slice) != Raised
  }

  /** The recovered slices whose candidates wait for integration. */
  function Returned(p: RoundPlan, n: nat): set<Identity>
    requires n <= |p.recovered|
  {
    set k | 0 <= k < n && p.recovered[k].hasCandidate ::
      Identity(p.run, p.recovered[k].slice, p.recovered[k].generation)
  }

  /** The dispatched slices that came back with a candidate. */
  function Successes(items: seq<ReadySlice>, results: SliceId -> DispatchResult): set<Identity> {
    set i | i in items && results(i.slice) == Candidate :: IdentityOf(i)
  }

  /** What a round leaves behind: only its candidates wait, and no reservation of it survives. */
  ghost predicate Settled(b: Book, p: RoundPlan, results: SliceId -> DispatchResult, d: Decision, after: Book) {
    match Prepared(b, p)
    case None => true
    case Some(ready) =>
      var returned := if d.Advanced? || d.DispatchFailed? then Returned(p, |p.recovered|) else {};
      after == ready.(
        cursor := after.cursor, reserved := ready.reserved - returned,
        awaiting := ready.awaiting + returned + (if d.Advanced? then Successes(d.dispatched, results) else {}))
  }

  /** The round brought back a candidate under this identity, found again or dispatched by it. */
  ghost predicate BroughtBack(p: RoundPlan, results: SliceId -> DispatchResult, d: Decision, id: Identity) {
    || FoundAgain(p, d, id)
    || (d.Advanced? && exists i ::
          && i in d.dispatched && results(i.slice) == Candidate
          && i.run == id.run && i.slice == id.slice && i.generation == id.generation)
  }

  ghost predicate FoundAgain(p: RoundPlan, d: Decision, id: Identity) {
    && (d.Advanced? || d.DispatchFailed?) && id.run == p.run
    && exists r :: r in p.recovered && r.hasCandidate && r.slice == id.slice && r.generation == id.generation
  }

  /** What a round changes in the prepared scheduler: exactly the candidates it brought back wait. */
  lemma SettledExactly(b: Book, p: RoundPlan, results: SliceId -> DispatchResult, d: Decision, after: Book)
    requires Settled(b, p, results, d, after) && Prepared(b, p).Some?
    ensures var ready := Prepared(b, p).value;
            && after == ready.(cursor := after.cursor, reserved := after.reserved, awaiting := after.awaiting)
            && forall id: Identity ::
                 && (id in after.awaiting <==> id in ready.awaiting || BroughtBack(p, results, d, id))
                 && (id in after.reserved <==> id in ready.reserved && !FoundAgain(p, d, id))
  {
    hide Prepared;
    forall id: Identity
      ensures id in Returned(p, |p.recovered|)
              <==> id.run == p.run
                   && exists r :: r in p.recovered && r.hasCandidate && r.slice == id.slice
                                  && r.generation == id.generation
      ensures d.Advanced? ==>
                (id in Successes(d.dispatched, results)
                 <==> exists i :: && i in d.dispatched && results(i.slice) == Candidate && i.run == id.run
                                  && i.slice == id.slice && i.generation == id.generation)
    {
      ReturnedMember(p, id);
    }
  }

  lemma ReturnedMember(p: RoundPlan, id: Identity)
    ensures id in Returned(p, |p.recovered|)
            <==> id.run == p.run
                 && exists r :: r in p.recovered && r.hasCandidate && r.slice == id.slice
                                && r.generation == id.generation
  {
    if id.run == p.run {
      if r :| r in p.recovered && r.hasCandidate && r.slice == id.slice && r.generation == id.generation {
        var k :| 0 <= k < |p.recovered| && p.recovered[k] == r;
        assert id == Identity(p.run, p.recovered[k].slice, p.recovered[k].generation);
      }
    }
  }

  class PersistentScheduler {
    const fair: FairScheduler
    const maxParallelism: nat

    ghost predicate Valid()
      reads this, fair
    {
      fair.Valid() && maxParallelism >= 1
    }

    constructor (fair: FairScheduler, maxParallelism: nat)
      requires fair.Valid() && maxParallelism >= 1
      ensures Valid() && this.fair == fair && this.maxParallelism == maxParallelism
    {
      this.fair, this.maxParallelism := fair, maxParallelism;
    }

    /** Committed facts first, then the candidates that wait, then the work. */
    method Prepare(p: RoundPlan) returns (ok: bool)
      requires Valid()
      modifies fair
      ensures Valid()
      ensures ok <==> Prepared(old(fair.State()), p).Some?
      ensures ok ==> Prepared(old(fair.State()), p) == Some(fair.State())
    {
      hide BookValid, Refused, Submitted;
      fair.RestoreCommittedFacts(p.run, p.completed, p.failures);
      ghost var facts := fair.State();
      for i := 0 to |p.pending|
        invariant Valid() && fair.State() == Parked(facts, p.run, p.pending[..i])
      {
        assert p.pending[..i + 1][..i] == p.pending[..i];
        fair.AwaitIntegration(p.run, p.pending[i].0, p.pending[i].1);
      }
      assert p.pending[..|p.pending|] == p.pending;
      ghost var parked := fair.State();
      for i := 0 to |p.work|
        invariant Valid() && Submissions(parked, p.work[..i]) == Some(fair.State())
      {
        assert p.work[..i + 1][..i] == p.work[..i];
        ok := fair.Submit(p.work[i]);
        if !ok {
          RefusedEarlier(parked, p.work, i + 1);
          return;
        }
      }
      assert p.work[..|p.work|] == p.work;
      ok := true;
    }

    /** Drop the reservations of some items. */
    method ReleaseAll(run: string, items: seq<ReadySlice>)
      requires Valid() && forall i :: i in items ==> i.run == run
      modifies fair
      ensures Valid()
      ensures fair.State() == old(fair.State()).(reserved := old(fair.reserved) - Identities(items))
    {
      for i := 0 to |items|
        invariant Valid()
        invariant fair.State() == old(fair.State()).(reserved := old(fair.reserved) - Identities(items[..i]))
      {
        assert items[..i + 1] == items[..i] + [items[i]];
        assert Identities(items[..i + 1]) == Identities(items[..i]) + {IdentityOf(items[i])};
        fair.Release(run, items[i].slice, Some(items[i].generation));
      }
      assert items[..|items|] == items;
    }

    /** Select until the parallelism is used up or nothing is eligible; something outside the plan undoes it all. */
    method SelectWork(p: RoundPlan) returns (picked: seq<ReadySlice>, ghost books: seq<Book>, ok: bool)
      requires Valid()
      modifies fair
      ensures Valid()
      ensures ok ==> RoundPicks(old(fair.State()), p, maxParallelism, picked, books) && fair.State() == books[|picked|]
      ensures !ok ==> StrayPick(old(fair.State()), p, maxParallelism, picked, books)
      ensures !ok ==> fair.State() == old(fair.State()).(cursor := fair.cursor)
    {
      hide BookValid, Chosen, Idle, Identities;
      ghost var start := fair.State();
      var activeScopes := {};
      picked, books := [], [start];
      while |picked| < maxParallelism
        invariant Valid() && PickedAlong(p, picked, books) && books[0] == start && |picked| <= maxParallelism
        invariant fair.State() == books[|picked|] && activeScopes == ScopesOf(picked)
        decreases maxParallelism - |picked|
      {
        var next := fair.Next(activeScopes, p.pools, Some(p.run));
        if next.Nothing? {
          assert Picks(books[|picked|], p, picked, Nothing, fair.State());
          return picked, books, true;
        }
        if next.item !in p.work {
          assert Picks(books[|picked|], p, picked, Selected(next.item), fair.State());
          Undo(p, picked, books, next.item, fair.State());
          fair.Release(next.item.run, next.item.slice, Some(next.item.generation));
          ReleaseAll(p.run, picked);
          return picked, books, false;
        }
        OneMorePick(p, picked, books, next.item, fair.State());
        activeScopes := activeScopes + next.item.scope;
        picked, books := picked + [next.item], books + [fair.State()];
      }
      ok := true;
    }

    /** Candidates found again wait for integration. */
    method ReturnRecovered(p: RoundPlan)
      requires Valid()
      modifies fair
      ensures Valid()
      ensures var returned := Returned(p, |p.recovered|);
              fair.State() == old(fair.State()).(
                reserved := old(fair.reserved) - returned, awaiting := old(fair.awaiting) + returned)
    {
      for i := 0 to |p.recovered|
        invariant Valid()
        invariant fair.State() == old(fair.State()).(
                    reserved := old(fair.reserved) - Returned(p, i), awaiting := old(fair.awaiting) + Returned(p, i))
      {
        var r := p.recovered[i];
        assert Returned(p, i + 1)
               == Returned(p, i) + (if r.hasCandidate then {Identity(p.run, r.slice, r.generation)} else {});
        if r.hasCandidate {
          fair.AwaitIntegration(p.run, r.slice, r.generation);
        }
      }
    }

    /** A candidate waits for integration; without one the slice can be dispatched again. */
    method Settle(run: string, items: seq<ReadySlice>, results: SliceId -> DispatchResult)
      requires Valid() && forall i :: i in items ==> i.run == run
      modifies fair
      ensures Valid()
      ensures fair.State() == old(fair.State()).(
                reserved := old(fair.reserved) - Identities(items),
                awaiting := old(fair.awaiting) + Successes(items, results))
    {
      hide BookValid;
      for i := 0 to |items|
        invariant Valid()
        invariant fair.State() == old(fair.State()).(
                    reserved := old(fair.reserved) - Identities(items[..i]),
                    awaiting := old(fair.awaiting) + Successes(items[..i], results))
      {
        var item := items[i];
        assert items[..i + 1] == items[..i] + [item];
        assert Identities(items[..i + 1]) == Identities(items[..i]) + {IdentityOf(item)};
        assert Successes(items[..i + 1], results)
               == Successes(items[..i], results)
                  + (if results(item.slice) == Candidate then {IdentityOf(item)} else {});
        if results(item.slice) == Candidate {
          fair.AwaitIntegration(run, item.slice, item.generation);
        } else {
          fair.Release(run, item.slice, Some(item.generation));
        }
      }
      assert items[..|items|] == items;
    }

    method SomeRaised(items: seq<ReadySlice>, results: SliceId -> DispatchResult) returns (raised: bool)
      ensures raised <==> exists i :: i in items && results(i.slice) == Raised
    {
      for k := 0 to |items|
        invariant forall j :: 0 <= j < k ==> results(items[j].slice) != Raised
      {
        if results(items[k].slice) == Raised {
          return true;
        }
      }
      raised := false;
    }

    /**
     One round: prepare, select, dispatch, and settle what came back.  Its
     decision is that of the round, and no reservation of the round outlives it.
     */
    method AdvanceOneRound(p: RoundPlan, results: SliceId -> DispatchResult) returns (d: Decision)
      requires Valid()
      modifies fair
      ensures Valid()
      ensures RoundOf(old(fair.State()), p, maxParallelism, results, d)
      ensures Settled(old(fair.State()), p, results, d, fair.State())
      ensures var ready := Prepared(old(fair.State()), p);
              ready.Some? ==> forall id: Identity ::
                && (id in fair.awaiting <==> id in ready.value.awaiting || BroughtBack(p, results, d, id))
                && (id in fair.reserved <==> id in ready.value.reserved && !FoundAgain(p, d, id))
    {
      hide BookValid, RoundPicks, StrayPick, Identities, Returned, Successes, Prepared, BroughtBack, FoundAgain;
      var ok := Prepare(p);
      if !ok {
        return Refusal;
      }
      if Complete(p) {
        SettledExactly(old(fair.State()), p, results, Finished, fair.State());
        return Finished;
      }
      ghost var ready := fair.State();
      var picked, books, selected := SelectWork(p);
      if !selected {
        SettledExactly(old(fair.State()), p, results, Stray, fair.State());
        return Stray;
      }
      if picked == [] && p.recovered == [] {
        NothingPicked(p, ready, maxParallelism, books);
        SettledExactly(old(fair.State()), p, results, Stalled, fair.State());
        return Stalled;
      }
      SettledReserves(p, ready, maxParallelism, picked, books);
      ReturnRecovered(p);
      var raised := SomeRaised(picked, results);
      if raised {
        ReleaseAll(p.run, picked);
        SettledExactly(old(fair.State()), p, results, DispatchFailed(picked), fair.State());
        return DispatchFailed(picked);
      }
      Settle(p.run, picked, results);
      SettledExactly(old(fair.State()), p, results, Advanced(picked), fair.State());
      return Advanced(picked);
    }
  }

  lemma OneMorePick(p: RoundPlan, picked: seq<ReadySlice>, books: seq<Book>, item: ReadySlice, after: Book)
    requires PickedAlong(p, picked, books) && item in p.work
    requires Picks(books[|picked|], p, picked, Selected(item), after)
    ensures PickedAlong(p, picked + [item], books + [after])
    ensures ScopesOf(picked + [item]) == ScopesOf(picked) + item.scope
  {
    var longer, more := picked + [item], books + [after];
    hide Selects;
    forall t | 0 <= t < |longer|
      ensures PickedAt(p, longer, more, t)
    {
      if t < |picked| {
        assert PickedAt(p, picked, books, t) && longer[..t] == picked[..t];
      } else {
        assert longer[..t] == picked;
      }
    }
  }

  /** Dropping all that was picked, and the stray item, restores the reservations. */
  lemma Undo(p: RoundPlan, picked: seq<ReadySlice>, books: seq<Book>, item: ReadySlice, after: Book)
    requires PickedAlong(p, picked, books) && BookValid(books[0])
    requires Picks(books[|picked|], p, picked, Selected(item), after)
    ensures item.run == p.run && forall i :: i in picked ==> i.run == p.run
    ensures (after.reserved - {IdentityOf(item)}) - Identities(picked) == books[0].reserved
    ensures after == books[0].(reserved := after.reserved, cursor := after.cursor)
  {
    hide Selects, BookValid, Eligible;
    PickedReserves(p, picked, books, |picked|);
    assert picked[..|picked|] == picked;
    SelectsKeeps(books[|picked|], ScopesOf(picked), p.pools, Some(p.run), Selected(item), after);
  }

  lemma NothingPicked(p: RoundPlan, b: Book, room: nat, books: seq<Book>)
    requires RoundPicks(b, p, room, [], books)
    ensures books[0] == b && |books| == 1
  {
  }

  lemma SettledReserves(p: RoundPlan, b: Book, room: nat, picked: seq<ReadySlice>, books: seq<Book>)
    requires RoundPicks(b, p, room, picked, books) && BookValid(b)
    ensures var last := books[|picked|];
            && last == b.(reserved := last.reserved, cursor := last.cursor)
            && (forall i :: i in picked ==> i.run == p.run)
            && (forall returned: set<Identity> ::
                  (last.reserved - returned) - Identities(picked) == b.reserved - returned)
  {
    PickedReserves(p, picked, books, |picked|);
    assert picked[..|picked|] == picked;
  }

  // ----- progress of an accepted plan -----

  /** Committed outcomes of the slices of one Run. */
  datatype Outcomes = Outcomes(integrated: set<SliceId>, failed: set<SliceId>)

  /** `p` is a predecessor of `s`, of either kind. */
  ghost predicate DependsOn(deps: map<SliceId, Dependencies>, s: SliceId, p: SliceId) {
    s in deps && (p in deps[s].requiredIds || p in deps[s].orderedBefore)
  }

  /** Positions that increase along every dependency. */
  ghost predicate Layered(deps: map<SliceId, Dependencies>, height: map<SliceId, nat>) {
    && height.Keys == deps.Keys
    && forall s, p :: DependsOn(deps, s, p) ==> p in height && height[p] < height[s]
  }

  ghost predicate Remaining(deps: map<SliceId, Dependencies>, o: Outcomes, s: SliceId) {
    s in deps && s !in o.integrated && s !in o.failed
  }

  /** All predecessors of a remaining slice are settled. */
  ghost predicate DagReady(deps: map<SliceId, Dependencies>, o: Outcomes, s: SliceId) {
    Remaining(deps, o, s) && deps[s].requiredIds <= o.integrated && deps[s].orderedBefore <= o.integrated + o.failed
  }

  /**
   A remaining slice that cannot go on: it is closed itself, it requires a failed
   slice, or it waits for a slice that cannot go on.
   */
  ghost predicate HeldBack(
    deps: map<SliceId, Dependencies>, height: map<SliceId, nat>, o: Outcomes, closed: set<SliceId>, s: SliceId)
    requires Layered(deps, height)
    decreases if s in height then height[s] else 0
  {
    Remaining(deps, o, s) && (s in closed || exists p ::
      DependsOn(deps, s, p)
      && ((p in deps[s].requiredIds && p in o.failed) || HeldBack(deps, height, o, closed, p)))
  }

  lemma ReadyIsNotHeldBack(
    deps: map<SliceId, Dependencies>, height: map<SliceId, nat>, o: Outcomes, closed: set<SliceId>, s: SliceId)
    requires Layered(deps, height) && o.integrated !! o.failed && DagReady(deps, o, s) && s !in closed
    ensures !HeldBack(deps, height, o, closed, s)
  {
    forall p | DependsOn(deps, s, p)
      ensures !HeldBack(deps, height, o, closed, p)
    {
    }
  }

  /** Below a slice that is not held back there is one that is ready and not closed. */
  lemma {:induction false} ReadyBelow(
    deps: map<SliceId, Dependencies>, height: map<SliceId, nat>, o: Outcomes, closed: set<SliceId>, s: SliceId)
    returns (ready: SliceId)
    requires Layered(deps, height)
    requires Remaining(deps, o, s) && !HeldBack(deps, height, o, closed, s)
    ensures DagReady(deps, o, ready) && ready !in closed
    decreases height[s]
  {
    if DagReady(deps, o, s) {
      ready := s;
    } else {
      var p :| && DependsOn(deps, s, p)
               && p !in o.integrated && !(p !in deps[s].requiredIds && p in o.failed);
      assert p !in o.failed;
      ready := ReadyBelow(deps, height, o, closed, p);
    }
  }

  /** Some slice is ready and not closed exactly when some remaining slice is not held back. */
  lemma ProgressExact(
    deps: map<SliceId, Dependencies>, height: map<SliceId, nat>, o: Outcomes, closed: set<SliceId>)
    requires Layered(deps, height) && o.integrated !! o.failed
    ensures (exists s :: DagReady(deps, o, s) && s !in closed)
            <==> exists s :: Remaining(deps, o, s) && !HeldBack(deps, height, o, closed, s)
  {
    if s :| DagReady(deps, o, s) && s !in closed {
      ReadyIsNotHeldBack(deps, height, o, closed, s);
    }
    if s :| Remaining(deps, o, s) && !HeldBack(deps, height, o, closed, s) {
      var ready := ReadyBelow(deps, height, o, closed, s);
    }
  }

  /** Without failures, what holds a slice back is a closed slice that remains. */
  lemma {:induction false} HeldBackByClosed(
    deps: map<SliceId, Dependencies>, height: map<SliceId, nat>, o: Outcomes, closed: set<SliceId>, s: SliceId)
    returns (blocker: SliceId)
    requires Layered(deps, height) && o.failed == {} && HeldBack(deps, height, o, closed, s)
    ensures Remaining(deps, o, blocker) && blocker in closed
    decreases height[s]
  {
    if s in closed {
      blocker := s;
    } else {
      var p :| DependsOn(deps, s, p) && HeldBack(deps, height, o, closed, p);
      blocker := HeldBackByClosed(deps, height, o, closed, p);
    }
  }

  /** The projection of an accepted plan is layered: progress holds for every accepted plan. */
  lemma AcceptedPlanIsLayered(
    p: PlanProposal, ids: map<Ref, SliceId>, plan: FrozenPlan, deps: map<SliceId, Dependencies>)
    returns (height: map<SliceId, nat>)
    requires Freezes(p, ids, plan) && ProjectionOf(plan, deps)
    ensures Layered(deps, height)
  {
    OrderIsTopological(p, ids, plan);
    height := LayersOfOrder(plan, deps);
  }

  lemma LayersOfOrder(plan: FrozenPlan, deps: map<SliceId, Dependencies>) returns (height: map<SliceId, nat>)
    requires ProjectionOf(plan, deps)
    requires Distinct(plan.order) && Members(plan.order) == Members(plan.slices)
    requires forall e :: e in plan.edges ==> IsBeforeIn(plan.order, e.source, e.target)
    ensures Layered(deps, height)
  {
    height := Heights(plan.order);
    forall s, q | DependsOn(deps, s, q)
      ensures q in height && s in height && height[q] < height[s]
    {
      assert s in Members(plan.order);
      PredecessorIsEarlier(plan, deps, q, s);
    }
    assert height.Keys == Members(plan.order);
  }

  function Heights(order: seq<SliceId>): (r: map<SliceId, nat>)
    ensures forall s :: s in r <==> s in order
    ensures forall s :: s in r ==> r[s] == Position(order, s)
  {
    map s | s in order :: Position(order, s)
  }

  lemma PredecessorIsEarlier(plan: FrozenPlan, deps: map<SliceId, Dependencies>, q: SliceId, s: SliceId)
    requires Distinct(plan.order) && forall e :: e in plan.edges ==> IsBeforeIn(plan.order, e.source, e.target)
    requires DependsOn(deps, s, q)
    requires deps[s] == Dependencies(Predecessors(plan.edges, s, Requires), Predecessors(plan.edges, s, OrderedBefore))
    ensures q in plan.order && s in plan.order && Position(plan.order, q) < Position(plan.order, s)
  {
    var kind: EdgeKind := if q in deps[s].requiredIds then Requires else OrderedBefore;
    assert FrozenEdge(q, s, kind) in plan.edges;
    PositionsOfPair(plan.order, q, s);
  }

  lemma PositionsOfPair(order: seq<SliceId>, u: SliceId, v: SliceId)
    requires Distinct(order) && IsBeforeIn(order, u, v)
    ensures u in order && v in order && Position(order, u) < Position(order, v)
  {
    var i, j :| 0 <= i < j < |order| && order[i] == u && order[j] == v;
    assert Position(order, u) == i;
    assert Position(order, v) == j;
  }

  // ----- rounds of an accepted plan -----

  function FactsOf(p: RoundPlan): Outcomes {
    Outcomes(p.completed, p.failures - p.completed)
  }

  ghost predicate Matches(deps: map<SliceId, Dependencies>, item: ReadySlice) {
    && item.slice in deps
    && item.requiredSlices == deps[item.slice].requiredIds && item.orderedBefore == deps[item.slice].orderedBefore
  }

  /** The plan is about these slices, and offers only remaining ones, with their projected predecessors. */
  ghost predicate PlanFor(deps: map<SliceId, Dependencies>, p: RoundPlan) {
    && PlanValid(p) && p.slices == deps.Keys
    && (forall item :: item in p.work ==> Matches(deps, item) && Remaining(deps, FactsOf(p), item.slice))
  }

  predicate Offers(p: RoundPlan, s: SliceId) {
    exists item :: item in p.work && item.slice == s
  }

  /** The slices the plan does not offer in a pool that is available. */
  function Closed(p: RoundPlan): set<SliceId> {
    set s | s in p.slices && !exists item :: item in p.work && item.slice == s && item.pool in p.pools
  }

  /** What a round may dispatch: a slice that is ready and offered in an available pool. */
  ghost predicate Dispatchable(deps: map<SliceId, Dependencies>, p: RoundPlan, s: SliceId) {
    DagReady(deps, FactsOf(p), s) && s !in Closed(p)
  }

  ghost predicate SlicesOnce(queue: seq<ReadySlice>) {
    forall i, j :: 0 <= i < j < |queue| ==> queue[i].slice != queue[j].slice
  }

  /** Nothing of the Run is in flight, and its queue holds slices of the plan, each once. */
  ghost predicate Quiet(b: Book, run: string, deps: map<SliceId, Dependencies>) {
    && BookValid(b) && SlicesOnce(QueueOf(b, run))
    && (forall item :: item in QueueOf(b, run) ==> item.slice in deps)
    && (forall id :: id in b.reserved ==> id.run != run)
  }

  /** Whatever is queued and remains is offered, or is the very generation that waits for integration. */
  ghost predicate NothingStale(b: Book, deps: map<SliceId, Dependencies>, p: RoundPlan) {
    forall item :: item in QueueOf(b, p.run) && Remaining(deps, FactsOf(p), item.slice) ==>
      Offers(p, item.slice) || (item.slice, item.generation) in p.pending
  }

  /** The candidates that wait for integration are parked, and nothing else of the Run is. */
  ghost predicate ParkedFor(b: Book, p: RoundPlan) {
    && (forall id :: id in b.awaiting && id.run == p.run ==> (id.slice, id.generation) in p.pending)
    && (forall w :: w in p.pending && !Offers(p, w.0) ==> Identity(p.run, w.0, w.1) in b.awaiting)
  }

  /** A prepared round: committed facts, parked candidates, and the first of the work queued. */
  ghost predicate Loaded(b: Book, deps: map<SliceId, Dependencies>, p: RoundPlan, n: nat)
    requires n <= |p.work|
  {
    && Quiet(b, p.run, deps) && NothingStale(b, deps, p) && ParkedFor(b, p)
    && Lookup(b.integrated, p.run) == p.completed && Lookup(b.failed, p.run) == p.failures - p.completed
    && (forall i :: 0 <= i < n ==> p.work[i] in QueueOf(b, p.run))
  }

  /** A free slice is accepted, and takes the place of its old generation or the last one. */
  lemma SubmissionAccepted(b: Book, run: string, item: ReadySlice)
    requires BookValid(b) && item.run == run && forall id :: id in b.reserved ==> id.run != run
    requires item.slice !in Lookup(b.integrated, run) && item.slice !in Lookup(b.failed, run)
    ensures !Refused(b, item)
    ensures var q, after := QueueOf(b, run), Submitted(b, item);
            var i := SlicePosition(q, item.slice);
            && BookValid(after) && QueueOf(after, run) == (if i == |q| then q + [item] else q[i := item])
            && Lookup(after.integrated, run) == Lookup(b.integrated, run)
            && Lookup(after.failed, run) == Lookup(b.failed, run)
            && after.reserved == b.reserved && after.awaiting <= b.awaiting
            && forall id :: id in b.awaiting && id.slice != item.slice ==> id in after.awaiting
  {
    var q := QueueOf(b, run);
    var i := SlicePosition(q, item.slice);
    assert i < |q| ==> q[i] in q && q[i].run == run;
    SubmittedIsValid(b, item);
    hide BookValid, SlicePosition;
  }

  lemma WorkIsFree(b: Book, deps: map<SliceId, Dependencies>, p: RoundPlan, n: nat)
    requires PlanFor(deps, p) && n < |p.work| && Loaded(b, deps, p, n)
    ensures var item := p.work[n];
            && PlanValid(p) && item in p.work && item.run == p.run && item.slice in deps
            && item.slice !in Lookup(b.integrated, p.run) && item.slice !in Lookup(b.failed, p.run)
  {
    assert p.work[n] in p.work && Remaining(deps, FactsOf(p), p.work[n].slice);
  }

  lemma SubmissionLoads(b: Book, deps: map<SliceId, Dependencies>, p: RoundPlan, n: nat)
    requires PlanFor(deps, p) && n < |p.work| && Loaded(b, deps, p, n)
    ensures !Refused(b, p.work[n]) && Loaded(Submitted(b, p.work[n]), deps, p, n + 1)
  {
    hide BookValid, Refused, Submitted, SlicePosition, NothingStale, ParkedFor, PlanFor, PlanValid, Lookup, FactsOf;
    var item := p.work[n];
    WorkIsFree(b, deps, p, n);
    SubmissionAccepted(b, p.run, item);
    var q, after := QueueOf(b, p.run), Submitted(b, item);
    QueueAfter(q, item, SlicePosition(q, item.slice));
    StaysFresh(b, after, deps, p, item);
    WorkStays(p, q, QueueOf(after, p.run), n);
  }

  lemma WorkStays(p: RoundPlan, q: seq<ReadySlice>, after: seq<ReadySlice>, n: nat)
    requires PlanValid(p) && n < |p.work| && p.work[n] in after
    requires forall k :: 0 <= k < n ==> p.work[k] in q
    requires forall x :: x in q && x.slice != p.work[n].slice ==> x in after
    ensures forall k :: 0 <= k < n + 1 ==> p.work[k] in after
  {
    forall k | 0 <= k < n
      ensures p.work[k] in after
    {
      assert p.work[k] in q && p.work[k].slice != p.work[n].slice;
    }
  }

  lemma StaysFresh(b: Book, after: Book, deps: map<SliceId, Dependencies>, p: RoundPlan, item: ReadySlice)
    requires NothingStale(b, deps, p) && ParkedFor(b, p) && item in p.work
    requires forall x :: x in QueueOf(after, p.run) ==> x == item || x in QueueOf(b, p.run)
    requires after.awaiting <= b.awaiting
    requires forall id :: id in b.awaiting && id.slice != item.slice ==> id in after.awaiting
    ensures NothingStale(after, deps, p) && ParkedFor(after, p)
  {
    assert Offers(p, item.slice);
  }

  lemma QueueAfter(q: seq<ReadySlice>, item: ReadySlice, i: nat)
    requires SlicesOnce(q) && i == SlicePosition(q, item.slice)
    ensures var after := if i == |q| then q + [item] else q[i := item];
            && SlicesOnce(after) && item in after
            && (forall x :: x in after ==> x == item || x in q)
            && (forall x :: x in q && x.slice != item.slice ==> x in after)
  {
    var after := if i == |q| then q + [item] else q[i := item];
    assert after[i] == item;
    forall x | x in q && x.slice != item.slice
      ensures x in after
    {
      var k :| 0 <= k < |q| && q[k] == x;
      assert after[k] == x;
    }
  }

  lemma {:induction false} SubmissionsLoad(b: Book, deps: map<SliceId, Dependencies>, p: RoundPlan, n: nat)
    requires PlanFor(deps, p) && n <= |p.work| && Loaded(b, deps, p, 0)
    ensures Submissions(b, p.work[..n]).Some? && Loaded(Submissions(b, p.work[..n]).value, deps, p, n)
  {
    hide PlanFor, Quiet, NothingStale, ParkedFor, Refused, Submitted, Lookup, QueueOf;
    if n > 0 {
      SubmissionsLoad(b, deps, p, n - 1);
      assert p.work[..n][..n - 1] == p.work[..n - 1];
      SubmissionLoads(Submissions(b, p.work[..n - 1]).value, deps, p, n - 1);
    }
  }

  function PendingIds(p: RoundPlan, n: nat): set<Identity>
    requires n <= |p.pending|
  {
    set i | 0 <= i < n :: Identity(p.run, p.pending[i].0, p.pending[i].1)
  }

  /** Parking moves exactly the pending candidates, whatever their order. */
  lemma {:induction false} ParkedIs(b: Book, p: RoundPlan, n: nat)
    requires BookValid(b) && n <= |p.pending|
    ensures var after := Parked(b, p.run, p.pending[..n]);
            && BookValid(after)
            && after == b.(reserved := b.reserved - PendingIds(p, n), awaiting := b.awaiting + PendingIds(p, n))
  {
    hide BookValid;
    if n == 0 {
      assert PendingIds(p, 0) == {};
    } else {
      ParkedIs(b, p, n - 1);
      assert p.pending[..n][..n - 1] == p.pending[..n - 1];
      var last := p.pending[n - 1];
      var id, before := Identity(p.run, last.0, last.1), PendingIds(p, n - 1);
      assert PendingIds(p, n) == before + {id};
      hide PendingIds;
      assert (b.reserved - before) - {id} == b.reserved - (before + {id});
      assert (b.awaiting + before) + {id} == b.awaiting + (before + {id});
      AwaitedIsValid(Parked(b, p.run, p.pending[..n - 1]), p.run, last.0, last.1);
    }
  }

  lemma PreparedIsLoaded(b: Book, deps: map<SliceId, Dependencies>, p: RoundPlan)
    requires PlanFor(deps, p) && Quiet(b, p.run, deps) && NothingStale(b, deps, p)
    ensures Prepared(b, p).Some? && Loaded(Prepared(b, p).value, deps, p, |p.work|)
  {
    var facts := FactsRestored(b, p.run, p.completed, p.failures);
    FactsRestoredIsValid(b, p.run, p.completed, p.failures);
    ParkedIs(facts, p, |p.pending|);
    assert p.pending[..|p.pending|] == p.pending;
    var parked := Parked(facts, p.run, p.pending);
    assert ParkedFor(parked, p) by {
      forall w | w in p.pending
        ensures Identity(p.run, w.0, w.1) in parked.awaiting
      {
        var i :| 0 <= i < |p.pending| && p.pending[i] == w;
        assert Identity(p.run, p.pending[i].0, p.pending[i].1) in PendingIds(p, |p.pending|);
      }
    }
    assert Loaded(parked, deps, p, 0);
    SubmissionsLoad(parked, deps, p, |p.work|);
    assert p.work[..|p.work|] == p.work;
  }

  lemma QueuedIsOffered(b: Book, deps: map<SliceId, Dependencies>, p: RoundPlan, item: ReadySlice)
    requires NothingStale(b, deps, p) && ParkedFor(b, p) && item in QueueOf(b, p.run)
    requires Remaining(deps, FactsOf(p), item.slice) && Identity(p.run, item.slice, item.generation) !in b.awaiting
    ensures Offers(p, item.slice)
  {
    var w := (item.slice, item.generation);
    assert w in p.pending && !Offers(p, w.0) ==> Identity(p.run, w.0, w.1) in b.awaiting;
  }

  /** Whatever is reserved, an eligible item is offered by the plan and its slice can be dispatched. */
  lemma EligibleIsReady(
    b: Book, deps: map<SliceId, Dependencies>, p: RoundPlan, now: Book, item: ReadySlice, activeScopes: set<string>)
    requires PlanFor(deps, p) && Loaded(b, deps, p, |p.work|)
    requires now == b.(reserved := now.reserved, cursor := now.cursor)
    requires item in QueueOf(b, p.run) && Eligible(now, item, activeScopes, p.pools)
    ensures item in p.work && Dispatchable(deps, p, item.slice)
  {
    assert item.run == p.run;
    assert Remaining(deps, FactsOf(p), item.slice);
    QueuedIsOffered(b, deps, p, item);
    var offered :| offered in p.work && offered.slice == item.slice;
    var q := QueueOf(b, p.run);
    var i :| 0 <= i < |q| && q[i] == item;
    var j :| 0 <= j < |q| && q[j] == offered;
    assert i == j;
  }

  /** And with nothing reserved or active, a slice that can be dispatched has an eligible item. */
  lemma ReadyIsEligible(b: Book, deps: map<SliceId, Dependencies>, p: RoundPlan, s: SliceId) returns (item: ReadySlice)
    requires PlanFor(deps, p) && Loaded(b, deps, p, |p.work|) && Dispatchable(deps, p, s)
    ensures item in QueueOf(b, p.run) && item.slice == s && Eligible(b, item, {}, p.pools)
  {
    item :| item in p.work && item.slice == s && item.pool in p.pools;
    assert item.run == p.run && Matches(deps, item);
    assert IdentityOf(item) !in b.awaiting;
    assert ReservedScopes(b, p.run) == {};
    assert {} + ReservedScopes(b, p.run) == {};
  }

  lemma NotIdle(b: Book, p: RoundPlan, item: ReadySlice)
    requires item in QueueOf(b, p.run) && Eligible(b, item, {}, p.pools)
    ensures !Selects(b, {}, p.pools, Some(p.run), Nothing, b)
  {
    if Selects(b, {}, p.pools, Some(p.run), Nothing, b) {
      assert Permitted(Some(p.run), p.run);
    }
  }

  /** The first selection of a prepared round finds something exactly when some slice can be dispatched. */
  lemma SelectionExact(
    b: Book, deps: map<SliceId, Dependencies>, p: RoundPlan, result: Selection, after: Book)
    requires PlanFor(deps, p) && Loaded(b, deps, p, |p.work|) && Picks(b, p, [], result, after)
    ensures result.Selected? <==> exists s :: Dispatchable(deps, p, s)
  {
    assert ScopesOf([]) == {};
    SelectsKeeps(b, {}, p.pools, Some(p.run), result, after);
    if result.Selected? {
      EligibleIsReady(b, deps, p, b, result.item, {});
    } else if s :| Dispatchable(deps, p, s) {
      var item := ReadyIsEligible(b, deps, p, s);
      NotIdle(b, p, item);
    }
  }

  /** No selection of a prepared round strays from the plan, and all that it picks is ready. */
  lemma PicksArePlanned(
    b: Book, deps: map<SliceId, Dependencies>, p: RoundPlan, picked: seq<ReadySlice>, books: seq<Book>,
    item: ReadySlice, after: Book)
    requires PlanFor(deps, p) && Loaded(b, deps, p, |p.work|) && PickedAlong(p, picked, books) && books[0] == b
    requires Picks(books[|picked|], p, picked, Selected(item), after)
    ensures item in p.work && Dispatchable(deps, p, item.slice)
  {
    PickedReserves(p, picked, books, |picked|);
    SelectsKeeps(books[|picked|], ScopesOf(picked), p.pools, Some(p.run), Selected(item), after);
    hide Eligible, BookValid, Selects;
    EligibleIsReady(b, deps, p, books[|picked|], item, ScopesOf(picked));
  }

  lemma FewerPicks(p: RoundPlan, picked: seq<ReadySlice>, books: seq<Book>, t: nat)
    requires PickedAlong(p, picked, books) && t <= |picked|
    ensures PickedAlong(p, picked[..t], books[..t + 1])
  {
    var fewer, before := picked[..t], books[..t + 1];
    forall u: nat | u < t
      ensures PickedAt(p, fewer, before, u)
    {
      assert PickedAt(p, picked, books, u) && fewer[..u] == picked[..u];
    }
  }

  lemma PickedIsReady(
    b: Book, deps: map<SliceId, Dependencies>, p: RoundPlan, picked: seq<ReadySlice>, books: seq<Book>, t: nat)
    requires PlanFor(deps, p) && Loaded(b, deps, p, |p.work|) && PickedAlong(p, picked, books) && books[0] == b
    requires t < |picked|
    ensures Dispatchable(deps, p, picked[t].slice)
  {
    assert PickedAt(p, picked, books, t);
    FewerPicks(p, picked, books, t);
    PicksArePlanned(b, deps, p, picked[..t], books[..t + 1], picked[t], books[t + 1]);
  }

  /**
   One round, whatever waits and whichever pools are available: without stale work
   in the queue it is never refused and never strays; it finishes exactly when all
   slices are integrated, and otherwise stalls exactly when nothing was recovered
   and everything that remains is held back, by a failure or by a slice that is
   not offered in an available pool.  What it dispatches is ready, and it
   dispatches nothing only if nothing can be.
   */
  lemma RoundExact(
    b: Book, deps: map<SliceId, Dependencies>, height: map<SliceId, nat>, p: RoundPlan, room: nat,
    results: SliceId -> DispatchResult, d: Decision)
    requires Layered(deps, height) && PlanFor(deps, p) && room >= 1
    requires Quiet(b, p.run, deps) && NothingStale(b, deps, p)
    requires RoundOf(b, p, room, results, d)
    ensures !d.Refusal? && !d.Stray?
    ensures d.Finished? <==> p.completed == deps.Keys
    ensures d.Stalled? <==>
              && p.completed != deps.Keys && p.recovered == []
              && forall s :: Remaining(deps, FactsOf(p), s) ==> HeldBack(deps, height, FactsOf(p), Closed(p), s)
    ensures d.Advanced? ==>
              && (forall i :: i in d.dispatched ==> i in p.work && Dispatchable(deps, p, i.slice))
              && (d.dispatched == [] ==>
                    p.recovered != []
                    && forall s :: Remaining(deps, FactsOf(p), s) ==>
                         HeldBack(deps, height, FactsOf(p), Closed(p), s))
  {
    hide HeldBack, Layered, Dispatchable, Quiet, NothingStale, Loaded, Prepared, Selecting, DagReady, Closed, Remaining;
    PreparedIsLoaded(b, deps, p);
    DispatchableExact(deps, height, p);
    var ready := Prepared(b, p).value;
    assert Complete(p) <==> p.completed == deps.Keys;
    if !Complete(p) {
      hide PlanFor, PlanValid;
      NeverStrays(ready, deps, p, room, d, results);
      DecidedByFirst(ready, deps, p, room, d, results);
    }
  }

  lemma DispatchableExact(deps: map<SliceId, Dependencies>, height: map<SliceId, nat>, p: RoundPlan)
    requires Layered(deps, height)
    ensures (exists s :: Dispatchable(deps, p, s))
            <==> exists s :: Remaining(deps, FactsOf(p), s) && !HeldBack(deps, height, FactsOf(p), Closed(p), s)
  {
    ProgressExact(deps, height, FactsOf(p), Closed(p));
    hide HeldBack, Layered, Remaining, DagReady, Closed;
    if s :| DagReady(deps, FactsOf(p), s) && s !in Closed(p) {
      assert Dispatchable(deps, p, s);
    }
  }

  lemma NeverStrays(
    b: Book, deps: map<SliceId, Dependencies>, p: RoundPlan, room: nat, d: Decision, results: SliceId -> DispatchResult)
    requires PlanFor(deps, p) && Loaded(b, deps, p, |p.work|) && Selecting(b, p, room, results, d)
    ensures !d.Stray?
  {
    if d.Stray? {
      var picked, books :| StrayPick(b, p, room, picked, books);
      var item, after :| item !in p.work && Picks(books[|picked|], p, picked, Selected(item), after);
      PicksArePlanned(b, deps, p, picked, books, item, after);
    }
  }

  lemma DecidedByFirst(
    b: Book, deps: map<SliceId, Dependencies>, p: RoundPlan, room: nat, d: Decision, results: SliceId -> DispatchResult)
    requires PlanFor(deps, p) && Loaded(b, deps, p, |p.work|) && Selecting(b, p, room, results, d)
    requires room >= 1 && !d.Stray?
    ensures !d.Refusal? && !d.Finished?
    ensures d.Stalled? <==> p.recovered == [] && !exists s :: Dispatchable(deps, p, s)
    ensures d.Advanced? ==>
              && (forall i :: i in d.dispatched ==> i in p.work && Dispatchable(deps, p, i.slice))
              && (d.dispatched == [] ==> p.recovered != [] && !exists s :: Dispatchable(deps, p, s))
  {
    var picked := match d case Advanced(items) => items case DispatchFailed(items) => items case _ => [];
    var books :| RoundPicks(b, p, room, picked, books);
    if picked == [] {
      SelectionExact(b, deps, p, Nothing, books[0]);
    } else {
      forall t | 0 <= t < |picked|
        ensures picked[t] in p.work && Dispatchable(deps, p, picked[t].slice)
      {
        assert PickedAt(p, picked, books, t);
        PickedIsReady(b, deps, p, picked, books, t);
      }
      assert Dispatchable(deps, p, picked[0].slice);
    }
  }

  /** After a round nothing of the Run is in flight, so the next one can be prepared. */
  lemma RoundLeavesQuiet(
    b: Book, deps: map<SliceId, Dependencies>, p: RoundPlan, results: SliceId -> DispatchResult, d: Decision,
    after: Book)
    requires PlanFor(deps, p) && Quiet(b, p.run, deps) && NothingStale(b, deps, p)
    requires Settled(b, p, results, d, after) && BookValid(after)
    ensures Quiet(after, p.run, deps)
  {
    PreparedIsLoaded(b, deps, p);
  }

  /** The first item that may be dispatched is not of the plan. */
  ghost predicate StaleFirst(b: Book, p: RoundPlan) {
    exists i: nat :: FirstEligible(b, QueueOf(b, p.run), i, {}, p.pools) && QueueOf(b, p.run)[i] !in p.work
  }

  /** Then a round strays at once; and a round for one item strays exactly then. */
  lemma StaleStrays(b: Book, p: RoundPlan, room: nat, results: SliceId -> DispatchResult, d: Decision)
    requires BookValid(b) && p.run in b.queues && room >= 1 && Selecting(b, p, room, results, d)
    ensures StaleFirst(b, p) ==> d == Stray
    ensures room == 1 ==> (d == Stray <==> StaleFirst(b, p))
  {
    hide Eligible, BookValid, RoundPicks, Picks;
    if i: nat :| FirstEligible(b, QueueOf(b, p.run), i, {}, p.pools) && QueueOf(b, p.run)[i] !in p.work {
      StraysAtOnce(b, p, room, results, d, i);
    } else if room == 1 && d == Stray {
      var picked, books :| StrayPick(b, p, room, picked, books);
      var item, after :| item !in p.work && Picks(books[|picked|], p, picked, Selected(item), after);
      assert picked == [] && books[0] == b;
      ChosenIsFirst(b, p, item, after);
    }
  }

  lemma ChosenIsFirst(b: Book, p: RoundPlan, item: ReadySlice, after: Book)
    requires Picks(b, p, [], Selected(item), after) && item !in p.work
    ensures StaleFirst(b, p)
  {
    assert ScopesOf([]) == {};
    hide Eligible, BookValid, FirstIn, Permitted;
    var k, j :| Chosen(b, k, j, {}, p.pools, Some(p.run), item, after);
    PermittedIs(p.run, item.run);
    assert FirstEligible(b, QueueOf(b, p.run), j, {}, p.pools);
  }

  lemma PermittedIs(run: string, other: string)
    requires Permitted(Some(run), other)
    ensures other == run
  {
  }

  lemma StraysAtOnce(b: Book, p: RoundPlan, room: nat, results: SliceId -> DispatchResult, d: Decision, i: nat)
    requires BookValid(b) && p.run in b.queues && room >= 1 && Selecting(b, p, room, results, d)
    requires FirstEligible(b, b.queues[p.run], i, {}, p.pools) && b.queues[p.run][i] !in p.work
    ensures d == Stray
  {
    if d != Stray {
      var picked := match d case Advanced(items) => items case DispatchFailed(items) => items case _ => [];
      var books :| RoundPicks(b, p, room, picked, books);
      assert ScopesOf([]) == {};
      if picked == [] {
        NotIdle(b, p, b.queues[p.run][i]);
      } else {
        assert PickedAt(p, picked, books, 0) && picked[..0] == [];
        FirstIsPicked(b, p, picked[0], books[1], i);
      }
      assert false;
    }
  }

  lemma FirstIsPicked(b: Book, p: RoundPlan, item: ReadySlice, after: Book, i: nat)
    requires BookValid(b) && p.run in b.queues && Selects(b, {}, p.pools, Some(p.run), Selected(item), after)
    requires FirstEligible(b, b.queues[p.run], i, {}, p.pools)
    ensures item == b.queues[p.run][i]
  {
    var k, j :| Chosen(b, k, j, {}, p.pools, Some(p.run), item, after);
    assert item.run == p.run;
    assert i == j;
  }

  /**
   So does the round after a dispatch whose terminal AgentRun was found again: its
   item is still queued, and the plan no longer offers it.
   */
  lemma RecoveredStrays(
    item: ReadySlice, p: RoundPlan, room: nat, results: SliceId -> DispatchResult, d: Decision)
    requires item.requiredSlices == {} && item.orderedBefore == {} && room >= 1
    requires p == RoundPlan(
                    item.run, [], {}, {item.slice}, {item.pool}, {}, [], [Recovered(item.slice, item.generation, true)])
    requires RoundOf(Book(map[item.run := [item]], map[], map[], {}, map[], [item.run], 0), p, room, results, d)
    ensures d == Stray
  {
    var b := Book(map[item.run := [item]], map[], map[], {}, map[], [item.run], 0);
    var ready := Prepared(b, p).value;
    assert ready == FactsRestored(b, item.run, {}, {});
    assert BookValid(b);
    FactsRestoredIsValid(b, item.run, {}, {});
    assert ReservedScopes(ready, item.run) == {};
    assert Eligible(ready, item, {}, p.pools);
    assert FirstEligible(ready, QueueOf(ready, item.run), 0, {}, p.pools);
    StaleStrays(ready, p, room, results, d);
  }

  // ----- a whole Run -----

  /** One round of a Run, from the scheduler it found to the one it left. */
  datatype Round = Round(
    before: Book, plan: RoundPlan, results: SliceId -> DispatchResult, decision: Decision, after: Book)

  function Dispatched(d: Decision): set<SliceId> {
    if d.Advanced? then set i | i in d.dispatched :: i.slice else {}
  }

  lemma DispatchesNone(d: Decision)
    ensures Dispatched(d) == {} <==> !d.Advanced? || d.dispatched == []
  {
    assert d.Advanced? && d.dispatched != [] ==> d.dispatched[0].slice in Dispatched(d);
  }

  /** The slices whose candidates wait for integration. */
  function Waiting(p: RoundPlan): set<SliceId> {
    (set w | w in p.pending :: w.0) + set r | r in p.recovered && r.hasCandidate :: r.slice
  }

  /** Without failure: every remaining slice waits or is offered in an available pool, and not both. */
  ghost predicate IsRound(deps: map<SliceId, Dependencies>, run: string, room: nat, r: Round) {
    && r.plan.run == run && PlanFor(deps, r.plan) && r.plan.failures == {} && !r.decision.DispatchFailed?
    && NothingStale(r.before, deps, r.plan) && OffersRest(deps, r.plan)
    && RoundOf(r.before, r.plan, room, r.results, r.decision)
    && Settled(r.before, r.plan, r.results, r.decision, r.after) && BookValid(r.after)
  }

  ghost predicate OffersRest(deps: map<SliceId, Dependencies>, p: RoundPlan) {
    && (forall s :: Remaining(deps, FactsOf(p), s) && s in Closed(p) ==> s in Waiting(p))
    && (forall item :: item in p.work ==> item.slice !in Waiting(p))
  }

  /**
   Rounds in a row without failure.  What one dispatches waits or is integrated
   from then on, and after a round that could dispatch nothing something that
   waited is integrated.
   */
  ghost predicate FailureFree(deps: map<SliceId, Dependencies>, run: string, room: nat, rounds: seq<Round>) {
    && (forall t :: 0 <= t < |rounds| ==> IsRound(deps, run, room, rounds[t]))
    && forall t :: 0 < t < |rounds| ==> Follows(rounds, t)
  }

  ghost predicate Follows(rounds: seq<Round>, t: nat)
    requires 0 < t < |rounds|
  {
    && rounds[t].before == rounds[t - 1].after
    && Integrates(rounds[t - 1].plan, rounds[t - 1].decision, rounds[t].plan)
  }

  ghost predicate Integrates(p: RoundPlan, d: Decision, next: RoundPlan) {
    && p.completed <= next.completed
    && p.completed + Waiting(p) + Dispatched(d) <= next.completed + Waiting(next)
    && (!d.Finished? && Dispatched(d) == {} ==> exists s :: s in Waiting(p) && s !in p.completed && s in next.completed)
  }

  /** A round that dispatches nothing before the end leaves something waiting that is not integrated. */
  lemma IdleRoundWaits(
    deps: map<SliceId, Dependencies>, height: map<SliceId, nat>, run: string, room: nat, r: Round)
    requires Layered(deps, height) && IsRound(deps, run, room, r) && room >= 1
    requires Quiet(r.before, run, deps) && !r.decision.Finished? && Dispatched(r.decision) == {}
    ensures exists s :: s in Waiting(r.plan) && s !in r.plan.completed
  {
    RoundExact(r.before, deps, height, r.plan, room, r.results, r.decision);
    DispatchesNone(r.decision);
    hide RoundOf, Settled, Quiet, BookValid, PlanValid;
    var s :| s in deps.Keys && s !in r.plan.completed;
    assert Remaining(deps, FactsOf(r.plan), s);
    var blocker := HeldBackByClosed(deps, height, FactsOf(r.plan), Closed(r.plan), s);
  }

  /** What is integrated, and what is integrated or waits: both grow, one of them with every round. */
  function Measure(p: RoundPlan): nat {
    |p.completed| + |p.completed + Waiting(p)|
  }

  lemma WaitingIsPlanned(deps: map<SliceId, Dependencies>, p: RoundPlan)
    requires PlanFor(deps, p)
    ensures Waiting(p) <= deps.Keys && p.completed <= deps.Keys
    ensures Measure(p) <= 2 * |deps.Keys|
    ensures Measure(p) == 2 * |deps.Keys| ==> p.completed == deps.Keys
  {
    SubsetSize(p.completed, deps.Keys);
    SubsetSize(p.completed + Waiting(p), deps.Keys);
  }

  lemma OneRoundAdvances(
    deps: map<SliceId, Dependencies>, height: map<SliceId, nat>, run: string, room: nat, r: Round, next: RoundPlan)
    requires Layered(deps, height) && IsRound(deps, run, room, r) && room >= 1 && Quiet(r.before, run, deps)
    requires Integrates(r.plan, r.decision, next) && !r.decision.Finished?
    ensures Measure(next) > Measure(r.plan)
    ensures Waiting(r.plan) == {} ==> |next.completed + Waiting(next)| > |r.plan.completed|
  {
    var p, d := r.plan, r.decision;
    var reached, further := p.completed + Waiting(p), next.completed + Waiting(next);
    SubsetSize(p.completed, next.completed);
    SubsetSize(reached, further);
    if Dispatched(d) == {} {
      IdleRoundWaits(deps, height, run, room, r);
      var s :| s in Waiting(p) && s !in p.completed && s in next.completed;
      assert p.completed != next.completed;
    } else {
      RoundExact(r.before, deps, height, p, room, r.results, d);
      var s :| s in Dispatched(d);
      var i :| i in d.dispatched && i.slice == s;
      assert s !in reached && s in further;
    }
  }

  /** The measure grows with every round until all is integrated. */
  lemma {:induction false} RoundsAdvance(
    deps: map<SliceId, Dependencies>, height: map<SliceId, nat>, run: string, room: nat, rounds: seq<Round>, t: nat)
    requires Layered(deps, height) && FailureFree(deps, run, room, rounds) && room >= 1 && t < |rounds|
    requires Quiet(rounds[0].before, run, deps)
    ensures Quiet(rounds[t].before, run, deps)
    ensures Measure(rounds[t].plan) >= t || rounds[t].plan.completed == deps.Keys
    ensures (forall u :: 0 <= u <= t ==> Waiting(rounds[u].plan) == {}) ==>
              |rounds[t].plan.completed| >= t || rounds[t].plan.completed == deps.Keys
    decreases t
  {
    hide RoundOf, Settled, Quiet, BookValid, Measure, HeldBack, Layered, Waiting, NothingStale, OffersRest;
    if t > 0 {
      RoundsAdvance(deps, height, run, room, rounds, t - 1);
      var r := rounds[t - 1];
      assert IsRound(deps, run, room, r) && IsRound(deps, run, room, rounds[t]);
      assert Follows(rounds, t);
      RoundLeavesQuiet(r.before, deps, r.plan, r.results, r.decision, r.after);
      WaitingIsPlanned(deps, rounds[t].plan);
      if r.plan.completed == deps.Keys {
        assert rounds[t].plan.completed == deps.Keys;
      } else {
        NotFinished(deps, height, room, r);
        OneRoundAdvances(deps, height, run, room, r, rounds[t].plan);
        if Waiting(rounds[t].plan) == {} {
          assert rounds[t].plan.completed + {} == rounds[t].plan.completed;
        }
      }
    }
  }

  lemma NotFinished(deps: map<SliceId, Dependencies>, height: map<SliceId, nat>, room: nat, r: Round)
    requires Layered(deps, height) && PlanFor(deps, r.plan) && r.plan.completed != deps.Keys && room >= 1
    requires Quiet(r.before, r.plan.run, deps) && NothingStale(r.before, deps, r.plan)
    requires RoundOf(r.before, r.plan, room, r.results, r.decision)
    ensures !r.decision.Finished?
  {
    RoundExact(r.before, deps, height, r.plan, room, r.results, r.decision);
  }

  /**
   A Run of an accepted plan whose rounds meet no failure is finished after at
   most twice as many rounds as the plan has slices, however long candidates wait
   for integration; and after at most as many rounds as slices if none waits when
   a round starts.
   */
  lemma FailureFreeRunFinishes(
    p: PlanProposal, ids: map<Ref, SliceId>, plan: FrozenPlan, deps: map<SliceId, Dependencies>,
    run: string, room: nat, rounds: seq<Round>, t: nat)
    requires Freezes(p, ids, plan) && ProjectionOf(plan, deps)
    requires FailureFree(deps, run, room, rounds) && room >= 1 && t < |rounds|
    requires Quiet(rounds[0].before, run, deps)
    requires t >= 2 * |deps| || (t >= |deps| && forall u :: 0 <= u <= t ==> Waiting(rounds[u].plan) == {})
    ensures rounds[t].plan.completed == deps.Keys && rounds[t].decision == Finished
  {
    var height := AcceptedPlanIsLayered(p, ids, plan, deps);
    var last := rounds[t];
    RoundsAdvance(deps, height, run, room, rounds, t);
    assert IsRound(deps, run, room, last);
    WaitingIsPlanned(deps, last.plan);
    SubsetSize(last.plan.completed, deps.Keys);
    assert |deps.Keys| == |deps|;
    RoundExact(last.before, deps, height, last.plan, room, last.results, last.decision);
  }
}
