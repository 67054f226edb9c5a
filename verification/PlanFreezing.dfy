/**
 Freezing an accepted proposal (`PlanLedger.freeze`) and projecting the frozen
 edges for the scheduler (`project_frozen_plan_dependencies`).
 */
module PlanFreezing {
  import opened Counting
  import opened PlanGraph
  import opened PlanGuards
  import opened SourceCoverage
  import opened WriteScopes

  // ----- ranks and edges -----

  datatype RankViolation =
    | KeysDiffer
    | NotNonNegative(ref: Ref)
    | NotIncreasing(edge: nat)

  predicate EdgeRises(p: Proposal, e: Edge) {
    e.source in p.refs && e.target in p.refs && e.source in p.ranks && e.target in p.ranks
    ==> p.ranks[e.source] < p.ranks[e.target]
  }

  /** Every reference has a rank, nothing else has one, none is negative, and every edge leads to a greater one. */
  ghost predicate RanksConsistent(p: Proposal) {
    && p.ranks.Keys == Refs(p)
    && (forall r :: r in p.ranks ==> p.ranks[r] >= 0)
    && (forall e :: e in p.edges && e.source in p.ranks && e.target in p.ranks ==>
          p.ranks[e.target] > p.ranks[e.source])
  }

  method ValidateRanks(p: Proposal) returns (violations: seq<RankViolation>)
    ensures violations == [] <==> RanksConsistent(p)
    ensures forall k: nat :: NotIncreasing(k) in violations <==> k < |p.edges| && !EdgeRises(p, p.edges[k])
  {
    violations := [];
    var refs := Refs(p);
    if p.ranks.Keys != refs {
      violations := [KeysDiffer];
    }
    var rest := p.ranks.Keys;
    while rest != {}
      invariant rest <= p.ranks.Keys
      invariant violations == [] <==>
                p.ranks.Keys == refs && forall r :: r in p.ranks.Keys - rest && r in refs ==> p.ranks[r] >= 0
      invariant forall k: nat :: NotIncreasing(k) !in violations
      decreases rest
    {
      var ref :| ref in rest;
      rest := rest - {ref};
      if ref in refs && p.ranks[ref] < 0 {
        violations := violations + [NotNonNegative(ref)];
      }
    }
    ghost var ranked := violations == [];
    for i := 0 to |p.edges|
      invariant violations == [] <==> ranked && forall k :: 0 <= k < i ==> EdgeRises(p, p.edges[k])
      invariant forall k: nat :: NotIncreasing(k) in violations <==> k < i && !EdgeRises(p, p.edges[k])
    {
      if !EdgeRises(p, p.edges[i]) {
        violations := violations + [NotIncreasing(i)];
      }
    }
    assert forall r :: r in refs <==> r in p.refs;
  }

  /** A proposal that passes the rank check has no cycle: the two checks cannot disagree that way. */
  lemma RanksExcludeCycles(p: Proposal)
    requires RanksConsistent(p)
    ensures Increasing(p, p.ranks) && !Cyclic(p)
  {
    forall u, v | Arrow(p, u, v)
      ensures p.ranks[u] < p.ranks[v]
    {
      assert u in Refs(p) && v in Refs(p);
      var e :| e in p.edges && e.source == u && e.target == v;
      assert u in p.ranks && v in p.ranks;
    }
    IncreasingIsAcyclic(p, p.ranks);
  }

  datatype EdgeViolation =
    | EndpointMissing(edge: nat)
    | SelfEdge(edge: nat)
    | Duplicate(edge: nat)
    | UnknownRequires(edge: nat)
    | HiddenConflict(edge: nat)

  predicate EdgeIsAllowed(p: Proposal, e: Edge) {
    && e.source in p.refs && e.target in p.refs
    && !(e.provenance.ImportUnknown? && e.kind.Requires?)
    && !e.provenance.WriteScopeConflict?
  }

  /** No two edges of one kind join the same slices in the same direction. */
  ghost predicate EdgesValid(p: Proposal) {
    && (forall e :: e in p.edges ==> EdgeIsAllowed(p, e))
    && (forall i, j :: 0 <= i < j < |p.edges| ==> !SameEdge(p.edges[i], p.edges[j]))
  }

  ghost predicate SameEdge(a: Edge, b: Edge) {
    a.source == b.source && a.target == b.target && a.kind == b.kind
  }

  function EdgeKey(e: Edge): (Ref, Ref, EdgeKind) {
    (e.source, e.target, e.kind)
  }

  method ValidateEdges(p: Proposal) returns (violations: seq<EdgeViolation>)
    ensures violations == [] <==> EdgesValid(p)
  {
    violations := [];
    var refs := Refs(p);
    var seen: set<(Ref, Ref, EdgeKind)> := {};
    for i := 0 to |p.edges|
      invariant forall k :: k in seen <==> exists j :: 0 <= j < i && EdgeKey(p.edges[j]) == k
      invariant violations == [] <==>
                && (forall k :: 0 <= k < i ==> EdgeIsAllowed(p, p.edges[k]))
                && (forall a, b :: 0 <= a < b < i ==> !SameEdge(p.edges[a], p.edges[b]))
    {
      var e := p.edges[i];
      if e.source !in refs || e.target !in refs {
        violations := violations + [EndpointMissing(i)];
      }
      if e.source == e.target && e.source !in refs {
        violations := violations + [SelfEdge(i)];
      }
      if EdgeKey(e) in seen {
        violations := violations + [Duplicate(i)];
      }
      seen := seen + {EdgeKey(e)};
      if e.provenance.ImportUnknown? && e.kind.Requires? {
        violations := violations + [UnknownRequires(i)];
      }
      if e.provenance.WriteScopeConflict? {
        violations := violations + [HiddenConflict(i)];
      }
    }
  }

  // ----- frozen plans -----

  /** The bytes of a slice UUID, read as a number: their order is the byte order. */
  type SliceId = nat

  datatype FrozenEdge = FrozenEdge(source: SliceId, target: SliceId, kind: EdgeKind)

  datatype PlanProposal = PlanProposal(
    graph: Proposal, scopes: seq<Scope>, tasks: seq<ArtifactTask>, sources: seq<SliceSource>)

  datatype FrozenPlan = FrozenPlan(
    slices: seq<SliceId>, edges: seq<FrozenEdge>, order: seq<SliceId>, ids: map<Ref, SliceId>, proposal: PlanProposal)

  datatype FreezeResult = Frozen(plan: FrozenPlan) | Rejected

  /** What the proposal type itself guarantees. */
  ghost predicate WellTyped(p: PlanProposal) {
    && Distinct(p.graph.refs) && |p.scopes| == |p.graph.refs| == |p.sources|
    && forall i :: 0 <= i < |p.sources| ==> p.sources[i].ref == p.graph.refs[i]
  }

  /** The new identifiers: one per slice, no two alike. */
  ghost predicate FreshIds(refs: seq<Ref>, ids: map<Ref, SliceId>) {
    && ids.Keys == Members(refs)
    && forall a, b :: a in ids && b in ids && ids[a] == ids[b] ==> a == b
  }

  /** The integration key of a reference: its rank, then its identifier bytes. */
  function Key(ranks: map<Ref, int>, ids: map<Ref, SliceId>, r: Ref): (int, int) {
    (if r in ranks then ranks[r] else 0, if r in ids then ids[r] else 0)
  }

  predicate KeyBefore(a: (int, int), b: (int, int)) {
    a.0 < b.0 || (a.0 == b.0 && a.1 <= b.1)
  }

  ghost predicate Ascending(ranks: map<Ref, int>, ids: map<Ref, SliceId>, s: seq<Ref>) {
    forall i, j :: 0 <= i < j < |s| ==> KeyBefore(Key(ranks, ids, s[i]), Key(ranks, ids, s[j]))
  }

  /** Python's `sorted` under the integration key. */
  function SortRefs(refs: seq<Ref>, ranks: map<Ref, int>, ids: map<Ref, SliceId>): (sorted: seq<Ref>)
    ensures multiset(sorted) == multiset(refs)
  {
    if refs == [] then []
    else
      assert refs == [refs[0]] + refs[1..];
      InsertRef(refs[0], SortRefs(refs[1..], ranks, ids), ranks, ids)
  }

  function InsertRef(r: Ref, sorted: seq<Ref>, ranks: map<Ref, int>, ids: map<Ref, SliceId>): (longer: seq<Ref>)
    ensures multiset(longer) == multiset(sorted) + multiset{r}
  {
    if sorted == [] then [r]
    else if KeyBefore(Key(ranks, ids, r), Key(ranks, ids, sorted[0])) then [r] + sorted
    else
      assert sorted == [sorted[0]] + sorted[1..];
      [sorted[0]] + InsertRef(r, sorted[1..], ranks, ids)
  }

  lemma {:induction false} InsertAscends(r: Ref, sorted: seq<Ref>, ranks: map<Ref, int>, ids: map<Ref, SliceId>)
    requires Ascending(ranks, ids, sorted)
    ensures Ascending(ranks, ids, InsertRef(r, sorted, ranks, ids))
  {
    if sorted != [] && !KeyBefore(Key(ranks, ids, r), Key(ranks, ids, sorted[0])) {
      var rest := InsertRef(r, sorted[1..], ranks, ids);
      InsertAscends(r, sorted[1..], ranks, ids);
      forall k | 0 <= k < |rest|
        ensures KeyBefore(Key(ranks, ids, sorted[0]), Key(ranks, ids, rest[k]))
      {
        assert rest[k] in multiset(rest);
        assert rest[k] == r || rest[k] in sorted[1..];
      }
    }
  }

  lemma {:induction false} SortAscends(refs: seq<Ref>, ranks: map<Ref, int>, ids: map<Ref, SliceId>)
    ensures Ascending(ranks, ids, SortRefs(refs, ranks, ids))
  {
    if refs != [] {
      SortAscends(refs[1..], ranks, ids);
      InsertAscends(refs[0], SortRefs(refs[1..], ranks, ids), ranks, ids);
    }
  }

  lemma SortedIsSame(refs: seq<Ref>, ranks: map<Ref, int>, ids: map<Ref, SliceId>)
    requires Distinct(refs)
    ensures var sorted := SortRefs(refs, ranks, ids);
            Distinct(sorted) && |sorted| == |refs| && Members(sorted) == Members(refs)
  {
    Rearranged(refs, SortRefs(refs, ranks, ids));
  }

  function MapIds(refs: seq<Ref>, ids: map<Ref, SliceId>): (r: seq<SliceId>)
    requires forall x :: x in refs ==> x in ids
    ensures |r| == |refs| && forall i :: 0 <= i < |refs| ==> r[i] == ids[refs[i]]
  {
    seq(|refs|, i requires 0 <= i < |refs| => ids[refs[i]])
  }

  function FreezeEdges(edges: seq<Edge>, ids: map<Ref, SliceId>): (r: seq<FrozenEdge>)
    requires forall e :: e in edges ==> e.source in ids && e.target in ids
    ensures |r| == |edges|
    ensures forall i :: 0 <= i < |edges| ==>
              r[i] == FrozenEdge(ids[edges[i].source], ids[edges[i].target], edges[i].kind)
  {
    seq(|edges|, i requires 0 <= i < |edges| => FrozenEdge(ids[edges[i].source], ids[edges[i].target], edges[i].kind))
  }

  /** What a proposal is checked against: the facts of the analysis, the prefixes of the blueprint and the limits. */
  datatype Inputs = Inputs(
    analysis: Analysis, artifacts: seq<ArtifactFact>, coverage: seq<TestCoverage>, prefixes: set<string>,
    limits: SizeLimits)

  /** The guards a proposal passes before it is frozen. */
  ghost predicate Accepted(p: PlanProposal, i: Inputs)
    requires WellTyped(p)
  {
    && ModulesFit(i.analysis, p.sources)
    && (forall path :: MustCover(i.analysis, path) ==> Listings(i.analysis, p.sources, path) == 1)
    && EdgesValid(p.graph)
    && (exists owner :: IsPairing(owner, i.artifacts, p.tasks))
    && ResourcesApart(p.tasks, p.sources, p.scopes)
    && (forall e :: e in p.graph.edges ==> !IsTestEdge(i.analysis.modules, i.coverage, p.sources, e))
    && SingleWriter(p.scopes)
    && WithinBlueprint(i.prefixes, p.scopes)
    && WithinLimits(i.limits, p.graph.edges, p.scopes)
    && !Cyclic(p.graph)
    && RanksConsistent(p.graph)
  }

  /** The plan a frozen proposal becomes under the given identifiers. */
  ghost predicate Freezes(p: PlanProposal, ids: map<Ref, SliceId>, plan: FrozenPlan) {
    && WellTyped(p) && FreshIds(p.graph.refs, ids) && EdgesValid(p.graph) && RanksConsistent(p.graph)
    && plan.proposal == p && plan.ids == ids
    && |plan.slices| == |p.graph.refs|
    && (forall i :: 0 <= i < |plan.slices| ==> plan.slices[i] == ids[p.graph.refs[i]])
    && (forall e :: e in p.graph.edges ==> e.source in ids && e.target in ids)
    && plan.edges == FreezeEdges(p.graph.edges, ids)
    && (forall r :: r in SortRefs(p.graph.refs, p.graph.ranks, ids) ==> r in ids)
    && plan.order == MapIds(SortRefs(p.graph.refs, p.graph.ranks, ids), ids)
  }

  ghost predicate IsBeforeIn(order: seq<SliceId>, u: SliceId, v: SliceId) {
    exists i, j :: 0 <= i < j < |order| && order[i] == u && order[j] == v
  }

  /** The ledger of published plans; only accepted proposals enter it. */
  class PlanLedger {
    var records: seq<FrozenPlan>

    constructor ()
      ensures records == []
    {
      records := [];
    }

    /** Publish a plan exactly when every guard accepts. */
    method Freeze(p: PlanProposal, i: Inputs, ids: map<Ref, SliceId>) returns (result: FreezeResult)
      requires WellTyped(p) && FreshIds(p.graph.refs, ids)
      modifies this
      ensures result.Frozen? <==> Accepted(p, i)
      ensures result.Frozen? ==>
                forall path :: MustCover(i.analysis, path) ==> CoveredByOne(i.analysis, p.sources, path)
      ensures result.Frozen? ==> Freezes(p, ids, result.plan) && records == old(records) + [result.plan]
      ensures result.Rejected? ==> records == old(records)
    {
      hide IsTestEdge, ResourcesApart, WithinBlueprint, WithinLimits, SingleWriter, IsPairing, MustCover, Listings,
        CoveredByOne, ModulesFit, Cyclic, RanksConsistent;
      RefsTellApart(p);
      var moduleViolations := ValidateSliceModules(i.analysis, p.sources);
      var edgeViolations := ValidateEdges(p.graph);
      var artifactViolations := ValidateArtifacts(i.artifacts, p.tasks);
      var resourceViolations := ValidateResources(p.tasks, p.sources, p.scopes);
      var testViolations := ValidateTestEdges(p.graph.edges, i.analysis.modules, i.coverage, p.sources);
      var scopeViolations := ValidateScopeConflicts(p.scopes);
      var blueprintViolations := ValidateBlueprint(i.prefixes, p.scopes);
      var coverageViolations := ValidateCoverage(i.analysis, p.sources);
      var cyclic := HasCycle(p.graph);
      var rankViolations := ValidateRanks(p.graph);
      var sizeViolations := ValidateLimits(i.limits, p.graph.edges, p.scopes);
      if moduleViolations != [] || edgeViolations != [] || artifactViolations != [] || resourceViolations != []
          || testViolations != [] || scopeViolations != [] || blueprintViolations != [] || coverageViolations != []
         || cyclic || rankViolations != [] || sizeViolations != []
      {
        return Rejected;
      }
      AcceptedIsKeyed(p, ids);
      var plan := FrozenPlan(
        MapIds(p.graph.refs, ids), FreezeEdges(p.graph.edges, ids),
        MapIds(SortRefs(p.graph.refs, p.graph.ranks, ids), ids), ids, p);
      records := records + [plan];
      return Frozen(plan);
    }
  }

  lemma RefsTellApart(p: PlanProposal)
    requires WellTyped(p)
    ensures RefsDiffer(p.sources)
  {
    forall x, y | x in p.sources && y in p.sources && x.ref == y.ref
      ensures x == y
    {
      var a :| 0 <= a < |p.sources| && p.sources[a] == x;
      var b :| 0 <= b < |p.sources| && p.sources[b] == y;
      assert p.graph.refs[a] == p.graph.refs[b];
    }
  }

  lemma AcceptedIsKeyed(p: PlanProposal, ids: map<Ref, SliceId>)
    requires FreshIds(p.graph.refs, ids) && EdgesValid(p.graph)
    ensures forall r :: r in p.graph.refs ==> r in ids
    ensures forall e :: e in p.graph.edges ==> e.source in ids && e.target in ids
    ensures forall x :: x in SortRefs(p.graph.refs, p.graph.ranks, ids) ==> x in ids
  {
    var sorted := SortRefs(p.graph.refs, p.graph.ranks, ids);
    Rearranged(p.graph.refs, sorted);
    assert forall r :: r in p.graph.refs ==> r in Members(p.graph.refs);
    assert forall r :: r in sorted ==> r in Members(sorted);
    assert forall e :: e in p.graph.edges ==> EdgeIsAllowed(p.graph, e);
  }

  /** The integration order lists every slice once and puts every source before its target. */
  lemma OrderIsTopological(p: PlanProposal, ids: map<Ref, SliceId>, plan: FrozenPlan)
    requires Freezes(p, ids, plan)
    ensures Distinct(plan.order) && Members(plan.order) == Members(plan.slices)
    ensures forall e :: e in plan.edges ==> IsBeforeIn(plan.order, e.source, e.target)
  {
    OrderListsSlices(p, ids, plan);
    forall e | e in plan.edges
      ensures IsBeforeIn(plan.order, e.source, e.target)
    {
      var k :| 0 <= k < |plan.edges| && plan.edges[k] == e;
      EdgeInOrder(p, ids, plan, k);
    }
  }

  lemma OrderListsSlices(p: PlanProposal, ids: map<Ref, SliceId>, plan: FrozenPlan)
    requires Freezes(p, ids, plan)
    ensures Distinct(plan.order) && Members(plan.order) == Members(plan.slices)
  {
    var g := p.graph;
    var sorted := SortRefs(g.refs, g.ranks, ids);
    SortedIsSame(g.refs, g.ranks, ids);
    assert plan.slices == MapIds(g.refs, ids);
    assert forall r :: r in sorted <==> r in Members(sorted);
    assert forall r :: r in g.refs <==> r in Members(g.refs);
    OrderOfSame(g.refs, sorted, ids);
  }

  /** Mapping the same references in two orders gives the same identifiers, each once. */
  lemma OrderOfSame(a: seq<Ref>, b: seq<Ref>, ids: map<Ref, SliceId>)
    requires (forall r :: r in a <==> r in b) && (forall r :: r in a ==> r in ids) && Distinct(b)
    requires forall x, y :: x in ids && y in ids && ids[x] == ids[y] ==> x == y
    ensures Distinct(MapIds(b, ids)) && Members(MapIds(b, ids)) == Members(MapIds(a, ids))
  {
    forall x
      ensures x in MapIds(a, ids) <==> x in MapIds(b, ids)
    {
      SameIds(a, b, ids, x);
      SameIds(b, a, ids, x);
    }
  }

  lemma EdgeInOrder(p: PlanProposal, ids: map<Ref, SliceId>, plan: FrozenPlan, k: nat)
    requires Freezes(p, ids, plan) && k < |plan.edges|
    ensures IsBeforeIn(plan.order, plan.edges[k].source, plan.edges[k].target)
  {
    var g := p.graph;
    var e := g.edges[k];
    var sorted := SortRefs(g.refs, g.ranks, ids);
    assert EdgeIsAllowed(g, e);
    assert e.source in Refs(g) && e.target in Refs(g);
    SortedIsSame(g.refs, g.ranks, ids);
    assert e.source in Members(g.refs) && e.target in Members(g.refs);
    SortAscends(g.refs, g.ranks, ids);
    assert e.source in Members(sorted) && e.target in Members(sorted);
    assert Key(g.ranks, ids, e.source).0 < Key(g.ranks, ids, e.target).0;
    assert plan.edges[k].source == ids[e.source] && plan.edges[k].target == ids[e.target];
    hide Freezes, SortRefs, Ascending, Key;
    RisingInOrder(g.ranks, ids, sorted, plan.order, e.source, e.target);
  }

  /** Whoever stands before another in the order has the smaller rank, or the same one and the smaller identifier. */
  lemma OrderIsByRank(p: PlanProposal, ids: map<Ref, SliceId>, plan: FrozenPlan, u: Ref, v: Ref)
    requires Freezes(p, ids, plan) && u in p.graph.refs && v in p.graph.refs
    ensures var ranks := p.graph.ranks;
            && u in ranks && v in ranks && u in ids && v in ids
            && (IsBeforeIn(plan.order, ids[u], ids[v])
                <==> ranks[u] < ranks[v] || (ranks[u] == ranks[v] && ids[u] < ids[v]))
  {
    var g := p.graph;
    var sorted := SortRefs(g.refs, g.ranks, ids);
    SortedIsSame(g.refs, g.ranks, ids);
    SortAscends(g.refs, g.ranks, ids);
    OrderListsSlices(p, ids, plan);
    assert u in Members(g.refs) && v in Members(g.refs) && u in Refs(g) && v in Refs(g);
    assert u in Members(sorted) && v in Members(sorted);
    var i, j := Position(sorted, u), Position(sorted, v);
    assert plan.order[i] == ids[u] && plan.order[j] == ids[v];
    hide Freezes, SortRefs, RanksConsistent, EdgesValid, WellTyped;
    PlacesInOrder(plan.order, ids[u], ids[v], i, j);
    PlacesByKey(g.ranks, ids, sorted, i, j);
  }

  lemma PlacesByKey(ranks: map<Ref, int>, ids: map<Ref, SliceId>, sorted: seq<Ref>, i: nat, j: nat)
    requires Ascending(ranks, ids, sorted) && i < |sorted| && j < |sorted|
    requires sorted[i] in ranks && sorted[j] in ranks && sorted[i] in ids && sorted[j] in ids
    requires ids[sorted[i]] == ids[sorted[j]] ==> i == j
    ensures var u, v := sorted[i], sorted[j];
            i < j <==> ranks[u] < ranks[v] || (ranks[u] == ranks[v] && ids[u] < ids[v])
  {
    if i < j {
      assert KeyBefore(Key(ranks, ids, sorted[i]), Key(ranks, ids, sorted[j]));
    } else if j < i {
      assert KeyBefore(Key(ranks, ids, sorted[j]), Key(ranks, ids, sorted[i]));
    }
  }

  lemma PlacesInOrder(order: seq<SliceId>, u: SliceId, v: SliceId, i: nat, j: nat)
    requires Distinct(order) && i < |order| && j < |order| && order[i] == u && order[j] == v
    ensures IsBeforeIn(order, u, v) <==> i < j
  {
    if IsBeforeIn(order, u, v) {
      var a, b :| 0 <= a < b < |order| && order[a] == u && order[b] == v;
      assert a == i && b == j;
    }
  }

  lemma RisingInOrder(
    ranks: map<Ref, int>, ids: map<Ref, SliceId>, sorted: seq<Ref>, order: seq<SliceId>, s: Ref, t: Ref)
    requires Ascending(ranks, ids, sorted) && s in sorted && t in sorted && forall r :: r in sorted ==> r in ids
    requires Key(ranks, ids, s).0 < Key(ranks, ids, t).0 && order == MapIds(sorted, ids)
    ensures IsBeforeIn(order, ids[s], ids[t])
  {
    var i, j := Position(sorted, s), Position(sorted, t);
    RisingIsBefore(ranks, ids, sorted, i, j);
    assert order[i] == ids[s] && order[j] == ids[t];
  }

  lemma RisingIsBefore(ranks: map<Ref, int>, ids: map<Ref, SliceId>, sorted: seq<Ref>, i: nat, j: nat)
    requires Ascending(ranks, ids, sorted) && i < |sorted| && j < |sorted|
    requires Key(ranks, ids, sorted[i]).0 < Key(ranks, ids, sorted[j]).0
    ensures i < j
  {
  }

  lemma SameIds(a: seq<Ref>, b: seq<Ref>, ids: map<Ref, SliceId>, x: SliceId)
    requires forall r :: r in a ==> r in ids
    requires forall r :: r in b ==> r in ids
    requires Members(a) <= Members(b)
    ensures x in MapIds(a, ids) ==> x in MapIds(b, ids)
  {
    if x in MapIds(a, ids) {
      var i :| 0 <= i < |a| && MapIds(a, ids)[i] == x;
      assert a[i] in Members(a);
      var j :| 0 <= j < |b| && b[j] == a[i];
      assert MapIds(b, ids)[j] == x;
    }
  }

  // ----- the dependency projection -----

  datatype Dependencies = Dependencies(requiredIds: set<SliceId>, orderedBefore: set<SliceId>)

  datatype Projection = Projected(bySlice: map<SliceId, Dependencies>) | EndpointAbsent

  /** The sources of the edges of one kind into a slice. */
  function Predecessors(edges: seq<FrozenEdge>, slice: SliceId, kind: EdgeKind): (r: set<SliceId>)
    ensures forall u :: u in r <==> FrozenEdge(u, slice, kind) in edges
  {
    set e | e in edges && e.target == slice && e.kind == kind :: e.source
  }

  /** The predecessor sets of one kind, for all slices. */
  ghost predicate Collected(
    edges: seq<FrozenEdge>, slices: set<SliceId>, kind: EdgeKind, sets: map<SliceId, set<SliceId>>)
  {
    sets.Keys == slices && forall s :: s in slices ==> sets[s] == Predecessors(edges, s, kind)
  }

  lemma CollectOne(
    edges: seq<FrozenEdge>, e: FrozenEdge, slices: set<SliceId>, kind: EdgeKind, sets: map<SliceId, set<SliceId>>)
    requires Collected(edges, slices, kind, sets) && e.target in slices
    ensures Collected(edges + [e], slices, kind,
                      if e.kind == kind then sets[e.target := sets[e.target] + {e.source}] else sets)
  {
    var after := if e.kind == kind then sets[e.target := sets[e.target] + {e.source}] else sets;
    forall s | s in slices
      ensures after[s] == Predecessors(edges + [e], s, kind)
    {
      forall u
        ensures u in after[s] <==> u in Predecessors(edges + [e], s, kind)
      {
        var f := FrozenEdge(u, s, kind);
        assert f in edges + [e] <==> f in edges || f == e;
      }
    }
  }

  ghost predicate EndpointsPresent(edges: seq<FrozenEdge>, slices: set<SliceId>) {
    forall k :: 0 <= k < |edges| ==> edges[k].source in slices && edges[k].target in slices
  }

  /** The projection loop keeps every edge, under its kind, and adds none. */
  method CollectEdges(edges: seq<FrozenEdge>, slices: set<SliceId>)
    returns (ok: bool, requiredIds: map<SliceId, set<SliceId>>, ordered: map<SliceId, set<SliceId>>)
    ensures ok <==> EndpointsPresent(edges, slices)
    ensures ok ==> Collected(edges, slices, Requires, requiredIds) && Collected(edges, slices, OrderedBefore, ordered)
  {
    requiredIds := map s | s in slices :: {};
    ordered := map s | s in slices :: {};
    for i := 0 to |edges|
      invariant EndpointsPresent(edges[..i], slices)
      invariant Collected(edges[..i], slices, Requires, requiredIds)
      invariant Collected(edges[..i], slices, OrderedBefore, ordered)
    {
      var e := edges[i];
      if e.source !in slices || e.target !in slices {
        return false, requiredIds, ordered;
      }
      assert edges[..i + 1] == edges[..i] + [e];
      CollectOne(edges[..i], e, slices, Requires, requiredIds);
      CollectOne(edges[..i], e, slices, OrderedBefore, ordered);
      if e.kind == Requires {
        requiredIds := requiredIds[e.target := requiredIds[e.target] + {e.source}];
      } else {
        ordered := ordered[e.target := ordered[e.target] + {e.source}];
      }
    }
    assert edges[..|edges|] == edges;
    ok := true;
  }

  /** What the projection loop returns for a frozen plan. */
  ghost predicate ProjectionOf(plan: FrozenPlan, deps: map<SliceId, Dependencies>) {
    && deps.Keys == Members(plan.slices)
    && forall s :: s in deps ==>
         deps[s] == Dependencies(Predecessors(plan.edges, s, Requires), Predecessors(plan.edges, s, OrderedBefore))
  }

  method ProjectDependencies(plan: FrozenPlan) returns (result: Projection)
    ensures result.EndpointAbsent? <==> !EndpointsPresent(plan.edges, Members(plan.slices))
    ensures result.Projected? ==> ProjectionOf(plan, result.bySlice)
  {
    var slices := Members(plan.slices);
    var ok, requiredIds, ordered := CollectEdges(plan.edges, slices);
    if !ok {
      return EndpointAbsent;
    }
    result := Projected(map s | s in slices :: Dependencies(requiredIds[s], ordered[s]));
  }

  /** Between slices of an accepted plan the projection has exactly the edges the proposal had. */
  lemma ProjectionIsFaithful(p: PlanProposal, ids: map<Ref, SliceId>, plan: FrozenPlan, u: Ref, v: Ref, kind: EdgeKind)
    requires Freezes(p, ids, plan) && u in p.graph.refs && v in p.graph.refs
    ensures EndpointsPresent(plan.edges, Members(plan.slices))
    ensures ids[u] in Predecessors(plan.edges, ids[v], kind)
            <==> exists e :: e in p.graph.edges && e.source == u && e.target == v && e.kind == kind
  {
    var g := p.graph;
    forall k | 0 <= k < |plan.edges|
      ensures plan.edges[k].source in plan.slices && plan.edges[k].target in plan.slices
    {
      var e := g.edges[k];
      assert EdgeIsAllowed(g, e);
      var i, j := Position(g.refs, e.source), Position(g.refs, e.target);
      assert plan.slices[i] == ids[e.source] && plan.slices[j] == ids[e.target];
    }
    if FrozenEdge(ids[u], ids[v], kind) in plan.edges {
      var k :| 0 <= k < |plan.edges| && plan.edges[k] == FrozenEdge(ids[u], ids[v], kind);
      assert EdgeIsAllowed(g, g.edges[k]);
      assert g.edges[k] in g.edges;
    }
    if e :| e in g.edges && e.source == u && e.target == v && e.kind == kind {
      var k :| 0 <= k < |g.edges| && g.edges[k] == e;
      assert plan.edges[k] == FrozenEdge(ids[u], ids[v], kind);
    }
  }
}
