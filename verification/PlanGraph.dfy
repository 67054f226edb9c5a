/**
 The dependency graph of a plan proposal: Kahn's cycle check, the rank check and
 the order they leave behind (`planning/validator.py`).
 */
module PlanGraph {
  import opened Counting

  type Ref = string

  datatype EdgeKind = Requires | OrderedBefore

  datatype Provenance = Structural | ImportStatic | ImportUnknown | Coverage | WriteScopeConflict

  datatype Edge = Edge(source: Ref, target: Ref, kind: EdgeKind, provenance: Provenance)

  /** Local references are unique by construction of a proposal. */
  datatype Proposal = Proposal(refs: seq<Ref>, edges: seq<Edge>, ranks: map<Ref, int>)

  function Refs(p: Proposal): (s: set<Ref>)
    ensures forall r :: r in s <==> r in p.refs
  {
    set r | r in p.refs
  }

  ghost predicate Links(edges: seq<Edge>, u: Ref, v: Ref) {
    exists e :: e in edges && e.source == u && e.target == v
  }

  /** An edge between two slices of the proposal. */
  ghost predicate Arrow(p: Proposal, u: Ref, v: Ref) {
    u in p.refs && v in p.refs && Links(p.edges, u, v)
  }

  ghost predicate Walk(p: Proposal, walk: seq<Ref>) {
    forall i, j :: 0 <= i && j == i + 1 && j < |walk| ==> Arrow(p, walk[i], walk[j])
  }

  ghost predicate ClosedWalk(p: Proposal, walk: seq<Ref>) {
    |walk| >= 2 && walk[0] == walk[|walk| - 1] && Walk(p, walk)
  }

  ghost predicate Cyclic(p: Proposal) {
    exists walk :: ClosedWalk(p, walk)
  }

  // ----- two certificates -----

  /** Numbers that increase along every arrow exclude closed walks. */
  ghost predicate Increasing(p: Proposal, height: map<Ref, int>) {
    && (forall r :: r in p.refs ==> r in height)
    && (forall u, v :: Arrow(p, u, v) ==> height[u] < height[v])
  }

  lemma {:induction false} HeightAlongWalk(p: Proposal, height: map<Ref, int>, walk: seq<Ref>)
    requires Increasing(p, height) && Walk(p, walk) && |walk| >= 2
    ensures walk[0] in p.refs && walk[|walk| - 1] in p.refs
    ensures height[walk[0]] < height[walk[|walk| - 1]]
  {
    assert Arrow(p, walk[0], walk[1]);
    if |walk| > 2 {
      var tail := walk[1..];
      HeightAlongWalk(p, height, tail);
    }
  }

  lemma IncreasingIsAcyclic(p: Proposal, height: map<Ref, int>)
    requires Increasing(p, height)
    ensures !Cyclic(p)
  {
    forall walk | |walk| >= 2 && Walk(p, walk)
      ensures walk[0] != walk[|walk| - 1]
    {
      HeightAlongWalk(p, height, walk);
    }
  }

  ghost predicate HasSource(p: Proposal, s: set<Ref>, v: Ref) {
    exists u :: u in s && Arrow(p, u, v)
  }

  /** A finite set in which every member has a source contains a closed walk. */
  ghost predicate Rooted(p: Proposal, s: set<Ref>) {
    forall v {:trigger HasSource(p, s, v)} :: v in s ==> HasSource(p, s, v)
  }

  lemma RootedIsCyclic(p: Proposal, s: set<Ref>)
    requires s != {} && Rooted(p, s)
    ensures Cyclic(p)
  {
    var v :| v in s;
    ExtendBackwards(p, s, [v], {v});
  }

  lemma ExtendBackwards(p: Proposal, s: set<Ref>, walk: seq<Ref>, seen: set<Ref>)
    requires Rooted(p, s) && walk != [] && Walk(p, walk)
    requires forall r :: r in seen <==> r in walk
    requires seen <= s
    ensures Cyclic(p)
    decreases s - seen
  {
    assert walk[0] in walk && HasSource(p, s, walk[0]);
    var u :| u in s && Arrow(p, u, walk[0]);
    var longer := [u] + walk;
    assert Walk(p, longer);
    if u in walk {
      var k :| 0 <= k < |walk| && walk[k] == u;
      var closed := longer[..k + 2];
      assert closed[|closed| - 1] == walk[k];
      assert Walk(p, closed);
      assert ClosedWalk(p, closed);
    } else {
      ExtendBackwards(p, s, longer, seen + {u});
    }
  }

  // ----- Kahn's algorithm -----

  type Adjacency = map<Ref, set<Ref>>

  /** The members of `s` that point at `v`. */
  function Sources(adjacency: Adjacency, s: set<Ref>, v: Ref): set<Ref>
    requires s <= adjacency.Keys
  {
    set u | u in s && v in adjacency[u]
  }

  ghost predicate AdjacencyOf(edges: seq<Edge>, refs: set<Ref>, adjacency: Adjacency) {
    && adjacency.Keys == refs
    && forall u, v :: u in refs ==> (v in adjacency[u] <==> v in refs && Links(edges, u, v))
  }

  lemma AdjacencyStep(edges: seq<Edge>, e: Edge, refs: set<Ref>, adjacency: Adjacency)
    requires AdjacencyOf(edges, refs, adjacency)
    ensures AdjacencyOf(edges + [e], refs,
              if e.source in refs && e.target in refs
              then adjacency[e.source := adjacency[e.source] + {e.target}] else adjacency)
  {
    forall u, v
      ensures Links(edges + [e], u, v) <==> Links(edges, u, v) || (e.source == u && e.target == v)
    {
      if Links(edges, u, v) {
        var x :| x in edges && x.source == u && x.target == v;
        assert x in edges + [e];
      }
      if e.source == u && e.target == v {
        assert (edges + [e])[|edges|] == e;
      }
    }
  }

  ghost predicate Counted(adjacency: Adjacency, refs: set<Ref>, indegree: map<Ref, int>) {
    && adjacency.Keys == refs && indegree.Keys == refs
    && forall v :: v in refs ==> indegree[v] == |Sources(adjacency, refs, v)|
  }

  lemma CountStep(adjacency: Adjacency, refs: set<Ref>, indegree: map<Ref, int>, u: Ref, v: Ref)
    requires Counted(adjacency, refs, indegree) && u in refs && v in refs && v !in adjacency[u]
    ensures Counted(adjacency[u := adjacency[u] + {v}], refs, indegree[v := indegree[v] + 1])
  {
    var after := adjacency[u := adjacency[u] + {v}];
    forall w | w in refs
      ensures |Sources(after, refs, w)| == |Sources(adjacency, refs, w)| + if w == v then 1 else 0
    {
      if w == v {
        assert Sources(after, refs, w) == Sources(adjacency, refs, w) + {u};
      } else {
        assert Sources(after, refs, w) == Sources(adjacency, refs, w);
      }
    }
  }

  lemma EmptyCounts(refs: set<Ref>, adjacency: Adjacency, indegree: map<Ref, int>)
    requires adjacency.Keys == refs && indegree.Keys == refs
    requires forall r :: r in refs ==> adjacency[r] == {} && indegree[r] == 0
    ensures AdjacencyOf([], refs, adjacency) && Counted(adjacency, refs, indegree)
  {
    forall v | v in refs
      ensures Sources(adjacency, refs, v) == {}
    {
    }
  }

  /** The graph bookkeeping after some edges were read. */
  ghost predicate GraphOf(edges: seq<Edge>, refs: set<Ref>, adjacency: Adjacency, indegree: map<Ref, int>) {
    AdjacencyOf(edges, refs, adjacency) && Counted(adjacency, refs, indegree)
  }

  lemma KnownEdge(edges: seq<Edge>, e: Edge, refs: set<Ref>, adjacency: Adjacency, indegree: map<Ref, int>)
    requires GraphOf(edges, refs, adjacency, indegree)
    requires e.source in refs && e.target in refs ==> e.target in adjacency[e.source]
    ensures GraphOf(edges + [e], refs, adjacency, indegree)
  {
    AdjacencyStep(edges, e, refs, adjacency);
    if e.source in refs && e.target in refs {
      assert adjacency[e.source] + {e.target} == adjacency[e.source];
      assert adjacency[e.source := adjacency[e.source] + {e.target}] == adjacency;
    }
  }

  lemma NewEdge(edges: seq<Edge>, e: Edge, refs: set<Ref>, adjacency: Adjacency, indegree: map<Ref, int>)
    requires GraphOf(edges, refs, adjacency, indegree)
    requires e.source in refs && e.target in refs && e.target !in adjacency[e.source]
    ensures GraphOf(edges + [e], refs, adjacency[e.source := adjacency[e.source] + {e.target}],
                    indegree[e.target := indegree[e.target] + 1])
  {
    AdjacencyStep(edges, e, refs, adjacency);
    CountStep(adjacency, refs, indegree, e.source, e.target);
  }

  /** The first loop: adjacency sets and indegrees from the edge list. */
  method BuildAdjacency(p: Proposal) returns (adjacency: Adjacency, indegree: map<Ref, int>)
    ensures GraphOf(p.edges, Refs(p), adjacency, indegree)
  {
    var refs := Refs(p);
    adjacency := map r | r in refs :: {};
    indegree := map r | r in refs :: 0;
    EmptyCounts(refs, adjacency, indegree);
    for i := 0 to |p.edges|
      invariant GraphOf(p.edges[..i], refs, adjacency, indegree)
    {
      var e := p.edges[i];
      assert p.edges[..i + 1] == p.edges[..i] + [e];
      assert adjacency.Keys == refs && indegree.Keys == refs;
      if e.source in refs && e.target in refs && e.target !in adjacency[e.source] {
        NewEdge(p.edges[..i], e, refs, adjacency, indegree);
        adjacency := adjacency[e.source := adjacency[e.source] + {e.target}];
        indegree := indegree[e.target := indegree[e.target] + 1];
      } else {
        KnownEdge(p.edges[..i], e, refs, adjacency, indegree);
      }
    }
    assert p.edges[..|p.edges|] == p.edges;
  }

  /** Visited slices had all their sources visited before them. */
  ghost predicate SourcesFirst(adjacency: Adjacency, visited: seq<Ref>) {
    forall i, u :: 0 <= i < |visited| && u in adjacency && visited[i] in adjacency[u] ==> u in visited[..i]
  }

  /** The indegree of an open slice counts its open sources, plus the visit still being paid out. */
  ghost predicate OpenCounts(adjacency: Adjacency, open: set<Ref>, owed: set<Ref>, indegree: map<Ref, int>) {
    && open <= adjacency.Keys && adjacency.Keys == indegree.Keys
    && forall v :: v in open ==> indegree[v] == |Sources(adjacency, open, v)| + if v in owed then 1 else 0
  }

  ghost predicate IsQueue(queue: seq<Ref>, open: set<Ref>, indegree: map<Ref, int>)
    requires open <= indegree.Keys
  {
    Distinct(queue) && forall v :: v in queue <==> v in open && indegree[v] == 0
  }

  /** Taking a slice with no open source off the open set leaves its children owed one. */
  lemma VisitOwes(adjacency: Adjacency, open: set<Ref>, ready: Ref, indegree: map<Ref, int>)
    requires OpenCounts(adjacency, open, {}, indegree)
    requires ready in open && indegree[ready] == 0
    ensures ready !in adjacency[ready]
    ensures OpenCounts(adjacency, open - {ready}, adjacency[ready], indegree)
  {
    assert Sources(adjacency, open, ready) == {};
    assert ready !in Sources(adjacency, open, ready);
    forall v | v in open - {ready}
      ensures |Sources(adjacency, open, v)|
          == |Sources(adjacency, open - {ready}, v)| + if v in adjacency[ready] then 1 else 0
    {
      if v in adjacency[ready] {
        assert Sources(adjacency, open, v) == Sources(adjacency, open - {ready}, v) + {ready};
      } else {
        assert Sources(adjacency, open, v) == Sources(adjacency, open - {ready}, v);
      }
    }
  }

  /** No child of an open slice was visited already. */
  lemma ChildrenAreOpen(adjacency: Adjacency, visited: seq<Ref>, ready: Ref, child: Ref)
    requires SourcesFirst(adjacency, visited)
    requires ready in adjacency && ready !in visited && child in adjacency[ready]
    ensures child !in visited
  {
    forall i | 0 <= i < |visited|
      ensures visited[i] != child
    {
      var prefix := visited[..i];
      assert ready !in prefix;
    }
  }

  lemma VisitKeepsSourcesFirst(
    adjacency: Adjacency, visited: seq<Ref>, open: set<Ref>, ready: Ref, indegree: map<Ref, int>)
    requires SourcesFirst(adjacency, visited)
    requires open == adjacency.Keys - Members(visited)
    requires OpenCounts(adjacency, open, {}, indegree)
    requires ready in open && indegree[ready] == 0
    ensures SourcesFirst(adjacency, visited + [ready])
  {
    var longer := visited + [ready];
    forall i, u | 0 <= i < |longer| && u in adjacency && longer[i] in adjacency[u]
      ensures u in longer[..i]
    {
      if i == |visited| {
        assert Sources(adjacency, open, ready) == {};
        assert u !in Sources(adjacency, open, ready);
        assert longer[..i] == visited;
      } else {
        assert longer[..i] == visited[..i];
      }
    }
  }

  /** If every slice was visited, the visiting order increases along every arrow. */
  lemma VisitedAll(p: Proposal, adjacency: Adjacency, visited: seq<Ref>)
    requires AdjacencyOf(p.edges, Refs(p), adjacency) && SourcesFirst(adjacency, visited)
    requires Distinct(visited) && Members(visited) <= Refs(p) && |visited| == |Refs(p)|
    ensures !Cyclic(p)
  {
    DistinctSize(visited);
    SubsetSize(Members(visited), Refs(p));
    var height := map r | r in Refs(p) :: Position(visited, r) as int;
    forall u, v | Arrow(p, u, v)
      ensures height[u] < height[v]
    {
      var i := Position(visited, v);
      assert v in adjacency[u];
      var k :| 0 <= k < i && visited[..i][k] == u;
      PositionOf(visited, k);
    }
    IncreasingIsAcyclic(p, height);
  }

  lemma OpenHasSource(p: Proposal, adjacency: Adjacency, open: set<Ref>, indegree: map<Ref, int>, v: Ref)
    requires AdjacencyOf(p.edges, Refs(p), adjacency) && OpenCounts(adjacency, open, {}, indegree)
    requires v in open && indegree[v] != 0
    ensures HasSource(p, open, v)
  {
    assert Sources(adjacency, open, v) != {};
    var u :| u in Sources(adjacency, open, v);
    assert Arrow(p, u, v);
  }

  /** If the queue ran dry early, every open slice has an open source. */
  lemma StuckIsCyclic(p: Proposal, adjacency: Adjacency, open: set<Ref>, indegree: map<Ref, int>)
    requires AdjacencyOf(p.edges, Refs(p), adjacency) && open != {}
    requires OpenCounts(adjacency, open, {}, indegree) && IsQueue([], open, indegree)
    ensures Cyclic(p)
  {
    forall v {:trigger HasSource(p, open, v)} | v in open
      ensures HasSource(p, open, v)
    {
      assert v !in [];
      OpenHasSource(p, adjacency, open, indegree, v);
    }
    RootedIsCyclic(p, open);
  }

  /** What was visited so far, and what is still open. */
  ghost predicate Visiting(refs: set<Ref>, adjacency: Adjacency, visited: seq<Ref>, open: set<Ref>) {
    && adjacency.Keys == refs
    && Distinct(visited) && Members(visited) <= refs && open == refs - Members(visited)
    && SourcesFirst(adjacency, visited)
  }

  lemma VisitNext(
    refs: set<Ref>, adjacency: Adjacency, visited: seq<Ref>, open: set<Ref>, indegree: map<Ref, int>, ready: Ref)
    requires Visiting(refs, adjacency, visited, open) && OpenCounts(adjacency, open, {}, indegree)
    requires ready in open && indegree[ready] == 0
    ensures Visiting(refs, adjacency, visited + [ready], open - {ready})
    ensures adjacency[ready] * refs <= open - {ready}
    ensures OpenCounts(adjacency, open - {ready}, adjacency[ready], indegree)
  {
    VisitOwes(adjacency, open, ready, indegree);
    VisitKeepsSourcesFirst(adjacency, visited, open, ready, indegree);
    forall child | child in adjacency[ready] * refs
      ensures child in open - {ready}
    {
      ChildrenAreOpen(adjacency, visited, ready, child);
    }
    assert Members(visited + [ready]) == Members(visited) + {ready};
  }

  lemma AllVisited(refs: set<Ref>, adjacency: Adjacency, visited: seq<Ref>, open: set<Ref>)
    requires Visiting(refs, adjacency, visited, open)
    ensures |visited| == |refs| <==> open == {}
  {
    DistinctSize(visited);
    SubsetSize(Members(visited), refs);
    if open == {} {
      forall r | r in refs
        ensures r in Members(visited)
      {
        assert r !in open;
      }
      assert Members(visited) == refs;
    }
  }

  lemma ChildrenAreRefs(p: Proposal, adjacency: Adjacency, r: Ref)
    requires AdjacencyOf(p.edges, Refs(p), adjacency) && r in p.refs
    ensures adjacency[r] * Refs(p) == adjacency[r]
  {
    assert r in Refs(p);
    forall v | v in adjacency[r]
      ensures v in adjacency[r] * Refs(p)
    {
      assert v in Refs(p);
    }
    assert adjacency[r] <= adjacency[r] * Refs(p);
  }

  lemma PopQueue(queue: seq<Ref>, open: set<Ref>, indegree: map<Ref, int>)
    requires open <= indegree.Keys && queue != [] && IsQueue(queue, open, indegree)
    ensures queue[0] in open && indegree[queue[0]] == 0
    ensures IsQueue(queue[1..], open - {queue[0]}, indegree)
  {
    assert queue[0] in queue;
    assert queue == [queue[0]] + queue[1..];
    assert queue[0] !in queue[1..];
  }

  /** Kahn's algorithm decides whether the proposal has a closed walk. */
  method HasCycle(p: Proposal) returns (cyclic: bool)
    ensures cyclic <==> Cyclic(p)
  {
    var adjacency, indegree := BuildAdjacency(p);
    ghost var refs := Refs(p);
    ghost var open, visited := refs, [];
    var queue := Listed(set r | r in indegree && indegree[r] == 0);
    var visitedCount := 0;
    while queue != []
      invariant visitedCount == |visited|
      invariant Visiting(refs, adjacency, visited, open)
      invariant OpenCounts(adjacency, open, {}, indegree)
      invariant IsQueue(queue, open, indegree)
      decreases open
    {
      var ref := queue[0];
      PopQueue(queue, open, indegree);
      VisitNext(refs, adjacency, visited, open, indegree, ref);
      ChildrenAreRefs(p, adjacency, ref);
      queue := queue[1..];
      visitedCount := visitedCount + 1;
      visited, open := visited + [ref], open - {ref};
      queue, indegree := ReleaseChildren(adjacency, open, adjacency[ref], queue, indegree);
    }
    AllVisited(refs, adjacency, visited, open);
    if open == {} {
      VisitedAll(p, adjacency, visited);
    } else {
      StuckIsCyclic(p, adjacency, open, indegree);
    }
    cyclic := visitedCount != |Refs(p)|;
  }

  /** The inner loop: every child loses one, and joins the queue when it reaches zero. */
  method ReleaseChildren(
    adjacency: Adjacency, ghost open: set<Ref>, owed: set<Ref>, ready: seq<Ref>, degrees: map<Ref, int>)
    returns (queue: seq<Ref>, indegree: map<Ref, int>)
    requires OpenCounts(adjacency, open, owed, degrees) && owed <= open
    requires IsQueue(ready, open, degrees)
    ensures OpenCounts(adjacency, open, {}, indegree)
    ensures IsQueue(queue, open, indegree)
  {
    queue, indegree := ready, degrees;
    var children := Listed(owed);
    ghost var rest := owed;
    for i := 0 to |children|
      invariant forall x :: x in rest <==> x in children[i..]
      invariant rest <= open
      invariant OpenCounts(adjacency, open, rest, indegree)
      invariant IsQueue(queue, open, indegree)
    {
      var child := children[i];
      assert child in children[i..];
      assert children[i..] == [child] + children[i + 1..];
      indegree := indegree[child := indegree[child] - 1];
      rest := rest - {child};
      if indegree[child] == 0 {
        assert child !in queue;
        queue := queue + [child];
      }
    }
  }
}
