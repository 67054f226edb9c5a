/** Module closures by worklist (`planning/ripple.py`, `analysis/query.py`) against reachability. */
module Reachability {
  import opened Counting
  import opened Options
  import TextSorting

  type Node = string

  type Graph = map<Node, set<Node>>

  function Succ(g: Graph, n: Node): set<Node> {
    if n in g then g[n] else {}
  }

  ghost predicate IsPath(g: Graph, p: seq<Node>) {
    && p != []
    && forall i, j :: 0 <= i && j == i + 1 && j < |p| ==> p[j] in Succ(g, p[i])
  }

  ghost predicate Joins(p: seq<Node>, a: Node, b: Node) {
    p != [] && p[0] == a && p[|p| - 1] == b
  }

  ghost predicate Reaches(g: Graph, a: Node, b: Node) {
    exists p :: IsPath(g, p) && Joins(p, a, b)
  }

  lemma ReachesSelf(g: Graph, a: Node)
    ensures Reaches(g, a, a)
  {
    assert IsPath(g, [a]) && Joins([a], a, a);
  }

  lemma ReachesStep(g: Graph, a: Node, b: Node, c: Node)
    requires Reaches(g, a, b) && c in Succ(g, b)
    ensures Reaches(g, a, c)
  {
    var p :| IsPath(g, p) && Joins(p, a, b);
    var q := p + [c];
    forall i, j | 0 <= i && j == i + 1 && j < |q|
      ensures q[j] in Succ(g, q[i])
    {
      assert q[i] == p[i];
      assert j < |p| ==> q[j] == p[j];
    }
    assert Joins(q, a, c);
  }

  ghost predicate Closed(g: Graph, s: set<Node>) {
    forall a, b :: a in s && b in Succ(g, a) ==> b in s
  }

  lemma {:induction false} ClosedHoldsPath(g: Graph, s: set<Node>, p: seq<Node>, k: nat)
    requires Closed(g, s) && IsPath(g, p) && p[0] in s && k < |p|
    ensures p[k] in s
  {
    if k > 0 {
      ClosedHoldsPath(g, s, p, k - 1);
      assert p[k] in Succ(g, p[k - 1]);
    }
  }

  /** A closed set around the seeds whose nodes are all reachable is exactly what is reachable. */
  lemma ClosureIsReachability(g: Graph, seeds: set<Node>, s: set<Node>)
    requires seeds <= s && Closed(g, s)
    requires AllReached(g, seeds, s)
    ensures forall n {:trigger ReachedFrom(g, seeds, n)} :: n in s <==> ReachedFrom(g, seeds, n)
  {
    forall n | ReachedFrom(g, seeds, n)
      ensures n in s
    {
      var a :| a in seeds && Reaches(g, a, n);
      var p :| IsPath(g, p) && Joins(p, a, n);
      ClosedHoldsPath(g, s, p, |p| - 1);
    }
  }

  function Nodes(g: Graph): set<Node> {
    g.Keys + set n, m | n in g && m in g[n] :: m
  }

  lemma SuccInNodes(g: Graph, n: Node)
    ensures Succ(g, n) <= Nodes(g)
  {
  }

  /** One more edge. */
  function WithEdge(g: Graph, from: Node, to: Node): (h: Graph)
    ensures forall a, b :: b in Succ(h, a) <==> b in Succ(g, a) || (a == from && b == to)
  {
    g[from := Succ(g, from) + {to}]
  }

  // ----- the reverse import closure of the ripple preview -----

  /** An import whose target is a module of the project, or something else. */
  datatype Import = Import(from: Node, target: Option<Node>)

  datatype Relation = Relation(kind: string, from: Option<Node>, target: Node)

  /** `dependent` imports `module`, or relates to it as an import or a coverage. */
  ghost predicate DependsOn(imports: seq<Import>, relations: seq<Relation>, dependent: Node, dependency: Node) {
    || Import(dependent, Some(dependency)) in imports
    || Relation("IMPORT", Some(dependent), dependency) in relations
    || Relation("COVERAGE", Some(dependent), dependency) in relations
  }

  method ReverseGraph(imports: seq<Import>, relations: seq<Relation>) returns (reverse: Graph)
    ensures forall a, b :: b in Succ(reverse, a) <==> DependsOn(imports, relations, b, a)
  {
    reverse := map[];
    for i := 0 to |imports|
      invariant forall a, b :: b in Succ(reverse, a) <==> Import(b, Some(a)) in imports[..i]
    {
      var edge := imports[i];
      assert imports[..i + 1] == imports[..i] + [edge];
      if edge.target.Some? {
        reverse := WithEdge(reverse, edge.target.value, edge.from);
      }
    }
    assert imports[..|imports|] == imports;
    for i := 0 to |relations|
      invariant forall a, b :: b in Succ(reverse, a) <==> DependsOn(imports, relations[..i], b, a)
    {
      var relation := relations[i];
      assert relations[..i + 1] == relations[..i] + [relation];
      if (relation.kind == "IMPORT" || relation.kind == "COVERAGE") && relation.from.Some? {
        reverse := WithEdge(reverse, relation.target, relation.from.value);
      }
    }
    assert relations[..|relations|] == relations;
  }

  ghost predicate ReachedFrom(g: Graph, seeds: set<Node>, n: Node) {
    exists a :: a in seeds && Reaches(g, a, n)
  }

  ghost predicate AllReached(g: Graph, seeds: set<Node>, seen: set<Node>) {
    forall n {:trigger ReachedFrom(g, seeds, n)} :: n in seen ==> ReachedFrom(g, seeds, n)
  }

  /** Whatever is seen and no longer waiting has all its successors seen. */
  ghost predicate Expanded(g: Graph, seen: set<Node>, waiting: seq<Node>) {
    forall a :: a in seen && a !in waiting ==> Succ(g, a) <= seen
  }

  lemma SuccessorsReached(g: Graph, seeds: set<Node>, seen: set<Node>, current: Node)
    requires AllReached(g, seeds, seen) && current in seen
    ensures AllReached(g, seeds, seen + Succ(g, current))
  {
    assert ReachedFrom(g, seeds, current);
    var a :| a in seeds && Reaches(g, a, current);
    forall n | n in Succ(g, current)
      ensures ReachedFrom(g, seeds, n)
    {
      ReachesStep(g, a, current, n);
    }
  }

  /** The new successors of one node, seen and queued. */
  method Visit(next: set<Node>, seen: set<Node>, queue: seq<Node>) returns (seen': set<Node>, queue': seq<Node>)
    ensures seen' == seen + next
    ensures forall n :: n in queue' <==> n in queue || n in next - seen
    ensures next <= seen ==> queue' == queue
  {
    seen', queue' := seen, queue;
    var rest := next;
    while rest != {}
      invariant rest <= next && seen' == seen + (next - rest)
      invariant forall n :: n in queue' <==> n in queue || n in (next - rest) - seen
      invariant next <= seen ==> queue' == queue
      decreases |rest|
    {
      var dependent :| dependent in rest;
      rest := rest - {dependent};
      if dependent !in seen' {
        seen' := seen' + {dependent};
        queue' := queue' + [dependent];
      }
    }
  }

  lemma ExpandedAfter(g: Graph, seen: set<Node>, waiting: seq<Node>, seen': set<Node>, waiting': seq<Node>)
    requires waiting != [] && Expanded(g, seen, waiting) && seen' == seen + Succ(g, waiting[0])
    requires forall n :: n in waiting' <==> n in waiting[1..] || n in Succ(g, waiting[0]) - seen
    ensures Expanded(g, seen', waiting')
  {
    assert waiting == [waiting[0]] + waiting[1..];
    forall a | a in seen' && a !in waiting'
      ensures Succ(g, a) <= seen'
    {
      assert a in seen;
    }
  }

  /** A finite set that no edge leaves. */
  ghost predicate Bounds(g: Graph, seeds: set<Node>, universe: set<Node>) {
    seeds <= universe && forall n :: Succ(g, n) <= universe
  }

  lemma SomeBound(g: Graph, seeds: set<Node>) returns (universe: set<Node>)
    ensures Bounds(g, seeds, universe)
  {
    universe := Nodes(g) + seeds;
    forall n
      ensures Succ(g, n) <= Nodes(g) + seeds
    {
      SuccInNodes(g, n);
    }
  }

  lemma SeedsReached(g: Graph, seeds: set<Node>)
    ensures AllReached(g, seeds, seeds)
  {
    forall n | n in seeds
      ensures ReachedFrom(g, seeds, n)
    {
      ReachesSelf(g, n);
    }
  }

  /** A worklist run dry leaves exactly what is reachable. */
  lemma SearchDone(g: Graph, seeds: set<Node>, seen: set<Node>)
    requires seeds <= seen && AllReached(g, seeds, seen) && Expanded(g, seen, [])
    ensures forall n {:trigger ReachedFrom(g, seeds, n)} :: n in seen <==> ReachedFrom(g, seeds, n)
  {
    ClosureIsReachability(g, seeds, seen);
  }

  /** The breadth-first part, on any graph. */
  method Explore(g: Graph, seeds: set<Node>) returns (seen: set<Node>)
    ensures forall n {:trigger ReachedFrom(g, seeds, n)} :: n in seen <==> ReachedFrom(g, seeds, n)
  {
    seen := seeds;
    var queue := Listed(seeds);
    ghost var universe := SomeBound(g, seeds);
    SeedsReached(g, seeds);
    while queue != []
      invariant seeds <= seen <= universe && (forall n :: n in queue ==> n in seen)
      invariant AllReached(g, seeds, seen)
      invariant Expanded(g, seen, queue)
      decreases |universe - seen|, |queue|
    {
      var more, longer := Visit(Succ(g, queue[0]), seen, queue[1..]);
      SuccessorsReached(g, seeds, seen, queue[0]);
      ExpandedAfter(g, seen, queue, more, longer);
      Shrinks(universe, seen, more);
      seen, queue := more, longer;
    }
    SearchDone(g, seeds, seen);
  }

  lemma Shrinks(universe: set<Node>, before: set<Node>, after: set<Node>)
    requires before <= after <= universe
    ensures |universe - after| <= |universe - before|
    ensures after != before ==> |universe - after| < |universe - before|
  {
    if after != before {
      var x :| x in after && x !in before;
      assert universe - after <= (universe - before) - {x};
      SubsetSize(universe - after, (universe - before) - {x});
    }
  }

  /** A chain of modules, each depending directly on the one before it. */
  ghost predicate DependencyChain(imports: seq<Import>, relations: seq<Relation>, p: seq<Node>) {
    && p != []
    && forall i, j :: 0 <= i && j == i + 1 && j < |p| ==> DependsOn(imports, relations, p[j], p[i])
  }

  /** The module is a seed or depends on one over some number of steps. */
  ghost predicate Dependent(imports: seq<Import>, relations: seq<Relation>, seeds: set<Node>, n: Node) {
    exists p :: DependencyChain(imports, relations, p) && p[0] in seeds && p[|p| - 1] == n
  }

  lemma ChainsArePaths(imports: seq<Import>, relations: seq<Relation>, reverse: Graph, seeds: set<Node>, n: Node)
    requires forall a, b :: b in Succ(reverse, a) <==> DependsOn(imports, relations, b, a)
    ensures ReachedFrom(reverse, seeds, n) <==> Dependent(imports, relations, seeds, n)
  {
    hide DependsOn, Succ;
    if ReachedFrom(reverse, seeds, n) {
      var a :| a in seeds && Reaches(reverse, a, n);
      var p :| IsPath(reverse, p) && Joins(p, a, n);
      assert DependencyChain(imports, relations, p);
    }
    if Dependent(imports, relations, seeds, n) {
      var p :| DependencyChain(imports, relations, p) && p[0] in seeds && p[|p| - 1] == n;
      assert IsPath(reverse, p) && Joins(p, p[0], n);
      assert Reaches(reverse, p[0], n);
    }
  }

  /** Exactly the seeds and the modules that depend on them, over any number of steps. */
  method ReverseImportClosure(imports: seq<Import>, relations: seq<Relation>, seeds: set<Node>)
    returns (seen: set<Node>)
    ensures forall n :: n in seen <==> Dependent(imports, relations, seeds, n)
  {
    var reverse := ReverseGraph(imports, relations);
    seen := Explore(reverse, seeds);
    forall n
      ensures n in seen <==> Dependent(imports, relations, seeds, n)
    {
      ChainsArePaths(imports, relations, reverse, seeds, n);
    }
  }

  // ----- the impact query -----

  datatype Direction = Downstream | Upstream | Both

  /** The edges a direction follows. */
  ghost predicate Follows(imports: Graph, direction: Direction, a: Node, b: Node) {
    match direction
    case Downstream => b in Succ(imports, a)
    case Upstream => a in Succ(imports, b)
    case Both => b in Succ(imports, a) || a in Succ(imports, b)
  }

  ghost predicate GraphOf(imports: Graph, direction: Direction, g: Graph) {
    forall a, b :: b in Succ(g, a) <==> Follows(imports, direction, a, b)
  }

  /** Reverse every edge into a new map. */
  method Transpose(imports: Graph) returns (g: Graph)
    ensures GraphOf(imports, Upstream, g)
  {
    g := map[];
    var sources := imports.Keys;
    while sources != {}
      invariant sources <= imports.Keys
      invariant forall a, b :: b in Succ(g, a) <==> b !in sources && a in Succ(imports, b)
      decreases |sources|
    {
      var source :| source in sources;
      sources := sources - {source};
      var targets := imports[source];
      while targets != {}
        invariant targets <= imports[source]
        invariant forall a, b :: b in Succ(g, a) <==>
                    (b !in sources && b != source && a in Succ(imports, b))
                    || (b == source && a in imports[source] - targets)
        decreases |targets|
      {
        var target :| target in targets;
        targets := targets - {target};
        g := WithEdge(g, target, source);
      }
    }
  }

  /**
   Add every reverse edge to the very map that is being read.  While the targets
   of a source are iterated, the source's own set never changes.
   */
  method Symmetrize(imports: Graph) returns (g: Graph)
    ensures GraphOf(imports, Both, g)
  {
    g := imports;
    var sources := imports.Keys;
    while sources != {}
      invariant sources <= imports.Keys <= g.Keys
      invariant forall a, b :: b in Succ(imports, a) ==> b in Succ(g, a)
      invariant forall a, b :: b in Succ(g, a) ==> Follows(imports, Both, a, b)
      invariant forall a, b :: a !in sources && b in Succ(imports, a) ==> a in Succ(g, b)
      decreases |sources|
    {
      var source :| source in sources;
      ghost var before := g;
      var live := g[source];
      var targets := live;
      while targets != {}
        invariant targets <= live && source in g && g[source] == live && imports.Keys <= g.Keys
        invariant forall a, b :: b in Succ(g, a) <==> b in Succ(before, a) || (b == source && a in live - targets)
        decreases |targets|
      {
        var target :| target in targets;
        targets := targets - {target};
        g := WithEdge(g, target, source);
      }
      sources := sources - {source};
      SourceDone(imports, before, g, source);
    }
  }

  lemma SourceDone(imports: Graph, before: Graph, after: Graph, source: Node)
    requires forall a, b :: b in Succ(imports, a) ==> b in Succ(before, a)
    requires forall a, b :: b in Succ(before, a) ==> Follows(imports, Both, a, b)
    requires forall a, b :: b in Succ(after, a) <==> b in Succ(before, a) || (b == source && a in Succ(before, source))
    ensures forall a, b :: b in Succ(after, a) ==> Follows(imports, Both, a, b)
    ensures forall b :: b in Succ(imports, source) ==> source in Succ(after, b)
  {
    forall a, b | b in Succ(after, a)
      ensures Follows(imports, Both, a, b)
    {
      if b !in Succ(before, a) {
        assert a in Succ(before, source);
        assert Follows(imports, Both, source, a);
      }
    }
  }

  /** The depth-first part: a stack that may hold a node more than once. */
  method Collect(g: Graph, selected: Node) returns (seen: set<Node>)
    ensures forall n {:trigger Reaches(g, selected, n)} :: n in seen <==> Reaches(g, selected, n)
  {
    seen := {};
    var pending := [selected];
    ghost var universe := SomeBound(g, {selected});
    ReachesSelf(g, selected);
    while pending != []
      invariant seen <= universe && (forall n :: n in pending ==> n in universe)
      invariant selected in seen || selected in pending
      invariant PendingReached(g, selected, seen, pending)
      invariant Stacked(g, seen, pending)
      decreases |universe - seen|, |pending|
    {
      var current := pending[|pending| - 1];
      var rest := pending[..|pending| - 1];
      assert pending == rest + [current];
      if current in seen {
        pending := rest;
        continue;
      }
      var next := Listed(Succ(g, current));
      CollectStep(g, selected, seen, rest, current, next);
      Shrinks(universe, seen, seen + {current});
      seen, pending := seen + {current}, rest + next;
    }
    CollectDone(g, selected, seen);
  }

  ghost predicate PendingReached(g: Graph, selected: Node, seen: set<Node>, pending: seq<Node>) {
    forall n {:trigger Reaches(g, selected, n)} :: n in seen || n in pending ==> Reaches(g, selected, n)
  }

  ghost predicate Stacked(g: Graph, seen: set<Node>, pending: seq<Node>) {
    forall a, b :: a in seen && b in Succ(g, a) ==> b in seen || b in pending
  }

  lemma CollectStep(g: Graph, selected: Node, seen: set<Node>, rest: seq<Node>, current: Node, next: seq<Node>)
    requires PendingReached(g, selected, seen, rest + [current]) && Stacked(g, seen, rest + [current])
    requires forall n :: n in next <==> n in Succ(g, current)
    ensures PendingReached(g, selected, seen + {current}, rest + next)
    ensures Stacked(g, seen + {current}, rest + next)
  {
    var all := rest + [current];
    assert current in all;
    assert Reaches(g, selected, current);
    forall n | n in next
      ensures Reaches(g, selected, n)
    {
      ReachesStep(g, selected, current, n);
    }
  }

  lemma CollectDone(g: Graph, selected: Node, seen: set<Node>)
    requires selected in seen && PendingReached(g, selected, seen, []) && Stacked(g, seen, [])
    ensures forall n {:trigger Reaches(g, selected, n)} :: n in seen <==> Reaches(g, selected, n)
  {
    forall n | Reaches(g, selected, n)
      ensures n in seen
    {
      var p :| IsPath(g, p) && Joins(p, selected, n);
      ClosedHoldsPath(g, seen, p, |p| - 1);
    }
  }

  /** A module of the project as the query sees it. */
  datatype Module = Module(id: Node, exports: set<string>, files: seq<string>)

  datatype Location = Location(path: string, line: nat, column: nat)

  /** The module a query names by its identifier, or else the first one that exports the symbol. */
  function Selected(modules: seq<Module>, value: string): (r: Option<Node>)
    ensures (exists m :: m in modules && m.id == value) ==> r == Some(value)
    ensures r.Some? && r.value != value ==>
              exists k :: 0 <= k < |modules| && FirstExports(modules, value, k) && modules[k].id == r.value
    ensures r.None? <==> forall m :: m in modules ==> m.id != value && value !in m.exports
  {
    if exists m :: m in modules && m.id == value then Some(value) else FirstExporting(modules, value)
  }

  ghost predicate FirstExports(modules: seq<Module>, symbol: string, k: nat)
    requires k < |modules|
  {
    symbol in modules[k].exports && forall j :: 0 <= j < k ==> symbol !in modules[j].exports
  }

  function FirstExporting(modules: seq<Module>, symbol: string): (r: Option<Node>)
    ensures r.Some? ==>
              exists k :: 0 <= k < |modules| && FirstExports(modules, symbol, k) && modules[k].id == r.value
    ensures r.None? <==> forall m :: m in modules ==> symbol !in m.exports
  {
    if modules == [] then None
    else if symbol in modules[0].exports then
      assert FirstExports(modules, symbol, 0);
      Some(modules[0].id)
    else
      assert modules == [modules[0]] + modules[1..];
      assert forall k: nat :: k < |modules[1..]| && FirstExports(modules[1..], symbol, k) ==>
          FirstExports(modules, symbol, k + 1);
      FirstExporting(modules[1..], symbol)
  }

  /** Where a module is shown: the start of the first file of the first entry that has one. */
  function Shown(modules: seq<Module>, n: Node): (r: Option<Location>)
    ensures r.Some? <==> exists m :: m in modules && m.id == n && m.files != []
    ensures r.Some? ==>
              exists k :: 0 <= k < |modules| && FirstWithFile(modules, n, k)
                          && r.value == Location(modules[k].files[0], 1, 0)
  {
    if modules == [] then None
    else if modules[0].id == n && modules[0].files != [] then
      assert FirstWithFile(modules, n, 0);
      Some(Location(modules[0].files[0], 1, 0))
    else
      assert modules == [modules[0]] + modules[1..];
      assert forall k: nat :: k < |modules[1..]| && FirstWithFile(modules[1..], n, k) ==>
          FirstWithFile(modules, n, k + 1);
      Shown(modules[1..], n)
  }

  ghost predicate FirstWithFile(modules: seq<Module>, n: Node, k: nat)
    requires k < |modules|
  {
    && modules[k].id == n && modules[k].files != []
    && forall j :: 0 <= j < k ==> !(modules[j].id == n && modules[j].files != [])
  }

  method Adjacency(imports: seq<Import>) returns (g: Graph)
    ensures forall a, b :: b in Succ(g, a) <==> Import(a, Some(b)) in imports
  {
    g := map[];
    for i := 0 to |imports|
      invariant forall a, b :: b in Succ(g, a) <==> Import(a, Some(b)) in imports[..i]
    {
      var edge := imports[i];
      assert imports[..i + 1] == imports[..i] + [edge];
      if edge.target.Some? {
        g := WithEdge(g, edge.from, edge.target.value);
      }
    }
    assert imports[..|imports|] == imports;
  }

  /** One import, followed in the direction of the query. */
  ghost predicate Linked(imports: seq<Import>, direction: Direction, a: Node, b: Node) {
    match direction
    case Downstream => Import(a, Some(b)) in imports
    case Upstream => Import(b, Some(a)) in imports
    case Both => Import(a, Some(b)) in imports || Import(b, Some(a)) in imports
  }

  ghost predicate ImpactChain(imports: seq<Import>, direction: Direction, p: seq<Node>) {
    && p != []
    && forall i, j :: 0 <= i && j == i + 1 && j < |p| ==> Linked(imports, direction, p[i], p[j])
  }

  /** What a module has an impact on: whatever a chain of imports in the query's direction joins to it. */
  ghost predicate Impacted(imports: seq<Import>, direction: Direction, selected: Node, n: Node) {
    exists p :: ImpactChain(imports, direction, p) && Joins(p, selected, n)
  }

  lemma ImpactIsReach(imports: seq<Import>, direction: Direction, g: Graph, selected: Node, n: Node)
    requires forall a, b :: b in Succ(g, a) <==> Linked(imports, direction, a, b)
    ensures Reaches(g, selected, n) <==> Impacted(imports, direction, selected, n)
  {
    hide Linked, Succ;
    if Reaches(g, selected, n) {
      var p :| IsPath(g, p) && Joins(p, selected, n);
      assert ImpactChain(imports, direction, p);
    }
    if Impacted(imports, direction, selected, n) {
      var p :| ImpactChain(imports, direction, p) && Joins(p, selected, n);
      assert IsPath(g, p);
    }
  }

  function TextOf(): Node -> string {
    (n: Node) => n
  }

  /** Some nodes in order, each with the place where it is shown. */
  ghost predicate ShownInOrder(modules: seq<Module>, nodes: seq<Node>, hits: seq<Location>) {
    && Distinct(nodes) && TextSorting.Ascending(nodes, TextOf())
    && |hits| == |nodes| && forall i :: 0 <= i < |hits| ==> Shown(modules, nodes[i]) == Some(hits[i])
  }

  /** The hits are the places of exactly the modules with a file that the selected one has an impact on, in order. */
  ghost predicate ShowsImpact(
    modules: seq<Module>, imports: seq<Import>, direction: Direction, selected: Node, hits: seq<Location>)
  {
    exists nodes ::
      && ShownInOrder(modules, nodes, hits)
      && forall n :: n in nodes <==> Impacted(imports, direction, selected, n) && Shown(modules, n).Some?
  }

  /** The answer to an impact query; nothing for an unknown name. */
  method Impact(modules: seq<Module>, imports: seq<Import>, direction: Direction, value: string)
    returns (hits: seq<Location>)
    ensures Selected(modules, value).None? ==> hits == []
    ensures Selected(modules, value).Some? ==>
              ShowsImpact(modules, imports, direction, Selected(modules, value).value, hits)
  {
    var selected := Selected(modules, value);
    if selected.None? {
      return [];
    }
    var adjacency := Adjacency(imports);
    var graph := adjacency;
    match direction {
      case Downstream =>
      case Upstream => graph := Transpose(adjacency);
      case Both => graph := Symmetrize(adjacency);
    }
    var seen := Collect(graph, selected.value);
    var listed := Listed(seen);
    var ordered := TextSorting.SortByText(listed, TextOf());
    TextSorting.SortByTextSorts(listed, TextOf());
    DistinctCounts(listed);
    DistinctCounts(ordered);
    ghost var nodes;
    hits, nodes := Locations(modules, ordered);
    forall n
      ensures n in nodes <==> Impacted(imports, direction, selected.value, n) && Shown(modules, n).Some?
    {
      ImpactIsReach(imports, direction, graph, selected.value, n);
      assert n in ordered <==> n in multiset(ordered);
      assert n in listed <==> n in multiset(listed);
    }
  }

  method Locations(modules: seq<Module>, ordered: seq<Node>) returns (hits: seq<Location>, ghost nodes: seq<Node>)
    requires Distinct(ordered) && TextSorting.Ascending(ordered, TextOf())
    ensures ShownInOrder(modules, nodes, hits)
    ensures forall n :: n in nodes <==> n in ordered && Shown(modules, n).Some?
  {
    hits, nodes := [], [];
    for k := 0 to |ordered|
      invariant ShownInOrder(modules, nodes, hits)
      invariant forall n :: n in nodes <==> n in ordered[..k] && Shown(modules, n).Some?
    {
      assert ordered[..k + 1] == ordered[..k] + [ordered[k]];
      var location := Shown(modules, ordered[k]);
      if location.Some? {
        forall h | h in nodes
          ensures h != ordered[k] && !TextSorting.Less(ordered[k], h)
        {
          var i :| 0 <= i < k && ordered[..k][i] == h;
          assert !TextSorting.Less(TextOf()(ordered[k]), TextOf()(ordered[i]));
        }
        hits, nodes := hits + [location.value], nodes + [ordered[k]];
      }
    }
    assert ordered[..|ordered|] == ordered;
  }

  function Reversed(p: seq<Node>): (r: seq<Node>)
    ensures |r| == |p| && forall i :: 0 <= i < |r| ==> r[i] == p[|p| - 1 - i]
  {
    if p == [] then [] else Reversed(p[1..]) + [p[0]]
  }

  lemma ReversedPath(g: Graph, h: Graph, p: seq<Node>)
    requires IsPath(g, p) && forall a, b :: b in Succ(g, a) ==> a in Succ(h, b)
    ensures IsPath(h, Reversed(p))
  {
    var r := Reversed(p);
    forall i, j | 0 <= i && j == i + 1 && j < |r|
      ensures r[j] in Succ(h, r[i])
    {
      var k := |p| - 1 - j;
      assert p[k + 1] in Succ(g, p[k]);
    }
  }

  lemma ReachesBack(g: Graph, h: Graph, a: Node, b: Node)
    requires Reaches(g, a, b) && forall x, y :: y in Succ(g, x) ==> x in Succ(h, y)
    ensures Reaches(h, b, a)
  {
    var p :| IsPath(g, p) && Joins(p, a, b);
    ReversedPath(g, h, p);
    assert Joins(Reversed(p), b, a);
  }

  /** Downstream and upstream impact are dual. */
  lemma ImpactDual(imports: Graph, down: Graph, up: Graph, a: Node, b: Node)
    requires GraphOf(imports, Downstream, down) && GraphOf(imports, Upstream, up)
    ensures Reaches(down, a, b) <==> Reaches(up, b, a)
  {
    assert forall x, y :: y in Succ(down, x) <==> Follows(imports, Downstream, x, y);
    assert forall x, y :: y in Succ(up, x) <==> Follows(imports, Upstream, x, y);
    if Reaches(down, a, b) { ReachesBack(down, up, a, b); }
    if Reaches(up, b, a) { ReachesBack(up, down, b, a); }
  }

  /** Impact in both directions is symmetric and contains each of the others. */
  lemma ImpactBoth(imports: Graph, down: Graph, both: Graph, a: Node, b: Node)
    requires GraphOf(imports, Downstream, down) && GraphOf(imports, Both, both)
    ensures Reaches(both, a, b) <==> Reaches(both, b, a)
    ensures Reaches(down, a, b) ==> Reaches(both, a, b)
  {
    assert forall x, y :: y in Succ(both, x) <==> Follows(imports, Both, x, y);
    if Reaches(both, a, b) { ReachesBack(both, both, a, b); }
    if Reaches(both, b, a) { ReachesBack(both, both, b, a); }
    if Reaches(down, a, b) {
      assert forall x, y :: y in Succ(down, x) <==> Follows(imports, Downstream, x, y);
      var p :| IsPath(down, p) && Joins(p, a, b);
      assert IsPath(both, p);
    }
  }
}
