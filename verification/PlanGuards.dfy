/**
 The guards of plan validation that compare slices with the rest of the inputs
 (`planning/validator.py`): test edges, resource targets, the target prefixes of
 the blueprint and the size limits.
 */
module PlanGuards {
  import opened Options
  import opened PlanGraph
  import opened SourceCoverage
  import opened WriteScopes

  /** A test file and the modules it tests. */
  datatype TestCoverage = TestCoverage(testFile: string, tested: set<string>)

  datatype SizeLimits = SizeLimits(slices: nat, edges: nat, pathsPerSlice: nat, pathsInAll: nat)

  // ----- test edges -----

  /** A file of the test module tests module `m`. */
  ghost predicate TestsModule(modules: seq<ModuleFact>, coverage: seq<TestCoverage>, testModule: string, m: string) {
    exists c, x :: c in coverage && x in modules && x.id == testModule && c.testFile in x.files && m in c.tested
  }

  /** The slice makes tests for module `m`: it generates them, or translates a module that tests it. */
  ghost predicate Tests(modules: seq<ModuleFact>, coverage: seq<TestCoverage>, s: SliceSource, m: string) {
    match s.kind
    case TestGeneration => m in s.modules
    case TestTranslation => exists id :: id in s.modules && TestsModule(modules, coverage, id, m)
    case _ => false
  }

  predicate Joins(e: Edge, a: Ref, b: Ref) {
    (e.source == a && e.target == b) || (e.source == b && e.target == a)
  }

  /** An edge, either way, between a slice that makes tests and an implementation slice of a module they test. */
  ghost predicate IsTestEdge(
    modules: seq<ModuleFact>, coverage: seq<TestCoverage>, slices: seq<SliceSource>, e: Edge)
  {
    exists t, s, m ::
      && t in slices && s in slices && s.kind.Implementation? && Joins(e, t.ref, s.ref)
      && m in s.modules && Tests(modules, coverage, t, m)
  }

  function TestedBy(tested: map<string, set<string>>, id: string): set<string> {
    if id in tested then tested[id] else {}
  }

  lemma TestsNone(modules: seq<ModuleFact>, coverage: seq<TestCoverage>)
    requires modules == [] || coverage == []
    ensures forall id, m :: !TestsModule(modules, coverage, id, m)
  {
  }

  lemma TestsMore(
    modules: seq<ModuleFact>, more: seq<ModuleFact>, coverage: seq<TestCoverage>, further: seq<TestCoverage>)
    ensures forall id, m :: TestsModule(modules + more, coverage, id, m)
                            <==> TestsModule(modules, coverage, id, m) || TestsModule(more, coverage, id, m)
    ensures forall id, m :: TestsModule(modules, coverage + further, id, m)
                            <==> TestsModule(modules, coverage, id, m) || TestsModule(modules, further, id, m)
  {
  }

  lemma TestsOne(x: ModuleFact, c: TestCoverage, id: string, m: string)
    ensures TestsModule([x], [c], id, m) <==> x.id == id && c.testFile in x.files && m in c.tested
  {
    assert x in [x] && c in [c];
  }

  /** What the files of each test module test. */
  method TestedModules(modules: seq<ModuleFact>, coverage: seq<TestCoverage>)
    returns (tested: map<string, set<string>>)
    ensures forall id, m :: m in TestedBy(tested, id) <==> TestsModule(modules, coverage, id, m)
  {
    hide TestsModule;
    TestsNone(modules, coverage[..0]);
    tested := map[];
    for i := 0 to |coverage|
      invariant forall id, m :: m in TestedBy(tested, id) <==> TestsModule(modules, coverage[..i], id, m)
    {
      var c := coverage[i];
      ghost var before := tested;
      TestsNone(modules[..0], [c]);
      for j := 0 to |modules|
        invariant forall id, m :: m in TestedBy(tested, id) <==>
                    m in TestedBy(before, id) || TestsModule(modules[..j], [c], id, m)
      {
        var x := modules[j];
        assert modules[..j + 1] == modules[..j] + [x];
        TestsMore(modules[..j], [x], [c], []);
        forall id, m
          ensures TestsModule([x], [c], id, m) <==> x.id == id && c.testFile in x.files && m in c.tested
        {
          TestsOne(x, c, id, m);
        }
        if c.testFile in x.files {
          tested := tested[x.id := TestedBy(tested, x.id) + c.tested];
        }
      }
      assert modules[..|modules|] == modules && coverage[..i + 1] == coverage[..i] + [c];
      TestsMore(modules, [], coverage[..i], [c]);
    }
    assert coverage[..|coverage|] == coverage;
  }

  /** The first test slice at an end of the edge. */
  function TestEnd(slices: seq<SliceSource>, e: Edge): (s: Option<SliceSource>)
    ensures s.Some? ==> s.value in slices && IsTestKind(s.value.kind) && s.value.ref in {e.source, e.target}
    ensures s.None? ==> forall x :: x in slices && x.ref in {e.source, e.target} ==> !IsTestKind(x.kind)
  {
    if slices == [] then None
    else if IsTestKind(slices[0].kind) && slices[0].ref in {e.source, e.target} then Some(slices[0])
    else TestEnd(slices[1..], e)
  }

  predicate IsTestKind(kind: SliceKind) {
    kind.TestTranslation? || kind.TestGeneration?
  }

  function SliceAt(slices: seq<SliceSource>, ref: Ref): (s: Option<SliceSource>)
    ensures s.Some? ==> s.value in slices && s.value.ref == ref
    ensures s.None? ==> forall x :: x in slices ==> x.ref != ref
  {
    if slices == [] then None else if slices[0].ref == ref then Some(slices[0]) else SliceAt(slices[1..], ref)
  }

  ghost predicate RefsDiffer(slices: seq<SliceSource>) {
    forall x, y :: x in slices && y in slices && x.ref == y.ref ==> x == y
  }

  method TestedModulesOf(tested: map<string, set<string>>, s: SliceSource) returns (found: set<string>)
    requires IsTestKind(s.kind)
    ensures forall m :: m in found <==>
              if s.kind.TestGeneration? then m in s.modules
              else exists id :: id in s.modules && m in TestedBy(tested, id)
  {
    if s.kind.TestGeneration? {
      return set m | m in s.modules;
    }
    found := {};
    for i := 0 to |s.modules|
      invariant forall m :: m in found <==> exists id :: id in s.modules[..i] && m in TestedBy(tested, id)
    {
      assert s.modules[..i + 1] == s.modules[..i] + [s.modules[i]];
      found := found + TestedBy(tested, s.modules[i]);
    }
    assert s.modules[..|s.modules|] == s.modules;
  }

  /** The edges reported are exactly those between tests and what they test. */
  method ValidateTestEdges(
    edges: seq<Edge>, modules: seq<ModuleFact>, coverage: seq<TestCoverage>, slices: seq<SliceSource>)
    returns (violations: seq<nat>)
    requires RefsDiffer(slices)
    ensures forall i: nat :: i in violations <==> i < |edges| && IsTestEdge(modules, coverage, slices, edges[i])
    ensures violations == [] <==> forall e :: e in edges ==> !IsTestEdge(modules, coverage, slices, e)
  {
    var tested := TestedModules(modules, coverage);
    violations := [];
    for i := 0 to |edges|
      invariant forall k: nat :: k in violations <==> k < i && IsTestEdge(modules, coverage, slices, edges[k])
    {
      var e := edges[i];
      var bad := EndsMeet(tested, modules, coverage, slices, e);
      if bad {
        violations := violations + [i];
      }
    }
    if violations != [] {
      assert violations[0] in violations;
    }
  }

  method EndsMeet(
    tested: map<string, set<string>>, ghost modules: seq<ModuleFact>, ghost coverage: seq<TestCoverage>,
    slices: seq<SliceSource>, e: Edge)
    returns (bad: bool)
    requires RefsDiffer(slices)
    requires forall id, m :: m in TestedBy(tested, id) <==> TestsModule(modules, coverage, id, m)
    ensures bad <==> IsTestEdge(modules, coverage, slices, e)
  {
    hide TestsModule;
    var test := TestEnd(slices, e);
    if test.None? {
      return false;
    }
    var other := SliceAt(slices, if e.source == test.value.ref then e.target else e.source);
    if other.None? || !other.value.kind.Implementation? {
      return false;
    }
    var found := TestedModulesOf(tested, test.value);
    bad := exists m :: m in found && m in other.value.modules;
    assert forall m :: m in found <==> Tests(modules, coverage, test.value, m);
    OnlyEnds(modules, coverage, slices, e, test.value, other.value);
  }

  lemma OnlyEnds(
    modules: seq<ModuleFact>, coverage: seq<TestCoverage>, slices: seq<SliceSource>, e: Edge,
    test: SliceSource, other: SliceSource)
    requires RefsDiffer(slices) && test in slices && other in slices
    requires IsTestKind(test.kind) && other.kind.Implementation? && Joins(e, test.ref, other.ref)
    ensures IsTestEdge(modules, coverage, slices, e)
            <==> exists m :: Tests(modules, coverage, test, m) && m in other.modules
  {
    hide Tests;
    if IsTestEdge(modules, coverage, slices, e) {
      var t, s, m :|
        && t in slices && s in slices && s.kind.Implementation? && Joins(e, t.ref, s.ref)
        && m in s.modules && Tests(modules, coverage, t, m);
      assert t.ref == test.ref && s.ref == other.ref;
    }
  }

  // ----- resource targets -----

  predicate WritesTranslations(s: SliceSource) {
    !s.kind.Contract?
  }

  /** No resource file is written where a translating slice may write. */
  ghost predicate ResourcesApart(tasks: seq<ArtifactTask>, slices: seq<SliceSource>, scopes: seq<Scope>)
    requires |slices| == |scopes|
  {
    forall t, i :: t in tasks && t.kind.ResourceFile? && 0 <= i < |slices| && !slices[i].kind.Contract? ==>
      !Writable(scopes[i], t.targetPath)
  }

  lemma OneFileOverlaps(path: string, scope: Scope)
    ensures ScopesOverlap(Scope([path], []), scope) <==> Writable(scope, path)
  {
    var one := Scope([path], []);
    OverlapIsSharedPath(one, scope);
    if ScopesOverlap(one, scope) {
      var p :| Writable(one, p) && Writable(scope, p);
      assert p == path;
    }
    if Writable(scope, path) {
      assert path in one.writePaths && Writable(one, path);
    }
  }

  method ValidateResources(tasks: seq<ArtifactTask>, slices: seq<SliceSource>, scopes: seq<Scope>)
    returns (violations: seq<nat>)
    requires |slices| == |scopes|
    ensures violations == [] <==> ResourcesApart(tasks, slices, scopes)
  {
    hide ScopesOverlap, Writable;
    violations := [];
    for k := 0 to |tasks|
      invariant violations == [] <==> ResourcesApart(tasks[..k], slices, scopes)
    {
      var t := tasks[k];
      assert tasks[..k + 1] == tasks[..k] + [t];
      var entered := false;
      for i := 0 to |slices|
        invariant entered <==>
                    exists j :: 0 <= j < i && !slices[j].kind.Contract? && Writable(scopes[j], t.targetPath)
      {
        OneFileOverlaps(t.targetPath, scopes[i]);
        if WritesTranslations(slices[i]) && ScopesOverlap(Scope([t.targetPath], []), scopes[i]) {
          entered := true;
        }
      }
      if t.kind.ResourceFile? && entered {
        violations := violations + [k];
      }
    }
    assert tasks[..|tasks|] == tasks;
  }

  // ----- the blueprint -----

  /** With prefixes, every path that any slice may write lies under one of them. */
  ghost predicate WithinBlueprint(prefixes: set<string>, scopes: seq<Scope>) {
    prefixes == {} || forall s, path :: s in scopes && Writable(s, path) ==> UnderSome(prefixes, path)
  }

  ghost predicate UnderSome(prefixes: set<string>, path: string) {
    exists prefix :: prefix in prefixes && AtOrBelow(path, prefix)
  }

  /** The test of the validator. */
  predicate HasPrefix(prefixes: set<string>, path: string) {
    exists prefix :: prefix in prefixes && PathIsInRoot(path, prefix)
  }

  lemma HasPrefixExact(prefixes: set<string>, path: string)
    ensures HasPrefix(prefixes, path) <==> UnderSome(prefixes, path)
  {
    forall prefix { InRootIsBelow(path, prefix); }
  }

  lemma RootsNest(path: string, root: string, prefix: string)
    requires AtOrBelow(path, root) && AtOrBelow(root, prefix)
    ensures AtOrBelow(path, prefix)
  {
    if path != root && root != prefix {
      assert path[..|prefix|] == root[..|prefix|] && path[|prefix|] == root[|prefix|];
    }
  }

  /** The listed paths and roots lie under the prefixes exactly when everything they allow does. */
  lemma ListedUnderPrefixes(prefixes: set<string>, s: Scope)
    ensures (forall p :: p in s.writePaths + s.createRoots ==> UnderSome(prefixes, p))
            <==> forall path :: Writable(s, path) ==> UnderSome(prefixes, path)
  {
    if forall p :: p in s.writePaths + s.createRoots ==> UnderSome(prefixes, p) {
      forall path | Writable(s, path)
        ensures UnderSome(prefixes, path)
      {
        if path !in s.writePaths {
          var root :| root in s.createRoots && AtOrBelow(path, root);
          assert root in s.writePaths + s.createRoots;
          var prefix :| prefix in prefixes && AtOrBelow(root, prefix);
          RootsNest(path, root, prefix);
        }
      }
    }
    forall p | p in s.writePaths + s.createRoots
      ensures Writable(s, p)
    {
      assert AtOrBelow(p, p);
    }
  }

  method ValidateBlueprint(prefixes: set<string>, scopes: seq<Scope>) returns (violations: seq<(nat, string)>)
    ensures violations == [] <==> WithinBlueprint(prefixes, scopes)
    ensures forall v :: v in violations ==> v.0 < |scopes| && Writable(scopes[v.0], v.1) && !UnderSome(prefixes, v.1)
  {
    violations := [];
    if prefixes == {} {
      return;
    }
    hide UnderSome, HasPrefix, AtOrBelow;
    for i := 0 to |scopes|
      invariant violations == [] <==> WithinBlueprint(prefixes, scopes[..i])
      invariant forall v :: v in violations ==>
                  v.0 < |scopes| && Writable(scopes[v.0], v.1) && !UnderSome(prefixes, v.1)
    {
      var s := scopes[i];
      var paths := s.writePaths + s.createRoots;
      ghost var within := violations == [];
      ListedUnderPrefixes(prefixes, s);
      for k := 0 to |paths|
        invariant violations == [] <==> within && forall j :: 0 <= j < k ==> UnderSome(prefixes, paths[j])
        invariant forall v :: v in violations ==>
                    v.0 < |scopes| && Writable(scopes[v.0], v.1) && !UnderSome(prefixes, v.1)
      {
        ListedIsWritable(s, paths[k]);
        HasPrefixExact(prefixes, paths[k]);
        if !HasPrefix(prefixes, paths[k]) {
          violations := violations + [(i, paths[k])];
        }
      }
      assert scopes[..i + 1] == scopes[..i] + [s];
    }
    assert scopes[..|scopes|] == scopes;
  }

  lemma ListedIsWritable(s: Scope, path: string)
    requires path in s.writePaths + s.createRoots
    ensures Writable(s, path)
  {
    assert AtOrBelow(path, path);
  }

  // ----- size -----

  function TotalPaths(scopes: seq<Scope>): nat {
    if scopes == [] then 0 else TotalPaths(scopes[..|scopes| - 1]) + |scopes[|scopes| - 1].writePaths|
  }

  predicate WithinLimits(limits: SizeLimits, edges: seq<Edge>, scopes: seq<Scope>) {
    && |scopes| <= limits.slices && |edges| <= limits.edges && TotalPaths(scopes) <= limits.pathsInAll
    && forall s :: s in scopes ==> |s.writePaths| <= limits.pathsPerSlice
  }

  datatype SizeViolation = TooManySlices | TooManyEdges | TooManyPaths(slice: nat) | TooManyInAll

  method ValidateLimits(limits: SizeLimits, edges: seq<Edge>, scopes: seq<Scope>)
    returns (violations: seq<SizeViolation>)
    ensures violations == [] <==> WithinLimits(limits, edges, scopes)
  {
    violations := [];
    if |scopes| > limits.slices {
      violations := violations + [TooManySlices];
    }
    if |edges| > limits.edges {
      violations := violations + [TooManyEdges];
    }
    var total := 0;
    for i := 0 to |scopes|
      invariant total == TotalPaths(scopes[..i])
      invariant violations == [] <==>
                && |scopes| <= limits.slices && |edges| <= limits.edges
                && forall j :: 0 <= j < i ==> |scopes[j].writePaths| <= limits.pathsPerSlice
    {
      assert scopes[..i + 1][..i] == scopes[..i];
      total := total + |scopes[i].writePaths|;
      if |scopes[i].writePaths| > limits.pathsPerSlice {
        violations := violations + [TooManyPaths(i)];
      }
    }
    assert scopes[..|scopes|] == scopes;
    if total > limits.pathsInAll {
      violations := violations + [TooManyInAll];
    }
  }
}
