/**
 Write scopes and artifact tasks of a plan proposal (`planning/validator.py`).

 A slice may write the paths it lists and everything at or below its create
 roots.  The string test on two scopes is proved to be emptiness of their common
 writable paths, and the two validation loops are proved to accept exactly the
 proposals with one writer per path and one task per artifact.
 */
module WriteScopes {
  import opened Counting
  import opened Options

  datatype Scope = Scope(writePaths: seq<string>, createRoots: seq<string>)

  predicate PathIsInRoot(path: string, root: string) {
    path == root || root + "/" <= path
  }

  predicate ScopesOverlap(left: Scope, right: Scope) {
    || (exists path :: path in left.writePaths && path in right.writePaths)
    || (exists path, root :: path in left.writePaths && root in right.createRoots && PathIsInRoot(path, root))
    || (exists path, root :: path in right.writePaths && root in left.createRoots && PathIsInRoot(path, root))
    || (exists a, b :: a in left.createRoots && b in right.createRoots && (PathIsInRoot(a, b) || PathIsInRoot(b, a)))
  }

  /** The root itself, or a path that goes on from it with a slash. */
  predicate AtOrBelow(path: string, root: string) {
    path == root || (|path| > |root| && path[..|root|] == root && path[|root|] == '/')
  }

  lemma InRootIsBelow(path: string, root: string)
    ensures PathIsInRoot(path, root) <==> AtOrBelow(path, root)
  {
    if AtOrBelow(path, root) && path != root {
      assert path[..|root| + 1] == root + "/";
    }
    if PathIsInRoot(path, root) && path != root {
      assert path[..|root| + 1] == root + "/";
      assert path[..|root|] == (root + "/")[..|root|] && path[|root|] == (root + "/")[|root|];
    }
  }

  /** What a slice with this scope is allowed to write. */
  ghost predicate Writable(scope: Scope, path: string) {
    path in scope.writePaths || exists root :: root in scope.createRoots && AtOrBelow(path, root)
  }

  /** Two roots above one path lie one above the other. */
  lemma RootsOfOnePath(path: string, a: string, b: string)
    requires AtOrBelow(path, a) && AtOrBelow(path, b) && |a| <= |b|
    ensures AtOrBelow(b, a)
  {
    if path != a && path != b && |a| < |b| {
      assert b[..|a|] == path[..|a|] && b[|a|] == path[|a|];
    }
  }

  /** The overlap test holds exactly when some path is writable under both scopes. */
  lemma OverlapIsSharedPath(left: Scope, right: Scope)
    ensures ScopesOverlap(left, right) <==> exists path :: Writable(left, path) && Writable(right, path)
  {
    if path :| Writable(left, path) && Writable(right, path) {
      if path !in left.writePaths && path !in right.writePaths {
        var a :| a in left.createRoots && AtOrBelow(path, a);
        var b :| b in right.createRoots && AtOrBelow(path, b);
        if |a| <= |b| { RootsOfOnePath(path, a, b); } else { RootsOfOnePath(path, b, a); }
        InRootIsBelow(a, b);
        InRootIsBelow(b, a);
      } else if path !in left.writePaths || path !in right.writePaths {
        forall root { InRootIsBelow(path, root); }
      }
    }
    if ScopesOverlap(left, right) {
      var path := SharedPath(left, right);
    }
  }

  lemma SharedPath(left: Scope, right: Scope) returns (path: string)
    requires ScopesOverlap(left, right)
    ensures Writable(left, path) && Writable(right, path)
  {
    if p :| p in left.writePaths && p in right.writePaths {
      path := p;
    } else if p, root :| p in left.writePaths && root in right.createRoots && PathIsInRoot(p, root) {
      path := p;
      InRootIsBelow(p, root);
    } else if p, root :| p in right.writePaths && root in left.createRoots && PathIsInRoot(p, root) {
      path := p;
      InRootIsBelow(p, root);
    } else {
      var a, b :| a in left.createRoots && b in right.createRoots && (PathIsInRoot(a, b) || PathIsInRoot(b, a));
      path := if PathIsInRoot(a, b) then a else b;
      InRootIsBelow(a, b);
      InRootIsBelow(b, a);
      assert AtOrBelow(path, a) && AtOrBelow(path, b);
    }
  }

  ghost predicate SingleWriter(scopes: seq<Scope>) {
    forall i, j, path :: 0 <= i < j < |scopes| && Writable(scopes[i], path) ==> !Writable(scopes[j], path)
  }

  /** The pairwise conflict loop: one violation for every overlapping pair, in order, and no other. */
  method ValidateScopeConflicts(scopes: seq<Scope>) returns (violations: seq<(nat, nat)>)
    ensures forall v :: v in violations <==> 0 <= v.0 < v.1 < |scopes| && ScopesOverlap(scopes[v.0], scopes[v.1])
    ensures violations == [] <==> SingleWriter(scopes)
  {
    violations := [];
    for left := 0 to |scopes|
      invariant forall v :: v in violations <==>
                  0 <= v.0 < left && v.0 < v.1 < |scopes| && ScopesOverlap(scopes[v.0], scopes[v.1])
    {
      for right := left + 1 to |scopes|
        invariant forall v :: v in violations <==>
                    && 0 <= v.0 <= left && v.0 < v.1 < |scopes| && (v.0 == left ==> v.1 < right)
                    && ScopesOverlap(scopes[v.0], scopes[v.1])
      {
        if ScopesOverlap(scopes[left], scopes[right]) {
          violations := violations + [(left, right)];
        }
      }
    }
    NoConflictIsSingleWriter(scopes, violations);
  }

  lemma NoConflictIsSingleWriter(scopes: seq<Scope>, violations: seq<(nat, nat)>)
    requires forall v :: v in violations <==> 0 <= v.0 < v.1 < |scopes| && ScopesOverlap(scopes[v.0], scopes[v.1])
    ensures violations == [] <==> SingleWriter(scopes)
  {
    if violations == [] {
      forall i, j, path | 0 <= i < j < |scopes| && Writable(scopes[i], path)
        ensures !Writable(scopes[j], path)
      {
        assert (i, j) !in violations;
        OverlapIsSharedPath(scopes[i], scopes[j]);
      }
    } else {
      var v := violations[0];
      assert v in violations;
      OverlapIsSharedPath(scopes[v.0], scopes[v.1]);
      var path :| Writable(scopes[v.0], path) && Writable(scopes[v.1], path);
    }
  }

  // ----- artifact tasks -----

  datatype ArtifactKind = GeneratedCode | DeclarativeConfig | ResourceFile

  datatype ArtifactFact = ArtifactFact(path: string, sourcePath: Option<string>, kind: ArtifactKind)

  datatype ArtifactTask = ArtifactTask(
    artifactPath: Option<string>, sourcePath: string, targetPath: string, kind: ArtifactKind)

  predicate TaskMatchesFact(task: ArtifactTask, fact: ArtifactFact) {
    match task.artifactPath
    case Some(path) => path == fact.path
    case None =>
      task.sourcePath ==
      (match fact.sourcePath case Some(s) => (if s == "" then fact.path else s) case None => fact.path)
  }

  datatype ArtifactViolation =
    | TaskCount(fact: nat, count: nat)
    | KindMismatch(task: nat)
    | FactCount(task: nat)

  /** The tasks matching one fact, by index: the list the validator counts. */
  function TasksFor(fact: ArtifactFact, tasks: seq<ArtifactTask>): (r: seq<int>)
    ensures forall k :: k in r <==> 0 <= k < |tasks| && TaskMatchesFact(tasks[k], fact)
    ensures forall a, b :: 0 <= a < b < |r| ==> r[a] < r[b]
  {
    if tasks == [] then []
    else
      var last := |tasks| - 1;
      var front := TasksFor(fact, tasks[..last]);
      assert forall k :: k in front <==> 0 <= k < last && TaskMatchesFact(tasks[k], fact);
      assert forall a :: 0 <= a < |front| ==> front[a] in front;
      if TaskMatchesFact(tasks[last], fact) then front + [last] else front
  }

  /** The facts one task identifies, by index. */
  function FactsFor(task: ArtifactTask, facts: seq<ArtifactFact>): (r: seq<int>)
    ensures forall k :: k in r <==> 0 <= k < |facts| && TaskMatchesFact(task, facts[k])
    ensures forall a, b :: 0 <= a < b < |r| ==> r[a] < r[b]
  {
    if facts == [] then []
    else
      var last := |facts| - 1;
      var front := FactsFor(task, facts[..last]);
      assert forall k :: k in front <==> 0 <= k < last && TaskMatchesFact(task, facts[k]);
      assert forall a :: 0 <= a < |front| ==> front[a] in front;
      if TaskMatchesFact(task, facts[last]) then front + [last] else front
  }

  /** A task names its artifact by path, or else by the artifact's source: its own path, if it was made from none. */
  ghost predicate IsTaskFor(task: ArtifactTask, fact: ArtifactFact) {
    || task.artifactPath == Some(fact.path)
    || (task.artifactPath.None? && fact.sourcePath in {None, Some("")} && task.sourcePath == fact.path)
    || (task.artifactPath.None? && fact.sourcePath == Some(task.sourcePath) && task.sourcePath != "")
  }

  lemma MatchIsExact(task: ArtifactTask, fact: ArtifactFact)
    ensures TaskMatchesFact(task, fact) <==> IsTaskFor(task, fact)
  {
  }

  lemma MatchesExact(facts: seq<ArtifactFact>, tasks: seq<ArtifactTask>)
    ensures forall k, t :: 0 <= k < |facts| && 0 <= t < |tasks| ==>
              (TaskMatchesFact(tasks[t], facts[k]) <==> IsTaskFor(tasks[t], facts[k]))
  {
    forall k, t | 0 <= k < |facts| && 0 <= t < |tasks|
      ensures TaskMatchesFact(tasks[t], facts[k]) <==> IsTaskFor(tasks[t], facts[k])
    {
      MatchIsExact(tasks[t], facts[k]);
    }
  }

  /** Tasks and facts pair off: a list naming every task once, the k-th being the only match of fact k, of its kind. */
  ghost predicate IsPairing(owner: seq<int>, facts: seq<ArtifactFact>, tasks: seq<ArtifactTask>) {
    && |owner| == |facts| == |tasks|
    && (forall k :: 0 <= k < |facts| ==> 0 <= owner[k] < |tasks|)
    && Distinct(owner)
    && (forall k, t :: 0 <= k < |facts| && 0 <= t < |tasks| ==>
        (IsTaskFor(tasks[t], facts[k]) <==> owner[k] == t))
    && (forall k :: 0 <= k < |facts| ==> tasks[owner[k]].kind == facts[k].kind)
  }

  /** The first check of the validator, for one fact. */
  ghost predicate FactIsServed(fact: ArtifactFact, tasks: seq<ArtifactTask>) {
    exists t: nat :: TasksFor(fact, tasks) == [t] && t < |tasks| && tasks[t].kind == fact.kind
  }

  /** Each fact has one task, of its kind, and each task one fact. */
  ghost predicate ExactlyMatched(facts: seq<ArtifactFact>, tasks: seq<ArtifactTask>) {
    && (forall k :: 0 <= k < |facts| ==> FactIsServed(facts[k], tasks))
    && (forall t :: 0 <= t < |tasks| ==> |FactsFor(tasks[t], facts)| == 1)
  }

  method ValidateArtifacts(facts: seq<ArtifactFact>, tasks: seq<ArtifactTask>)
    returns (violations: seq<ArtifactViolation>)
    ensures violations == [] <==> exists owner :: IsPairing(owner, facts, tasks)
  {
    hide IsPairing, TasksFor, FactsFor, FactIsServed, TaskMatchesFact;
    violations := [];
    for k := 0 to |facts|
      invariant violations == [] <==> forall j :: 0 <= j < k ==> FactIsServed(facts[j], tasks)
    {
      var matches := TasksFor(facts[k], tasks);
      ServedExactly(facts[k], tasks);
      if |matches| != 1 {
        violations := violations + [TaskCount(k, |matches|)];
      } else {
        if tasks[matches[0]].kind != facts[k].kind {
          violations := violations + [KindMismatch(matches[0])];
        }
      }
    }
    ghost var served := violations == [];
    for t := 0 to |tasks|
      invariant violations == [] <==>
                served && forall j :: 0 <= j < t ==> |FactsFor(tasks[j], facts)| == 1
    {
      if |FactsFor(tasks[t], facts)| != 1 {
        violations := violations + [FactCount(t)];
      }
    }
    if violations == [] {
      ghost var owner := MatchedIsPairing(facts, tasks);
    } else if owner :| IsPairing(owner, facts, tasks) {
      PairingIsMatched(owner, facts, tasks);
    }
  }

  lemma ServedExactly(fact: ArtifactFact, tasks: seq<ArtifactTask>)
    ensures var r := TasksFor(fact, tasks);
            && (|r| == 1 ==> 0 <= r[0] < |tasks|)
            && (FactIsServed(fact, tasks) <==> |r| == 1 && tasks[r[0]].kind == fact.kind)
  {
    var r := TasksFor(fact, tasks);
    if |r| == 1 {
      assert r == [r[0]] && r[0] in r;
    }
  }

  function OnlyTask(fact: ArtifactFact, tasks: seq<ArtifactTask>): (t: int)
    requires |TasksFor(fact, tasks)| == 1
    ensures 0 <= t < |tasks| && forall k :: 0 <= k < |tasks| ==> (TaskMatchesFact(tasks[k], fact) <==> k == t)
  {
    var r := TasksFor(fact, tasks);
    assert r == [r[0]] && r[0] in r;
    r[0]
  }

  function OnlyFact(task: ArtifactTask, facts: seq<ArtifactFact>): (f: int)
    requires |FactsFor(task, facts)| == 1
    ensures 0 <= f < |facts| && forall k :: 0 <= k < |facts| ==> (TaskMatchesFact(task, facts[k]) <==> k == f)
  {
    var r := FactsFor(task, facts);
    assert r == [r[0]] && r[0] in r;
    r[0]
  }

  /** Two index lists that undo each other are equally long and repeat nothing. */
  lemma MutualInverses(owner: seq<int>, inverse: seq<int>)
    requires forall k :: 0 <= k < |owner| ==> 0 <= owner[k] < |inverse| && inverse[owner[k]] == k
    requires forall t :: 0 <= t < |inverse| ==> 0 <= inverse[t] < |owner| && owner[inverse[t]] == t
    ensures |owner| == |inverse| && Distinct(owner)
  {
    DistinctBelow(owner, |inverse|);
    DistinctBelow(inverse, |owner|);
  }

  lemma ServedFact(fact: ArtifactFact, tasks: seq<ArtifactTask>)
    requires FactIsServed(fact, tasks)
    ensures |TasksFor(fact, tasks)| == 1
    ensures TaskMatchesFact(tasks[OnlyTask(fact, tasks)], fact) && tasks[OnlyTask(fact, tasks)].kind == fact.kind
  {
    var t: nat :| TasksFor(fact, tasks) == [t] && t < |tasks| && tasks[t].kind == fact.kind;
    assert t in TasksFor(fact, tasks);
  }

  lemma {:induction false} Owners(facts: seq<ArtifactFact>, tasks: seq<ArtifactTask>) returns (owner: seq<int>)
    requires forall k :: 0 <= k < |facts| ==> FactIsServed(facts[k], tasks)
    ensures |owner| == |facts|
    ensures forall k :: 0 <= k < |facts| ==> |TasksFor(facts[k], tasks)| == 1 && owner[k] == OnlyTask(facts[k], tasks)
  {
    hide FactIsServed, TasksFor, OnlyTask;
    owner := [];
    if facts != [] {
      var last := |facts| - 1;
      owner := Owners(facts[..last], tasks);
      ServedFact(facts[last], tasks);
      assert forall k :: 0 <= k < last ==> facts[..last][k] == facts[k];
      owner := owner + [OnlyTask(facts[last], tasks)];
    }
  }

  lemma {:induction false} Inverses(facts: seq<ArtifactFact>, tasks: seq<ArtifactTask>) returns (inverse: seq<int>)
    requires forall t :: 0 <= t < |tasks| ==> |FactsFor(tasks[t], facts)| == 1
    ensures |inverse| == |tasks|
    ensures forall t :: 0 <= t < |tasks| ==> inverse[t] == OnlyFact(tasks[t], facts)
  {
    inverse := [];
    if tasks != [] {
      var last := |tasks| - 1;
      inverse := Inverses(facts, tasks[..last]);
      assert forall t :: 0 <= t < last ==> tasks[..last][t] == tasks[t];
      inverse := inverse + [OnlyFact(tasks[last], facts)];
    }
  }

  lemma MatchedIsPairing(facts: seq<ArtifactFact>, tasks: seq<ArtifactTask>) returns (owner: seq<int>)
    requires ExactlyMatched(facts, tasks)
    ensures IsPairing(owner, facts, tasks)
  {
    hide TasksFor, FactsFor, FactIsServed, TaskMatchesFact, IsTaskFor, OnlyTask, OnlyFact;
    MatchesExact(facts, tasks);
    owner := Owners(facts, tasks);
    var inverse := Inverses(facts, tasks);
    forall k | 0 <= k < |facts|
      ensures 0 <= owner[k] < |tasks| && inverse[owner[k]] == k && tasks[owner[k]].kind == facts[k].kind
    {
      ServedFact(facts[k], tasks);
    }
    forall t | 0 <= t < |tasks|
      ensures 0 <= inverse[t] < |facts| && owner[inverse[t]] == t
    {
      var k := OnlyFact(tasks[t], facts);
      assert TaskMatchesFact(tasks[t], facts[k]);
      ServedFact(facts[k], tasks);
    }
    MutualInverses(owner, inverse);
  }

  lemma PairingIsMatched(owner: seq<int>, facts: seq<ArtifactFact>, tasks: seq<ArtifactTask>)
    requires IsPairing(owner, facts, tasks)
    ensures ExactlyMatched(facts, tasks)
  {
    hide TaskMatchesFact, IsTaskFor;
    MatchesExact(facts, tasks);
    forall k | 0 <= k < |facts|
      ensures FactIsServed(facts[k], tasks)
    {
      OnlyMember(TasksFor(facts[k], tasks), owner[k]);
    }
    forall t | 0 <= t < |tasks|
      ensures |FactsFor(tasks[t], facts)| == 1
    {
      DistinctBelow(owner, |tasks|);
      assert t in owner;
      var k :| 0 <= k < |owner| && owner[k] == t;
      OnlyMember(FactsFor(tasks[t], facts), k);
    }
  }

  lemma OnlyMember(s: seq<int>, x: int)
    requires forall a, b :: 0 <= a < b < |s| ==> s[a] < s[b]
    requires forall y :: y in s <==> y == x
    ensures s == [x]
  {
    assert x in s;
    var first, last := s[0], s[|s| - 1];
    assert first in s && last in s;
    assert 0 < |s| - 1 ==> first < last;
  }
}
