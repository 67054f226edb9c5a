/**
 The coverage guards of plan validation (`planning/validator.py`): every source
 file in scope belongs to exactly one slice that translates it.
 */
module SourceCoverage {
  import opened Options
  import opened PlanGraph

  datatype Role = SourceRole | TestRole

  datatype SliceKind = Implementation | TestTranslation | TestGeneration | Contract

  datatype ModuleFact = ModuleFact(id: string, role: Role, files: seq<string>, emptySuite: bool)

  /** The modules of the snapshot, the artifacts among its files and the files the migration includes. */
  datatype Analysis = Analysis(modules: seq<ModuleFact>, artifacts: set<string>, scope: set<string>)

  /** The modules a slice was made from. */
  datatype SliceSource = SliceSource(ref: Ref, kind: SliceKind, modules: seq<string>)

  ghost predicate IsLastOf(modules: seq<ModuleFact>, id: string, k: nat)
    requires k < |modules|
  {
    modules[k].id == id && forall j :: k < j < |modules| ==> modules[j].id != id
  }

  /** The module of an identifier; of several the last one counts. */
  function ModuleOf(modules: seq<ModuleFact>, id: string): (m: Option<ModuleFact>)
    ensures m.Some? ==> exists k :: 0 <= k < |modules| && IsLastOf(modules, id, k) && modules[k] == m.value
    ensures m.None? ==> forall x :: x in modules ==> x.id != id
  {
    if modules == [] then None
    else
      var last := modules[|modules| - 1];
      if last.id == id then
        assert IsLastOf(modules, id, |modules| - 1);
        Some(last)
      else
        var front := modules[..|modules| - 1];
        assert forall k: nat :: k < |front| && IsLastOf(front, id, k) ==> IsLastOf(modules, id, k);
        assert modules == front + [last];
        ModuleOf(front, id)
  }

  /** A file the plan has to cover. */
  predicate MustCover(a: Analysis, path: string) {
    && path in a.scope && path !in a.artifacts
    && exists m :: m in a.modules && path in m.files
  }

  method ExpectedFiles(a: Analysis) returns (expected: set<string>)
    ensures forall path :: path in expected <==> MustCover(a, path)
  {
    expected := {};
    for i := 0 to |a.modules|
      invariant forall path :: path in expected <==> MustCover(a.(modules := a.modules[..i]), path)
    {
      var m := a.modules[i];
      assert a.modules[..i + 1] == a.modules[..i] + [m];
      expected := expected + set path | path in m.files && path in a.scope && path !in a.artifacts;
    }
    assert a.modules[..|a.modules|] == a.modules;
  }

  // ----- which slice covers a file, and how often -----

  predicate Translates(s: SliceSource) {
    s.kind.Implementation? || s.kind.TestTranslation?
  }

  /** All files of some modules, one entry for each time a file is listed. */
  function FilesOf(a: Analysis, ids: seq<string>): seq<string> {
    if ids == [] then []
    else
      var m := ModuleOf(a.modules, ids[|ids| - 1]);
      FilesOf(a, ids[..|ids| - 1]) + (if m.Some? then m.value.files else [])
  }

  /** How often the translating slices list a path. */
  function Listings(a: Analysis, slices: seq<SliceSource>, path: string): nat {
    if slices == [] then 0
    else
      var s := slices[|slices| - 1];
      Listings(a, slices[..|slices| - 1], path) + (if Translates(s) then multiset(FilesOf(a, s.modules))[path] else 0)
  }

  /** A known module with the file. */
  predicate Holds(a: Analysis, id: string, path: string) {
    var m := ModuleOf(a.modules, id);
    m.Some? && path in m.value.files
  }

  predicate Covers(a: Analysis, s: SliceSource, path: string) {
    (s.kind.Implementation? || s.kind.TestTranslation?) && exists id :: id in s.modules && Holds(a, id, path)
  }

  /** One slice covers the path, and no other does. */
  ghost predicate CoveredByOne(a: Analysis, slices: seq<SliceSource>, path: string) {
    exists i :: 0 <= i < |slices| && OnlyCover(a, slices, path, i)
  }

  ghost predicate OnlyCover(a: Analysis, slices: seq<SliceSource>, path: string, i: nat)
    requires i < |slices|
  {
    Covers(a, slices[i], path) && forall j :: 0 <= j < |slices| && Covers(a, slices[j], path) ==> j == i
  }

  lemma {:induction false} FilesListed(a: Analysis, ids: seq<string>, path: string)
    ensures path in FilesOf(a, ids) <==> exists id :: id in ids && Holds(a, id, path)
  {
    if ids != [] {
      var front, last := ids[..|ids| - 1], ids[|ids| - 1];
      FilesListed(a, front, path);
      assert ids == front + [last];
      assert path in FilesOf(a, ids) <==> path in FilesOf(a, front) || Holds(a, last, path);
    }
  }

  lemma CoversByListing(a: Analysis, s: SliceSource, path: string)
    ensures Covers(a, s, path) <==> Translates(s) && multiset(FilesOf(a, s.modules))[path] > 0
  {
    FilesListed(a, s.modules, path);
    assert path in FilesOf(a, s.modules) <==> path in multiset(FilesOf(a, s.modules));
  }

  lemma {:induction false} ListedOnce(a: Analysis, slices: seq<SliceSource>, path: string)
    ensures Listings(a, slices, path) == 0 <==> forall s :: s in slices ==> !Covers(a, s, path)
    ensures Listings(a, slices, path) == 1 ==> CoveredByOne(a, slices, path)
  {
    if slices != [] {
      var front, last := slices[..|slices| - 1], slices[|slices| - 1];
      ListedOnce(a, front, path);
      CoversByListing(a, last, path);
      assert slices == front + [last];
      hide Covers;
      if Listings(a, slices, path) == 1 {
        OneListing(a, front, last, path);
      }
    }
  }

  lemma OneListing(a: Analysis, front: seq<SliceSource>, last: SliceSource, path: string)
    requires (forall s :: s in front ==> !Covers(a, s, path)) ==> Covers(a, last, path)
    requires !(forall s :: s in front ==> !Covers(a, s, path)) ==>
               CoveredByOne(a, front, path) && !Covers(a, last, path)
    ensures CoveredByOne(a, front + [last], path)
  {
    var slices := front + [last];
    hide Covers;
    if forall s :: s in front ==> !Covers(a, s, path) {
      forall j | 0 <= j < |front|
        ensures !Covers(a, slices[j], path)
      {
        assert slices[j] in front;
      }
      assert OnlyCover(a, slices, path, |front|);
    } else {
      var i :| 0 <= i < |front| && OnlyCover(a, front, path, i);
      assert OnlyCover(a, slices, path, i);
    }
  }

  // ----- the guards -----

  datatype CoverageViolation = NotCovered(path: string) | CoveredTwice(path: string)

  function OwnersAt(coverage: map<string, seq<Ref>>, path: string): seq<Ref> {
    if path in coverage then coverage[path] else []
  }

  /** Note the owner of every expected file of one slice. */
  method Cover(a: Analysis, s: SliceSource, expected: set<string>, before: map<string, seq<Ref>>)
    returns (after: map<string, seq<Ref>>)
    ensures forall path :: path in expected ==>
              |OwnersAt(after, path)| == |OwnersAt(before, path)| + multiset(FilesOf(a, s.modules))[path]
  {
    after := before;
    for i := 0 to |s.modules|
      invariant forall path :: path in expected ==> Noted(before, after, FilesOf(a, s.modules[..i]), path)
    {
      assert s.modules[..i + 1][..i] == s.modules[..i];
      var m := ModuleOf(a.modules, s.modules[i]);
      var files := if m.Some? then m.value.files else [];
      assert FilesOf(a, s.modules[..i + 1]) == FilesOf(a, s.modules[..i]) + files;
      after := CoverFiles(files, s.ref, expected, before, FilesOf(a, s.modules[..i]), after);
    }
    assert s.modules[..|s.modules|] == s.modules;
  }

  method CoverFiles(
    files: seq<string>, ref: Ref, expected: set<string>, ghost start: map<string, seq<Ref>>, ghost earlier: seq<string>,
    before: map<string, seq<Ref>>)
    returns (after: map<string, seq<Ref>>)
    requires forall path :: path in expected ==> Noted(start, before, earlier, path)
    ensures forall path :: path in expected ==> Noted(start, after, earlier + files, path)
  {
    hide Noted;
    after := before;
    assert earlier + files[..0] == earlier;
    for k := 0 to |files|
      invariant forall path :: path in expected ==> Noted(start, after, earlier + files[..k], path)
    {
      assert earlier + files[..k + 1] == earlier + files[..k] + [files[k]];
      forall path | path in expected
        ensures Noted(start, after[files[k] := OwnersAt(after, files[k]) + [ref]], earlier + files[..k + 1], path)
        ensures path != files[k] ==> Noted(start, after, earlier + files[..k + 1], path)
      {
        NotedStep(start, after, earlier + files[..k], files[k], ref, path);
      }
      if files[k] in expected {
        after := after[files[k] := OwnersAt(after, files[k]) + [ref]];
      }
    }
    assert files[..|files|] == files;
  }

  lemma NotedStep(
    before: map<string, seq<Ref>>, after: map<string, seq<Ref>>, noted: seq<string>, file: string, ref: Ref,
    path: string)
    requires Noted(before, after, noted, path)
    ensures Noted(before, after[file := OwnersAt(after, file) + [ref]], noted + [file], path)
    ensures path != file ==> Noted(before, after, noted + [file], path)
  {
  }

  ghost predicate Noted(before: map<string, seq<Ref>>, after: map<string, seq<Ref>>, noted: seq<string>, path: string) {
    |OwnersAt(after, path)| == |OwnersAt(before, path)| + multiset(noted)[path]
  }

  /** No violation exactly when every file to cover is listed once, and then one slice covers it. */
  method ValidateCoverage(a: Analysis, slices: seq<SliceSource>) returns (violations: seq<CoverageViolation>)
    ensures violations == [] <==> forall path :: MustCover(a, path) ==> Listings(a, slices, path) == 1
    ensures violations == [] ==> forall path :: MustCover(a, path) ==> CoveredByOne(a, slices, path)
  {
    var expected := ExpectedFiles(a);
    var coverage: map<string, seq<Ref>> := map[];
    for i := 0 to |slices|
      invariant forall path :: path in expected ==> |OwnersAt(coverage, path)| == Listings(a, slices[..i], path)
    {
      assert slices[..i + 1][..i] == slices[..i];
      if Translates(slices[i]) {
        coverage := Cover(a, slices[i], expected, coverage);
      }
    }
    assert slices[..|slices|] == slices;
    violations := [];
    var rest := expected;
    while rest != {}
      invariant rest <= expected
      invariant violations == [] <==> forall path :: path in expected - rest ==> Listings(a, slices, path) == 1
      decreases |rest|
    {
      var path :| path in rest;
      rest := rest - {path};
      if OwnersAt(coverage, path) == [] {
        violations := violations + [NotCovered(path)];
      } else if |OwnersAt(coverage, path)| > 1 {
        violations := violations + [CoveredTwice(path)];
      }
    }
    if violations == [] {
      forall path | MustCover(a, path)
        ensures CoveredByOne(a, slices, path)
      {
        ListedOnce(a, slices, path);
      }
    }
  }

  datatype ModuleViolation =
    | UnknownModule(id: string)
    | WrongRole(id: string)
    | OutOfScope(id: string)
    | NoEmptySuite(id: string)

  predicate RoleFits(kind: SliceKind, role: Role) {
    match kind
    case Implementation => role == SourceRole
    case TestTranslation => role == TestRole
    case TestGeneration => role == SourceRole
    case Contract => true
  }

  /** What a slice may be made from. */
  predicate ModuleFits(a: Analysis, kind: SliceKind, id: string) {
    var m := ModuleOf(a.modules, id);
    && m.Some?
    && (kind.Implementation? || kind.TestGeneration? ==> m.value.role == SourceRole)
    && (kind.TestTranslation? ==> m.value.role == TestRole)
    && (forall path :: path in m.value.files ==> path in a.scope)
    && (kind.TestGeneration? ==> m.value.emptySuite)
  }

  ghost predicate ModulesFit(a: Analysis, slices: seq<SliceSource>) {
    forall s, id :: s in slices && id in s.modules ==> ModuleFits(a, s.kind, id)
  }

  method ValidateSliceModules(a: Analysis, slices: seq<SliceSource>) returns (violations: seq<ModuleViolation>)
    ensures violations == [] <==> ModulesFit(a, slices)
  {
    violations := [];
    for i := 0 to |slices|
      invariant violations == [] <==> ModulesFit(a, slices[..i])
    {
      var s := slices[i];
      ghost var sound := violations == [];
      for j := 0 to |s.modules|
        invariant violations == [] <==> sound && forall k :: 0 <= k < j ==> ModuleFits(a, s.kind, s.modules[k])
      {
        var id := s.modules[j];
        var m := ModuleOf(a.modules, id);
        if m.None? {
          violations := violations + [UnknownModule(id)];
        } else {
          if !RoleFits(s.kind, m.value.role) {
            violations := violations + [WrongRole(id)];
          }
          if exists path :: path in m.value.files && path !in a.scope {
            violations := violations + [OutOfScope(id)];
          }
          if s.kind.TestGeneration? && !m.value.emptySuite {
            violations := violations + [NoEmptySuite(id)];
          }
        }
      }
      assert slices[..i + 1] == slices[..i] + [s];
    }
    assert slices[..|slices|] == slices;
  }
}
