/**
 The machine-built exploration skeleton and the exact coverage check of the
 Draft (`runtime/draft_validation.py`).  UTF-8 byte order is code point order.
 */
module DraftValidation {
  import opened Counting
  import opened Options
  import opened TextSorting
  import ScopePatterns

  datatype Module = Module(path: string, files: seq<string>)

  datatype Domain = Domain(path: string, files: seq<string>)

  datatype Coverage = Coverage(valid: bool, missing: seq<string>, duplicates: seq<string>, unknown: seq<string>)

  // ----- paths -----

  predicate ValidPath(path: string) {
    && path != "" && '\0' !in path && path[0] != '/' && path[0] != '~' && '\\' !in path
    && forall i :: 0 <= i < |ScopePatterns.Split(path, '/')| ==>
         ScopePatterns.Split(path, '/')[i] !in {"", ".", "..", ".git"}
  }

  function PathKey(): string -> string {
    (p: string) => p
  }

  /** Each path once, in the order of its last occurrence. */
  function Once(paths: seq<string>): (r: seq<string>)
    ensures forall p :: p in r <==> p in paths
  {
    if paths == [] then []
    else if paths[0] in paths[1..] then Once(paths[1..])
    else [paths[0]] + Once(paths[1..])
  }

  /** Validated, deduplicated and sorted paths. */
  function Normalize(paths: seq<string>): Option<seq<string>> {
    if exists p :: p in paths && !ValidPath(p) then None else Some(SortByText(Once(paths), PathKey()))
  }

  lemma {:induction false} OnceIsDistinct(paths: seq<string>)
    ensures Distinct(Once(paths)) && |Once(paths)| <= |paths|
    ensures |Once(paths)| == |paths| <==> Distinct(paths)
    ensures Distinct(paths) ==> Once(paths) == paths
  {
    if paths != [] {
      OnceIsDistinct(paths[1..]);
      assert paths == [paths[0]] + paths[1..];
      if paths[0] in paths[1..] {
        var j :| 1 <= j < |paths| && paths[j] == paths[0];
        assert !Distinct(paths);
      } else {
        assert Distinct(paths) <==> Distinct(paths[1..]);
      }
    }
  }

  lemma NormalizedElements(paths: seq<string>)
    requires Normalize(paths).Some?
    ensures forall p :: p in Normalize(paths).value <==> p in paths
    ensures Distinct(Normalize(paths).value)
    ensures |Normalize(paths).value| <= |paths|
    ensures |Normalize(paths).value| == |paths| <==> Distinct(paths)
    ensures Distinct(paths) ==> multiset(Normalize(paths).value) == multiset(paths)
  {
    var once, sorted := Once(paths), Normalize(paths).value;
    SortByTextSorts(once, PathKey());
    OnceIsDistinct(paths);
    Rearranged(once, sorted);
    assert forall p :: p in sorted <==> p in Members(sorted);
    assert forall p :: p in once <==> p in Members(once);
    DistinctCounts(paths);
  }

  // ----- the skeleton -----

  /** A file lies under its module, or is the module. */
  predicate Under(path: string, file: string) {
    path == "." || file == path || path + "/" <= file
  }

  predicate ModuleOk(m: Module) {
    && (m.path == "." || ValidPath(m.path)) && Normalize(m.files).Some? && m.files != []
    && |Normalize(m.files).value| == |m.files|
    && forall f :: f in m.files ==> Under(m.path, f)
  }

  /** The first child directory of a file inside its module, if it has one. */
  function DomainOf(path: string, file: string): string {
    var prefix := if path == "." then "" else path + "/";
    var relative := if prefix <= file then file[|prefix|..] else file;
    var parts := ScopePatterns.Split(relative, '/');
    if |parts| <= 1 || parts[0] == "" then path
    else if path == "." then parts[0]
    else path + "/" + parts[0]
  }

  /** Add a file to the group of its domain, in insertion order. */
  function AddTo(groups: seq<Domain>, path: string, file: string): seq<Domain> {
    if groups == [] then [Domain(path, [file])]
    else if groups[0].path == path then [Domain(path, groups[0].files + [file])] + groups[1..]
    else [groups[0]] + AddTo(groups[1..], path, file)
  }

  function Group(path: string, files: seq<string>): seq<Domain> {
    if files == [] then []
    else AddTo(Group(path, files[..|files| - 1]), DomainOf(path, files[|files| - 1]), files[|files| - 1])
  }

  function DomainKey(): Domain -> string {
    (d: Domain) => d.path
  }

  function ModuleKey(): Module -> string {
    (m: Module) => m.path
  }

  function ModuleDomains(path: string, files: seq<string>, maxFiles: nat): seq<Domain> {
    if |files| <= maxFiles then [Domain(path, files)] else SortByText(Group(path, files), DomainKey())
  }

  function Skeleton(modules: seq<Module>, maxFiles: nat): seq<Domain>
    requires forall i :: 0 <= i < |modules| ==> ModuleOk(modules[i])
  {
    if modules == [] then []
    else
      var last := |modules| - 1;
      assert ModuleOk(modules[last]);
      Skeleton(modules[..last], maxFiles)
      + ModuleDomains(modules[last].path, Normalize(modules[last].files).value, maxFiles)
  }

  function FilesOf(domains: seq<Domain>): seq<string> {
    if domains == [] then [] else domains[0].files + FilesOf(domains[1..])
  }

  function AllFiles(modules: seq<Module>): seq<string> {
    if modules == [] then []
    else AllFiles(modules[..|modules| - 1]) + modules[|modules| - 1].files
  }

  predicate ModulesOk(modules: seq<Module>) {
    (forall i :: 0 <= i < |modules| ==> ModuleOk(modules[i])) && Distinct(AllFiles(modules))
  }

  lemma {:induction false} FilesOfAddTo(groups: seq<Domain>, path: string, file: string)
    ensures multiset(FilesOf(AddTo(groups, path, file))) == multiset(FilesOf(groups)) + multiset{file}
  {
    if groups == [] {
      assert FilesOf([Domain(path, [file])]) == [file] + FilesOf([]);
    } else if groups[0].path == path {
      var first := Domain(path, groups[0].files + [file]);
      assert ([first] + groups[1..])[1..] == groups[1..];
    } else {
      FilesOfAddTo(groups[1..], path, file);
      assert ([groups[0]] + AddTo(groups[1..], path, file))[1..] == AddTo(groups[1..], path, file);
    }
  }

  lemma OneMoreFile(files: seq<string>)
    requires files != []
    ensures multiset(files) == multiset(files[..|files| - 1]) + multiset{files[|files| - 1]}
  {
    assert files == files[..|files| - 1] + [files[|files| - 1]];
  }

  lemma {:induction false} FilesOfGroup(path: string, files: seq<string>)
    ensures multiset(FilesOf(Group(path, files))) == multiset(files)
  {
    if files == [] {
      assert FilesOf([]) == [];
    } else {
      var last := |files| - 1;
      var before := Group(path, files[..last]);
      assert Group(path, files) == AddTo(before, DomainOf(path, files[last]), files[last]);
      hide AddTo, FilesOf, DomainOf, Group;
      FilesOfGroup(path, files[..last]);
      FilesOfAddTo(before, DomainOf(path, files[last]), files[last]);
      OneMoreFile(files);
    }
  }

  lemma {:induction false} FilesOfInsert(d: Domain, domains: seq<Domain>)
    ensures multiset(FilesOf(Insert(d, domains, DomainKey()))) == multiset(FilesOf(domains)) + multiset(d.files)
  {
    if domains == [] || Less(d.path, domains[0].path) {
      assert ([d] + domains)[1..] == domains;
    } else {
      FilesOfInsert(d, domains[1..]);
      var rest := Insert(d, domains[1..], DomainKey());
      assert ([domains[0]] + rest)[1..] == rest;
    }
  }

  lemma {:induction false} FilesOfConcat(a: seq<Domain>, b: seq<Domain>)
    ensures FilesOf(a + b) == FilesOf(a) + FilesOf(b)
  {
    if a == [] {
      assert a + b == b;
    } else {
      assert (a + b)[1..] == a[1..] + b;
      FilesOfConcat(a[1..], b);
    }
  }

  lemma {:induction false} FilesOfSort(domains: seq<Domain>)
    ensures multiset(FilesOf(SortByText(domains, DomainKey()))) == multiset(FilesOf(domains))
  {
    if domains != [] {
      var last := |domains| - 1;
      FilesOfSort(domains[..last]);
      FilesOfInsert(domains[last], SortByText(domains[..last], DomainKey()));
      FilesOfConcat(domains[..last], [domains[last]]);
      assert domains == domains[..last] + [domains[last]];
      assert FilesOf([domains[last]]) == domains[last].files + FilesOf([]);
    }
  }

  lemma FilesOfModule(path: string, files: seq<string>, maxFiles: nat)
    ensures multiset(FilesOf(ModuleDomains(path, files, maxFiles))) == multiset(files)
  {
    if |files| <= maxFiles {
      assert FilesOf([Domain(path, files)]) == files + FilesOf([]);
    } else {
      FilesOfGroup(path, files);
      FilesOfSort(Group(path, files));
    }
  }

  /** The skeleton holds every input file exactly as often as the input does. */
  lemma {:induction false} SkeletonConserves(modules: seq<Module>, maxFiles: nat)
    requires forall i :: 0 <= i < |modules| ==> ModuleOk(modules[i])
    ensures multiset(FilesOf(Skeleton(modules, maxFiles))) == multiset(AllFiles(modules))
  {
    if modules != [] {
      var last := |modules| - 1;
      var m := modules[last];
      SkeletonConserves(modules[..last], maxFiles);
      NormalizedElements(m.files);
      FilesOfModule(m.path, Normalize(m.files).value, maxFiles);
      FilesOfConcat(Skeleton(modules[..last], maxFiles), ModuleDomains(m.path, Normalize(m.files).value, maxFiles));
    }
  }

  lemma PrefixStep(modules: seq<Module>, i: nat)
    requires i < |modules|
    ensures modules[..i + 1][..i] == modules[..i]
    ensures AllFiles(modules[..i + 1]) == AllFiles(modules[..i]) + modules[i].files
  {
    assert modules[..i + 1][..i] == modules[..i];
  }

  /** Files repeated in a prefix are repeated in the whole. */
  lemma {:induction false} RepeatedLater(modules: seq<Module>, n: nat)
    requires n <= |modules| && !Distinct(AllFiles(modules[..n]))
    ensures !Distinct(AllFiles(modules))
    decreases |modules| - n
  {
    if n == |modules| {
      assert modules[..n] == modules;
    } else {
      PrefixStep(modules, n);
      var front, more := AllFiles(modules[..n]), AllFiles(modules[..n + 1]);
      var i, j :| 0 <= i < j < |front| && front[i] == front[j];
      assert more[i] == front[i] && more[j] == front[j];
      RepeatedLater(modules, n + 1);
    }
  }

  /** Two lists without repetition stay so together exactly when they share nothing. */
  lemma JoinedWithoutRepeats(a: seq<string>, b: seq<string>)
    requires Distinct(a) && Distinct(b)
    ensures Distinct(a + b) <==> forall f :: f in b ==> f !in a
  {
    var all := a + b;
    forall f | f in a && f in b
      ensures !Distinct(all)
    {
      var i :| 0 <= i < |a| && a[i] == f;
      var j :| 0 <= j < |b| && b[j] == f;
      assert all[i] == all[|a| + j];
    }
    if forall f :: f in b ==> f !in a {
      forall i, j | 0 <= i < j < |all|
        ensures all[i] != all[j]
      {
        if i < |a| <= j {
          assert all[j] == b[j - |a|] && all[j] in b && all[i] in a;
        }
      }
    }
  }

  lemma GroupStep(path: string, files: seq<string>, i: nat)
    requires i < |files|
    ensures Group(path, files[..i + 1]) == AddTo(Group(path, files[..i]), DomainOf(path, files[i]), files[i])
  {
    assert files[..i + 1][..i] == files[..i];
  }

  // ----- which domain a file goes to -----

  /** What the files of a module start with, except the module itself. */
  function Inside(path: string): string {
    if path == "." then "" else path + "/"
  }

  /** The file lies in this directory directly below the module. */
  ghost predicate InDirectory(path: string, file: string, dir: string) {
    dir != "" && '/' !in dir && Inside(path) + dir + "/" <= file
  }

  /** The domain of a file: the directory below the module that it lies in, or the module itself. */
  ghost predicate IsDomainOf(path: string, file: string, domain: string) {
    if exists dir :: InDirectory(path, file, dir) then
      exists dir :: InDirectory(path, file, dir) && domain == Inside(path) + dir
    else domain == path
  }

  /** A module that is itself a file, in some directory. */
  predicate IsNestedFile(path: string, file: string) {
    file == path && '/' in path
  }

  lemma {:induction false} OnePart(s: string, c: char)
    ensures |ScopePatterns.Split(s, c)| == 1 <==> c !in s
  {
    if s != [] {
      OnePart(s[1..], c);
      assert s == [s[0]] + s[1..];
    }
  }

  /** A slash that nothing or another slash follows leaves an empty part. */
  lemma {:induction false} EmptyPart(s: string, i: nat)
    requires i < |s| && s[i] == '/' && (i + 1 == |s| || s[i + 1] == '/')
    ensures exists k :: 1 <= k < |ScopePatterns.Split(s, '/')| && ScopePatterns.Split(s, '/')[k] == ""
  {
    var rest, parts := ScopePatterns.Split(s[1..], '/'), ScopePatterns.Split(s, '/');
    if i == 0 {
      if |s| > 1 { ScopePatterns.SplitFirst(s[1..], '/'); }
      assert parts[1] == rest[0] == "";
    } else {
      EmptyPart(s[1..], i - 1);
      var k :| 1 <= k < |rest| && rest[k] == "";
      assert parts[if s[0] == '/' then k + 1 else k] == "";
    }
  }

  lemma EmptyPartIsInvalid(file: string, i: nat)
    requires i < |file| && file[i] == '/' && (i + 1 == |file| || file[i + 1] == '/')
    ensures !ValidPath(file)
  {
    EmptyPart(file, i);
  }

  lemma ValidHasNoEmptyPart(file: string, i: nat)
    requires ValidPath(file) && i < |file| && file[i] == '/'
    ensures i + 1 < |file| && file[i + 1] != '/'
  {
    if i + 1 == |file| || file[i + 1] == '/' {
      EmptyPartIsInvalid(file, i);
    }
  }

  lemma LongerIsNone(path: string, file: string, a: string, b: string)
    requires InDirectory(path, file, a) && |a| < |b|
    ensures !InDirectory(path, file, b)
  {
    var n := |Inside(path)|;
    if Inside(path) + b + "/" <= file {
      assert b[|a|] == file[n + |a|] == '/';
    }
  }

  lemma SlashInside(path: string, file: string, dir: string)
    requires Inside(path) + dir + "/" <= file
    ensures '/' in file[|Inside(path)|..]
  {
    assert file[|Inside(path)|..][|dir|] == '/';
  }

  lemma OneDirectory(path: string, file: string, a: string, b: string)
    requires InDirectory(path, file, a) && InDirectory(path, file, b)
    ensures a == b
  {
    var n := |Inside(path)|;
    if |a| < |b| {
      LongerIsNone(path, file, a, b);
    } else if |b| < |a| {
      LongerIsNone(path, file, b, a);
    } else {
      assert a == file[n..n + |a|] && b == file[n..n + |b|];
    }
  }

  /** The first part of what lies inside a module is its directory, if there is more than one part. */
  lemma FirstDirectory(inside: string, file: string, first: string)
    requires inside <= file && |inside| + |first| < |file| && file[|inside|..][..|first|] == first
    requires file[|inside| + |first|] == '/'
    ensures inside + first + "/" <= file
  {
    var n := |inside|;
    assert file[..n] == inside && file[n..][..|first|] == file[n..n + |first|];
    assert file[..n + |first| + 1] == file[..n] + file[n..n + |first|] + [file[n + |first|]];
  }

  lemma FirstPartIsDirectory(path: string, file: string)
    requires Inside(path) <= file && (Inside(path) < file ==> file[|Inside(path)|] != '/')
    ensures var relative := file[|Inside(path)|..];
            var parts := ScopePatterns.Split(relative, '/');
            if |parts| > 1 then parts[0] != "" && InDirectory(path, file, parts[0])
            else forall dir :: !InDirectory(path, file, dir)
  {
    var n := |Inside(path)|;
    var relative := file[n..];
    var first := ScopePatterns.Split(relative, '/')[0];
    ScopePatterns.SplitFirst(relative, '/');
    OnePart(relative, '/');
    assert file == Inside(path) + relative;
    hide ScopePatterns.Split, Inside;
    if '/' in relative {
      assert first != relative && relative[|first|] == '/';
      FirstDirectory(Inside(path), file, first);
    } else {
      forall dir
        ensures !InDirectory(path, file, dir)
      {
        if Inside(path) + dir + "/" <= file { SlashInside(path, file, dir); }
      }
    }
  }

  /** Every file goes to its domain, except a module that is itself a file in some directory. */
  lemma DomainExact(path: string, file: string)
    requires ValidPath(file) && (path == "." || ValidPath(path)) && Under(path, file)
    ensures IsDomainOf(path, file, DomainOf(path, file)) <==> !IsNestedFile(path, file)
    ensures Under(DomainOf(path, file), file) <==> !IsNestedFile(path, file)
  {
    if path != "." && file == path {
      assert !(path + "/" <= file);
      forall dir
        ensures !InDirectory(path, file, dir)
      {
        assert |Inside(path) + dir + "/"| > |file|;
      }
      ScopePatterns.SplitFirst(file, '/');
      OnePart(file, '/');
      if '/' in path {
        var first := ScopePatterns.Split(file, '/')[0];
        assert first != "" && DomainOf(path, file) == path + "/" + first;
        assert |DomainOf(path, file)| > |file|;
      }
    } else {
      var n := |Inside(path)|;
      assert Inside(path) <= file;
      if path != "." {
        assert file[n - 1] == '/';
        ValidHasNoEmptyPart(file, n - 1);
      }
      FirstPartIsDirectory(path, file);
      var parts := ScopePatterns.Split(file[n..], '/');
      if |parts| > 1 {
        assert DomainOf(path, file) == Inside(path) + parts[0];
        assert IsDomainOf(path, file, Inside(path) + parts[0]);
      }
    }
  }

  /** Groups of files, each for one domain, with the files in their order. */
  ghost predicate GroupsBy(path: string, files: seq<string>, domains: seq<Domain>) {
    && (forall d, f :: d in domains && f in d.files ==> f in files && d.path == DomainOf(path, f))
    && (forall f :: f in files ==> exists d :: d in domains && f in d.files)
    && (forall d :: d in domains ==> d.files != [] && (Ascending(files, PathKey()) ==> Ascending(d.files, PathKey())))
    && PathsDiffer(domains)
  }

  ghost predicate PathsDiffer(domains: seq<Domain>) {
    forall i, j :: 0 <= i < j < |domains| ==> domains[i].path != domains[j].path
  }

  /** The position of a domain, or the length. */
  function PlaceOf(groups: seq<Domain>, path: string): (k: nat)
    ensures k <= |groups| && (k < |groups| ==> groups[k].path == path)
    ensures forall i :: 0 <= i < k ==> groups[i].path != path
  {
    if groups == [] || groups[0].path == path then 0 else 1 + PlaceOf(groups[1..], path)
  }

  lemma {:induction false} AddToIs(groups: seq<Domain>, path: string, file: string)
    ensures var k := PlaceOf(groups, path);
            AddTo(groups, path, file)
            == if k == |groups| then groups + [Domain(path, [file])]
               else groups[k := Domain(path, groups[k].files + [file])]
  {
    if groups != [] && groups[0].path != path {
      AddToIs(groups[1..], path, file);
      assert groups == [groups[0]] + groups[1..];
    }
  }

  lemma AscendingFront(files: seq<string>, last: string)
    requires Ascending(files + [last], PathKey())
    ensures Ascending(files, PathKey())
  {
    assert forall i :: 0 <= i < |files| ==> files[i] == (files + [last])[i];
  }

  lemma AscendingMore(files: seq<string>, some: seq<string>, last: string)
    requires Ascending(files + [last], PathKey()) && Ascending(some, PathKey())
    requires forall f :: f in some ==> f in files
    ensures Ascending(some + [last], PathKey())
  {
    var all, longer := files + [last], some + [last];
    forall i, j | 0 <= i < j < |longer|
      ensures !Less(PathKey()(longer[j]), PathKey()(longer[i]))
    {
      if j == |some| {
        assert longer[i] in files;
        var k :| 0 <= k < |files| && files[k] == longer[i];
        assert all[k] == longer[i] && all[|files|] == last;
      }
    }
  }

  lemma OneMoreGrouped(path: string, files: seq<string>, file: string, groups: seq<Domain>)
    requires GroupsBy(path, files, groups)
    ensures GroupsBy(path, files + [file], AddTo(groups, DomainOf(path, file), file))
  {
    var all, domain := files + [file], DomainOf(path, file);
    var k, after := PlaceOf(groups, domain), AddTo(groups, domain, file);
    AddToIs(groups, domain, file);
    hide DomainOf, AddTo, Ascending;
    var joined := Domain(domain, if k == |groups| then [file] else groups[k].files + [file]);
    assert after[k] == joined && joined in after;
    forall d | d in after
      ensures d == joined || d in groups
      ensures forall f :: f in d.files ==> f in all && d.path == DomainOf(path, f)
      ensures d.files != [] && (Ascending(all, PathKey()) ==> Ascending(d.files, PathKey()))
    {
      GroupStays(path, files, file, groups, d, joined);
    }
    forall f | f in all
      ensures exists d :: d in after && f in d.files
    {
      if f != file {
        var d :| d in groups && f in d.files;
        var i :| 0 <= i < |groups| && groups[i] == d;
        assert f in after[i].files;
      }
    }
  }

  lemma GroupStays(
    path: string, files: seq<string>, file: string, groups: seq<Domain>, d: Domain, joined: Domain)
    requires GroupsBy(path, files, groups) && (d == joined || d in groups)
    requires joined.path == DomainOf(path, file)
    requires joined.files == [file]
             || exists g :: g in groups && g.path == joined.path && joined.files == g.files + [file]
    ensures forall f :: f in d.files ==> f in files + [file] && d.path == DomainOf(path, f)
    ensures d.files != [] && (Ascending(files + [file], PathKey()) ==> Ascending(d.files, PathKey()))
  {
    hide DomainOf, Less;
    if Ascending(files + [file], PathKey()) {
      AscendingFront(files, file);
      if d == joined && joined.files != [file] {
        var g :| g in groups && g.path == joined.path && joined.files == g.files + [file];
        hide Ascending;
        AscendingMore(files, g.files, file);
      }
    }
  }

  lemma NoGroups(path: string)
    ensures GroupsBy(path, [], [])
  {
  }

  lemma {:induction false} GroupIs(path: string, files: seq<string>)
    ensures GroupsBy(path, files, Group(path, files))
  {
    if files == [] {
      NoGroups(path);
    } else {
      hide GroupsBy, AddTo, DomainOf;
      var last := |files| - 1;
      assert Group(path, files) == AddTo(Group(path, files[..last]), DomainOf(path, files[last]), files[last]);
      hide Group;
      GroupIs(path, files[..last]);
      OneMoreGrouped(path, files[..last], files[last], Group(path, files[..last]));
      assert files == files[..last] + [files[last]];
    }
  }

  /** Sorting the groups by their paths keeps them. */
  lemma SortedGroups(path: string, files: seq<string>, groups: seq<Domain>)
    requires GroupsBy(path, files, groups)
    ensures GroupsBy(path, files, SortByText(groups, DomainKey()))
  {
    hide DomainOf, Ascending, SortByText;
    var sorted := SortByText(groups, DomainKey());
    SortByTextSorts(groups, DomainKey());
    forall d
      ensures d in sorted <==> d in groups
    {
      assert d in sorted <==> d in multiset(sorted);
      assert d in groups <==> d in multiset(groups);
    }
    SortedDiffer(groups, sorted);
    hide PathsDiffer;
  }

  lemma SortedDiffer(groups: seq<Domain>, sorted: seq<Domain>)
    requires multiset(groups) == multiset(sorted) && PathsDiffer(groups)
    ensures PathsDiffer(sorted)
  {
    forall i, j | 0 <= i < j < |sorted|
      ensures sorted[i].path != sorted[j].path
    {
      if sorted[i].path == sorted[j].path {
        SameDomain(groups, sorted, i, j);
      }
    }
  }

  /** Two places of one path hold one domain, which the groups would then hold twice. */
  lemma SameDomain(groups: seq<Domain>, sorted: seq<Domain>, i: nat, j: nat)
    requires multiset(groups) == multiset(sorted) && i < j < |sorted| && sorted[i].path == sorted[j].path
    ensures !PathsDiffer(groups)
  {
    assert sorted[i] in multiset(groups) && sorted[j] in multiset(groups);
    if sorted[i] == sorted[j] {
      assert sorted == sorted[..i] + [sorted[i]] + sorted[i + 1..j] + [sorted[j]] + sorted[j + 1..];
      assert multiset(sorted)[sorted[i]] >= 2;
      DistinctCounts(groups);
    } else {
      var a :| 0 <= a < |groups| && groups[a] == sorted[i];
      var b :| 0 <= b < |groups| && groups[b] == sorted[j];
      assert a != b;
    }
  }

  /**
   The domains of a large module: every file lies in the directory below the
   module that its domain is named after, or directly in the module, whose own
   domain it is then in.  Only a module that is itself a file in some directory
   goes to a domain it does not lie in.
   */
  ghost predicate ByDirectory(path: string, files: seq<string>, domains: seq<Domain>) {
    && (forall d, f :: d in domains && f in d.files ==>
          && f in files
          && (IsDomainOf(path, f, d.path) <==> !IsNestedFile(path, f))
          && (Under(d.path, f) <==> !IsNestedFile(path, f)))
    && (forall f :: f in files ==> exists d :: d in domains && f in d.files)
    && (forall d :: d in domains ==> d.files != [] && (Ascending(files, PathKey()) ==> Ascending(d.files, PathKey())))
    && PathsDiffer(domains) && Ascending(domains, DomainKey())
  }

  lemma GroupedByDirectory(path: string, files: seq<string>)
    requires path == "." || ValidPath(path)
    requires forall f :: f in files ==> ValidPath(f) && Under(path, f)
    ensures ByDirectory(path, files, SortByText(Group(path, files), DomainKey()))
  {
    hide DomainOf, IsDomainOf, IsNestedFile, Under, ValidPath, Group, SortByText, Ascending, PathsDiffer;
    var domains := SortByText(Group(path, files), DomainKey());
    GroupIs(path, files);
    SortedGroups(path, files, Group(path, files));
    SortByTextSorts(Group(path, files), DomainKey());
    forall d, f | d in domains && f in d.files
      ensures IsDomainOf(path, f, d.path) <==> !IsNestedFile(path, f)
      ensures Under(d.path, f) <==> !IsNestedFile(path, f)
    {
      DomainExact(path, f);
    }
  }

  lemma DotFirst(file: string)
    requires "./" <= file
    ensures !ValidPath(file)
  {
    assert file[0] == '.' && file[1..][0] == '/';
    assert ScopePatterns.Split(file, '/')[0] == ".";
  }

  /** No valid path lies in the directory that stands for the whole tree. */
  lemma NotInDot(file: string)
    requires ValidPath(file)
    ensures !InDirectory(".", file, ".")
  {
    if "./" <= file { DotFirst(file); }
  }

  /** Two files go to one domain exactly when they lie in the same directory below the module, or in none. */
  lemma SameDirectories(path: string, f: string, g: string, df: string, dg: string)
    requires IsDomainOf(path, f, df) && IsDomainOf(path, g, dg) && ValidPath(f) && ValidPath(g)
    ensures df == dg <==> forall dir :: InDirectory(path, f, dir) <==> InDirectory(path, g, dir)
  {
    NotInDot(f);
    NotInDot(g);
    if a :| InDirectory(path, f, a) && df == Inside(path) + a {
      forall x | InDirectory(path, f, x) ensures x == a { OneDirectory(path, f, x, a); }
      if b :| InDirectory(path, g, b) && dg == Inside(path) + b {
        forall x | InDirectory(path, g, x) ensures x == b { OneDirectory(path, g, x, b); }
        assert df[|Inside(path)|..] == a && dg[|Inside(path)|..] == b;
      } else {
        assert dg == path;
        assert path != "." ==> |df| > |path|;
      }
    } else if b :| InDirectory(path, g, b) && dg == Inside(path) + b {
      assert df == path;
      assert path != "." ==> |dg| > |path|;
    }
  }

  /** Two files of a large module share a domain exactly when they lie in the same directory below it, or in none. */
  lemma SharedDomain(path: string, files: seq<string>, domains: seq<Domain>, f: string, g: string)
    requires ByDirectory(path, files, domains) && f in files && g in files && ValidPath(f) && ValidPath(g)
    requires !IsNestedFile(path, f) && !IsNestedFile(path, g)
    ensures (exists d :: d in domains && f in d.files && g in d.files)
            <==> forall dir :: InDirectory(path, f, dir) <==> InDirectory(path, g, dir)
  {
    var df :| df in domains && f in df.files;
    var dg :| dg in domains && g in dg.files;
    SameDirectories(path, f, g, df.path, dg.path);
    hide InDirectory, Under, ValidPath;
    if df.path == dg.path {
      var i :| 0 <= i < |domains| && domains[i] == df;
      var j :| 0 <= j < |domains| && domains[j] == dg;
      assert df == dg;
    }
    if d :| d in domains && f in d.files && g in d.files {
      OneDomain(path, f, d.path, df.path);
      OneDomain(path, g, d.path, dg.path);
    }
  }

  lemma OneDomain(path: string, file: string, a: string, b: string)
    requires IsDomainOf(path, file, a) && IsDomainOf(path, file, b)
    ensures a == b
  {
    if x :| InDirectory(path, file, x) && a == Inside(path) + x {
      var y :| InDirectory(path, file, y) && b == Inside(path) + y;
      OneDirectory(path, file, x, y);
    }
  }

  method GroupModule(path: string, files: seq<string>) returns (domains: seq<Domain>)
    ensures domains == SortByText(Group(path, files), DomainKey())
    ensures (path == "." || ValidPath(path)) && (forall f :: f in files ==> ValidPath(f) && Under(path, f)) ==>
              ByDirectory(path, files, domains)
  {
    hide ByDirectory, Under, ValidPath;
    if (path == "." || ValidPath(path)) && forall f :: f in files ==> ValidPath(f) && Under(path, f) {
      GroupedByDirectory(path, files);
    }
    var groups: seq<Domain> := [];
    for i := 0 to |files|
      invariant groups == Group(path, files[..i])
    {
      GroupStep(path, files, i);
      groups := AddTo(groups, DomainOf(path, files[i]), files[i]);
    }
    assert files[..|files|] == files;
    domains := SortByText(groups, DomainKey());
  }

  /** A module with few files is one domain; a larger one is split by directory. */
  ghost predicate GroupedAs(m: Module, maxFiles: nat, domains: seq<Domain>)
    requires ModuleOk(m)
  {
    var files := Normalize(m.files).value;
    if |files| <= maxFiles then domains == [Domain(m.path, files)] else ByDirectory(m.path, files, domains)
  }

  /** The domains of all modules, one module after the other. */
  ghost predicate WellGrouped(modules: seq<Module>, maxFiles: nat, domains: seq<Domain>)
    requires forall i :: 0 <= i < |modules| ==> ModuleOk(modules[i])
    decreases |modules|
  {
    if modules == [] then domains == []
    else
      var last := |modules| - 1;
      assert ModuleOk(modules[last]);
      exists n: nat ::
        n <= |domains| && WellGrouped(modules[..last], maxFiles, domains[..n])
        && GroupedAs(modules[last], maxFiles, domains[n..])
  }

  lemma ModuleIsGrouped(m: Module, maxFiles: nat)
    requires ModuleOk(m)
    ensures GroupedAs(m, maxFiles, ModuleDomains(m.path, Normalize(m.files).value, maxFiles))
  {
    NormalizedElements(m.files);
    var files := Normalize(m.files).value;
    if |files| > maxFiles {
      GroupedByDirectory(m.path, files);
    }
  }

  lemma {:induction false} SkeletonIsWellGrouped(modules: seq<Module>, maxFiles: nat)
    requires forall i :: 0 <= i < |modules| ==> ModuleOk(modules[i])
    ensures WellGrouped(modules, maxFiles, Skeleton(modules, maxFiles))
    decreases |modules|
  {
    if modules != [] {
      var last := |modules| - 1;
      assert ModuleOk(modules[last]) && Normalize(modules[last].files).Some?;
      hide ModuleOk, GroupedAs, ModuleDomains, Normalize;
      var m, before := modules[last], Skeleton(modules[..last], maxFiles);
      SkeletonIsWellGrouped(modules[..last], maxFiles);
      ModuleIsGrouped(m, maxFiles);
      var all := Skeleton(modules, maxFiles);
      assert all[..|before|] == before && all[|before|..] == ModuleDomains(m.path, Normalize(m.files).value, maxFiles);
    }
  }

  lemma SplitLetter(s: string)
    requires s != "" && s[0] != '/'
    ensures var rest := ScopePatterns.Split(s[1..], '/');
            ScopePatterns.Split(s, '/') == [[s[0]] + rest[0]] + rest[1..]
  {
  }

  /** A valid module that is itself a file in a directory, and the domain it goes to, which it does not lie in. */
  lemma NestedFileExample()
    ensures ValidPath("a/b") && Under("a/b", "a/b") && DomainOf("a/b", "a/b") == "a/b/a" && !Under("a/b/a", "a/b")
  {
    var rest, path := "/b", "a/b";
    assert rest[1..] == "b" && path[1..] == rest;
    ScopePatterns.OneSegment("b");
    assert ScopePatterns.Split(rest, '/') == [[]] + ScopePatterns.Split(rest[1..], '/');
    var parts := ScopePatterns.Split(path[1..], '/');
    assert parts == [[], "b"];
    SplitLetter(path);
    assert [path[0]] + parts[0] == "a" && parts[1..] == ["b"];
    assert !("a/b" + "/" <= "a/b");
  }

  lemma OkHasNoRepeats(m: Module)
    requires ModuleOk(m)
    ensures Distinct(m.files)
  {
    NormalizedElements(m.files);
  }

  /** One more module: fine exactly when it is well formed and shares no file with those before it. */
  lemma ModuleStep(modules: seq<Module>, i: nat)
    requires i < |modules| && ModulesOk(modules[..i]) && ModuleOk(modules[i])
    ensures ModulesOk(modules[..i + 1])
            <==> forall f :: f in Normalize(modules[i].files).value ==> f !in AllFiles(modules[..i])
    ensures !ModulesOk(modules[..i + 1]) ==> !ModulesOk(modules)
  {
    var m := modules[i];
    hide AllFiles, Normalize, Distinct;
    PrefixStep(modules, i);
    NormalizedElements(m.files);
    OkHasNoRepeats(m);
    JoinedWithoutRepeats(AllFiles(modules[..i]), m.files);
    assert forall k :: 0 <= k < i + 1 ==> modules[..i + 1][k] == if k < i then modules[..i][k] else m;
    if !ModulesOk(modules[..i + 1]) {
      RepeatedLater(modules, i + 1);
    }
  }

  lemma SkeletonStep(modules: seq<Module>, i: nat, maxFiles: nat)
    requires i < |modules| && ModulesOk(modules[..i]) && ModulesOk(modules[..i + 1])
    ensures ModuleOk(modules[i])
    ensures Skeleton(modules[..i + 1], maxFiles)
            == Skeleton(modules[..i], maxFiles)
               + ModuleDomains(modules[i].path, Normalize(modules[i].files).value, maxFiles)
  {
    hide Normalize, ModuleDomains, AllFiles;
    assert modules[..i + 1][..i] == modules[..i] && modules[..i + 1][i] == modules[i];
  }

  /**
   Build the skeleton: every module must be well formed and disjoint from the
   others, and the domains must not exceed the fanout.
   */
  method BuildDomainSkeleton(modules: seq<Module>, maxFiles: int, maxFanout: int) returns (domains: Option<seq<Domain>>)
    ensures maxFiles < 1 || maxFanout < 1 || modules == [] ==> domains.None?
    ensures maxFiles >= 1 && maxFanout >= 1 && modules != [] ==>
              var ordered := SortByText(modules, ModuleKey());
              domains == if ModulesOk(ordered) && |Skeleton(ordered, maxFiles)| <= maxFanout
                         then Some(Skeleton(ordered, maxFiles)) else None
    ensures domains.Some? ==>
              var ordered := SortByText(modules, ModuleKey());
              maxFiles >= 1 && ModulesOk(ordered) && WellGrouped(ordered, maxFiles, domains.value)
  {
    assert Distinct(AllFiles([])) && AllFiles([]) == [];
    if maxFiles < 1 || maxFanout < 1 || modules == [] {
      return None;
    }
    assert Skeleton([], maxFiles) == [];
    hide Distinct, Group, DomainOf, Under, ValidPath, SortByText, Once, ByDirectory, WellGrouped;
    hide Skeleton, AllFiles, Normalize;
    var ordered := SortByText(modules, ModuleKey());
    assert ordered[..0] == [];
    var built: seq<Domain> := [];
    var seen: set<string> := {};
    for i := 0 to |ordered|
      invariant ModulesOk(ordered[..i]) && built == Skeleton(ordered[..i], maxFiles)
      invariant forall f :: f in seen <==> f in AllFiles(ordered[..i])
    {
      var m := ordered[i];
      PrefixStep(ordered, i);
      if !ModuleOk(m) {
        return None;
      }
      var files := Normalize(m.files).value;
      NormalizedElements(m.files);
      ModuleStep(ordered, i);
      if exists f :: f in files && f in seen {
        return None;
      }
      SkeletonStep(ordered, i, maxFiles);
      seen := seen + set f | f in files;
      if |files| <= maxFiles {
        built := built + [Domain(m.path, files)];
      } else {
        var grouped := GroupModule(m.path, files);
        built := built + grouped;
      }
    }
    assert ordered[..|ordered|] == ordered;
    SkeletonIsWellGrouped(ordered, maxFiles);
    return if |built| > maxFanout then None else Some(built);
  }

  // ----- exact coverage -----

  ghost predicate IsDuplicate(paths: seq<string>, p: string) {
    multiset(paths)[p] > 1
  }

  /** The repeated paths, once each and sorted. */
  method Duplicates(paths: seq<string>) returns (duplicates: seq<string>)
    ensures forall p :: p in duplicates <==> IsDuplicate(paths, p)
    ensures Distinct(duplicates) && Ascending(duplicates, PathKey())
  {
    var seen: set<string> := {};
    var found: set<string> := {};
    for i := 0 to |paths|
      invariant forall p :: p in seen <==> p in paths[..i]
      invariant forall p :: p in found <==> IsDuplicate(paths[..i], p)
    {
      assert paths[..i + 1] == paths[..i] + [paths[i]];
      if paths[i] in seen {
        found := found + {paths[i]};
      }
      seen := seen + {paths[i]};
    }
    assert paths[..|paths|] == paths;
    duplicates := SortedSet(found);
  }

  method SortedSet(paths: set<string>) returns (sorted: seq<string>)
    ensures forall p :: p in sorted <==> p in paths
    ensures Distinct(sorted) && Ascending(sorted, PathKey())
  {
    var list: seq<string> := [];
    var rest := paths;
    while rest != {}
      invariant rest <= paths && Distinct(list) && forall p :: p in list <==> p in paths - rest
      decreases |rest|
    {
      var p :| p in rest;
      assert p !in list;
      list, rest := list + [p], rest - {p};
    }
    sorted := SortByText(list, PathKey());
    SortByTextSorts(list, PathKey());
    DistinctCounts(list);
    DistinctCounts(sorted);
    forall p
      ensures p in sorted <==> p in list
    {
      assert p in sorted <==> p in multiset(sorted);
      assert p in list <==> p in multiset(list);
    }
  }

  function Only(paths: seq<string>, others: seq<string>): (r: seq<string>)
    ensures forall p :: p in r <==> p in paths && p !in others
  {
    if paths == [] then [] else (if paths[0] in others then [] else [paths[0]]) + Only(paths[1..], others)
  }

  /** The files of the skeleton are the expected ones, each once, and all are valid paths. */
  ghost predicate Covers(skeleton: seq<Domain>, expected: seq<string>) {
    && Normalize(expected).Some? && Normalize(FilesOf(skeleton)).Some?
    && multiset(FilesOf(skeleton)) == multiset(expected) && Distinct(expected)
  }

  /**
   The check, exactly: a skeleton is valid when its files are the expected ones,
   each once; and the report names what is missing, unknown or repeated.
   */
  method ValidateExactCoverage(skeleton: seq<Domain>, expected: seq<string>) returns (result: Option<Coverage>)
    ensures result.None? <==> Normalize(expected).None? || Normalize(FilesOf(skeleton)).None?
    ensures result.Some? && result.value.valid <==> Covers(skeleton, expected)
    ensures result.Some? ==>
              var c, actual := result.value, FilesOf(skeleton);
              && (forall p :: p in c.missing <==> p in expected && p !in actual)
              && (forall p :: p in c.unknown <==> p in actual && p !in expected)
              && (forall p :: p in c.duplicates <==> IsDuplicate(expected, p) || IsDuplicate(actual, p))
  {
    var wanted := Normalize(expected);
    if wanted.None? {
      return None;
    }
    var repeated := Duplicates(expected);
    var actualRaw := FilesOf(skeleton);
    var actual := Normalize(actualRaw);
    if actual.None? {
      return None;
    }
    var alsoRepeated := Duplicates(actualRaw);
    NormalizedElements(expected);
    NormalizedElements(actualRaw);
    var missing := Only(wanted.value, actual.value);
    var unknown := Only(actual.value, wanted.value);
    var duplicates := SortedSet((set p | p in repeated) + set p | p in alsoRepeated);
    var valid := missing == [] && unknown == [] && duplicates == [] && |actualRaw| == |wanted.value|;
    ExactWhenEqual(expected, actualRaw, missing, unknown, duplicates);
    return Some(Coverage(valid, missing, duplicates, unknown));
  }

  lemma EmptyMeansNone(s: seq<string>)
    ensures s == [] <==> forall p :: p !in s
  {
    if s != [] { assert s[0] in s; }
  }

  lemma ExactWhenEqual(
    expected: seq<string>, actual: seq<string>, missing: seq<string>, unknown: seq<string>, duplicates: seq<string>)
    requires Normalize(expected).Some? && Normalize(actual).Some?
    requires forall p :: p in missing <==> p in expected && p !in actual
    requires forall p :: p in unknown <==> p in actual && p !in expected
    requires forall p :: p in duplicates <==> IsDuplicate(expected, p) || IsDuplicate(actual, p)
    ensures missing == [] && unknown == [] && duplicates == [] && |actual| == |Normalize(expected).value|
            <==> multiset(actual) == multiset(expected) && Distinct(expected)
  {
    EmptyMeansNone(missing);
    EmptyMeansNone(unknown);
    EmptyMeansNone(duplicates);
    NormalizedElements(expected);
    DistinctCounts(expected);
    DistinctCounts(actual);
    if missing == [] && unknown == [] && duplicates == [] {
      forall p
        ensures multiset(actual)[p] == multiset(expected)[p]
      {
        assert !IsDuplicate(expected, p) && !IsDuplicate(actual, p);
        assert p in expected <==> p in multiset(expected);
        assert p in actual <==> p in multiset(actual);
      }
    }
    if multiset(actual) == multiset(expected) && Distinct(expected) {
      assert |multiset(actual)| == |actual| && |multiset(expected)| == |expected|;
      forall p
        ensures p in actual <==> p in expected
        ensures !IsDuplicate(expected, p) && !IsDuplicate(actual, p)
      {
        assert p in expected <==> p in multiset(expected);
        assert p in actual <==> p in multiset(actual);
      }
    }
  }

  /** Whatever `BuildDomainSkeleton` returns covers exactly its own input. */
  lemma SkeletonIsExact(modules: seq<Module>, maxFiles: nat)
    requires ModulesOk(SortByText(modules, ModuleKey()))
    ensures var ordered := SortByText(modules, ModuleKey());
            multiset(FilesOf(Skeleton(ordered, maxFiles))) == multiset(AllFiles(modules)) && Distinct(AllFiles(modules))
  {
    var ordered := SortByText(modules, ModuleKey());
    SkeletonConserves(ordered, maxFiles);
    AllFilesOfSort(modules);
    DistinctCounts(AllFiles(ordered));
    DistinctCounts(AllFiles(modules));
  }

  lemma {:induction false} AllPathsValid(modules: seq<Module>)
    requires forall i :: 0 <= i < |modules| ==> ModuleOk(modules[i])
    ensures forall p :: p in AllFiles(modules) ==> ValidPath(p)
  {
    if modules != [] {
      var last := |modules| - 1;
      AllPathsValid(modules[..last]);
      assert ModuleOk(modules[last]);
    }
  }

  lemma SameValidity(a: seq<string>, b: seq<string>)
    requires multiset(a) == multiset(b) && Normalize(a).Some?
    ensures Normalize(b).Some?
  {
    forall p | p in b
      ensures ValidPath(p)
    {
      assert p in multiset(b) && p in multiset(a);
    }
  }

  /**
   End to end: the check accepts a built skeleton against its own input, and
   against a list of paths exactly when that is a rearrangement of the input.
   */
  lemma SkeletonIsCovered(modules: seq<Module>, maxFiles: nat, expected: seq<string>)
    requires ModulesOk(SortByText(modules, ModuleKey()))
    ensures var built := Skeleton(SortByText(modules, ModuleKey()), maxFiles);
            && Covers(built, AllFiles(modules))
            && (Covers(built, expected) <==> multiset(expected) == multiset(AllFiles(modules)))
  {
    var ordered := SortByText(modules, ModuleKey());
    var input, files := AllFiles(modules), FilesOf(Skeleton(ordered, maxFiles));
    SkeletonIsExact(modules, maxFiles);
    AllFilesOfSort(modules);
    AllPathsValid(ordered);
    SameValidity(AllFiles(ordered), input);
    SameValidity(AllFiles(ordered), files);
    if multiset(expected) == multiset(input) {
      SameValidity(input, expected);
      DistinctCounts(input);
      DistinctCounts(expected);
    }
  }

  lemma {:induction false} AllFilesConcat(a: seq<Module>, b: seq<Module>)
    ensures AllFiles(a + b) == AllFiles(a) + AllFiles(b)
    decreases |b|
  {
    if b == [] {
      assert a + b == a;
    } else {
      assert (a + b)[..|a + b| - 1] == a + b[..|b| - 1];
      AllFilesConcat(a, b[..|b| - 1]);
    }
  }

  lemma {:induction false} AllFilesOfInsert(m: Module, modules: seq<Module>)
    ensures multiset(AllFiles(Insert(m, modules, ModuleKey()))) == multiset(AllFiles(modules)) + multiset(m.files)
  {
    AllFilesOne(m);
    if modules == [] || Less(m.path, modules[0].path) {
      AllFilesConcat([m], modules);
    } else {
      AllFilesOfInsert(m, modules[1..]);
      AllFilesConcat([modules[0]], Insert(m, modules[1..], ModuleKey()));
      AllFilesConcat([modules[0]], modules[1..]);
      assert [modules[0]] + modules[1..] == modules;
    }
  }

  lemma AllFilesOne(m: Module)
    ensures AllFiles([m]) == m.files
  {
    assert [m][..0] == [];
  }

  lemma {:induction false} AllFilesOfSort(modules: seq<Module>)
    ensures multiset(AllFiles(SortByText(modules, ModuleKey()))) == multiset(AllFiles(modules))
  {
    if modules != [] {
      var last := |modules| - 1;
      AllFilesOfSort(modules[..last]);
      AllFilesOfInsert(modules[last], SortByText(modules[..last], ModuleKey()));
    }
  }
}
