/**
 The ripple preview of changed symbols (`planning/ripple.py`): the modules they
 change, whatever depends on those, and the slices made from all of that.
 */
module Ripple {
  import opened Counting
  import opened Options
  import opened Reachability
  import opened TextSorting

  // ----- from changed symbols to changed modules -----

  datatype SourceModule = SourceModule(id: Node, files: seq<string>, isSource: bool, exports: set<string>)

  /** Where a symbol is defined: in a known module, or in a file. */
  datatype Binding = Binding(symbol: string, definer: Option<Node>, file: string, ambiguous: bool)

  datatype Reference = Reference(symbol: string, file: string, ambiguous: bool)

  datatype SymbolIndex = SymbolIndex(
    modules: seq<SourceModule>, bindings: seq<Binding>, references: seq<Reference>, textFallback: bool)

  datatype Reason = AmbiguousBinding | AmbiguousReference(symbol: string) | NoSymbolClosure | NothingBound

  /** The module of a path; of several the last one counts. */
  function ModuleForPath(modules: seq<SourceModule>, path: string): (id: Option<Node>)
    ensures id.None? <==> forall m :: m in modules ==> path !in m.files
    ensures id.Some? ==> exists k :: 0 <= k < |modules| && LastWith(modules, path, k) && modules[k].id == id.value
  {
    if modules == [] then None
    else
      var front, last := modules[..|modules| - 1], modules[|modules| - 1];
      assert modules == front + [last];
      if path in last.files then
        assert LastWith(modules, path, |modules| - 1);
        Some(last.id)
      else
        assert forall k: nat :: k < |front| && LastWith(front, path, k) ==> LastWith(modules, path, k);
        ModuleForPath(front, path)
  }

  ghost predicate LastWith(modules: seq<SourceModule>, path: string, k: nat)
    requires k < |modules|
  {
    path in modules[k].files && forall j :: k < j < |modules| ==> path !in modules[j].files
  }

  predicate BoundIn(modules: seq<SourceModule>, b: Binding, n: Node) {
    if b.definer.Some? then b.definer.value == n else ModuleForPath(modules, b.file) == Some(n)
  }

  ghost predicate Defines(i: SymbolIndex, symbols: set<string>, n: Node) {
    exists b :: b in i.bindings && b.symbol in symbols && BoundIn(i.modules, b, n)
  }

  ghost predicate Mentions(i: SymbolIndex, symbols: set<string>, n: Node) {
    exists r :: r in i.references && r.symbol in symbols && ModuleForPath(i.modules, r.file) == Some(n)
  }

  ghost predicate FallsBack(i: SymbolIndex, n: Node) {
    i.textFallback && exists m :: m in i.modules && m.id == n && m.isSource
  }

  /** The index connects the module with a changed symbol. */
  ghost predicate Indexed(i: SymbolIndex, symbols: set<string>, n: Node) {
    Defines(i, symbols, n) || Mentions(i, symbols, n) || FallsBack(i, n)
  }

  ghost predicate Exports(modules: seq<SourceModule>, symbols: set<string>, n: Node) {
    exists m, s :: m in modules && m.id == n && s in m.exports && s in symbols
  }

  /** A changed module: one the index connects, or, when it connects none, one that exports a symbol. */
  ghost predicate Changed(i: SymbolIndex, symbols: set<string>, n: Node) {
    Indexed(i, symbols, n) || ((forall m :: !Indexed(i, symbols, m)) && Exports(i.modules, symbols, n))
  }

  /** Exactly when the preview says that it may be too coarse, and why. */
  ghost predicate Degrades(i: SymbolIndex, symbols: set<string>, reason: Reason) {
    match reason
    case AmbiguousBinding => exists b :: b in i.bindings && b.symbol in symbols && b.ambiguous
    case AmbiguousReference(s) =>
      exists r ::
        r in i.references && r.symbol == s && s in symbols && r.ambiguous && ModuleForPath(i.modules, r.file).Some?
    case NoSymbolClosure => i.textFallback
    case NothingBound => forall n :: !Changed(i, symbols, n)
  }

  /** The reasons as they are found, each once. */
  function Adding(reasons: seq<Reason>, reason: Reason, when: bool): (r: seq<Reason>)
    requires Distinct(reasons)
    ensures Distinct(r) && forall x :: x in r <==> x in reasons || (when && x == reason)
  {
    if when && reason !in reasons then reasons + [reason] else reasons
  }

  method DefiningModules(i: SymbolIndex, symbols: set<string>) returns (found: set<Node>, ambiguous: bool)
    ensures forall n :: n in found <==> Defines(i, symbols, n)
    ensures ambiguous <==> Degrades(i, symbols, AmbiguousBinding)
  {
    found, ambiguous := {}, false;
    for k := 0 to |i.bindings|
      invariant forall n :: n in found <==> Defines(i.(bindings := i.bindings[..k]), symbols, n)
      invariant ambiguous <==> Degrades(i.(bindings := i.bindings[..k]), symbols, AmbiguousBinding)
    {
      var b := i.bindings[k];
      assert i.bindings[..k + 1] == i.bindings[..k] + [b];
      if b.symbol in symbols {
        var m := if b.definer.Some? then b.definer else ModuleForPath(i.modules, b.file);
        assert forall n :: BoundIn(i.modules, b, n) <==> m == Some(n);
        found := found + if m.Some? then {m.value} else {};
        ambiguous := ambiguous || b.ambiguous;
      }
    }
    assert i.(bindings := i.bindings[..|i.bindings|]) == i;
  }

  method MentioningModules(i: SymbolIndex, symbols: set<string>, before: seq<Reason>)
    returns (found: set<Node>, reasons: seq<Reason>)
    requires Distinct(before)
    ensures forall n :: n in found <==> Mentions(i, symbols, n)
    ensures Distinct(reasons)
    ensures forall x :: x in reasons <==> x in before || (x.AmbiguousReference? && Degrades(i, symbols, x))
  {
    found, reasons := {}, before;
    for k := 0 to |i.references|
      invariant forall n :: n in found <==> Mentions(i.(references := i.references[..k]), symbols, n)
      invariant Distinct(reasons)
      invariant forall x :: x in reasons <==>
                  || x in before
                  || (x.AmbiguousReference? && Degrades(i.(references := i.references[..k]), symbols, x))
    {
      var r := i.references[k];
      assert i.references[..k + 1] == i.references[..k] + [r];
      var m := ModuleForPath(i.modules, r.file);
      if r.symbol in symbols && m.Some? {
        found := found + {m.value};
        reasons := Adding(reasons, AmbiguousReference(r.symbol), r.ambiguous);
      }
    }
    assert i.(references := i.references[..|i.references|]) == i;
  }

  method ExportingModules(modules: seq<SourceModule>, symbols: set<string>) returns (found: set<Node>)
    ensures forall n :: n in found <==> Exports(modules, symbols, n)
  {
    found := {};
    for k := 0 to |modules|
      invariant forall n :: n in found <==> Exports(modules[..k], symbols, n)
    {
      var m := modules[k];
      assert modules[..k + 1] == modules[..k] + [m];
      if exists s :: s in m.exports && s in symbols {
        found := found + {m.id};
      }
    }
    assert modules[..|modules|] == modules;
  }

  /** The modules that some symbols change, and every reason why that may be coarse. */
  method ChangedModules(i: SymbolIndex, symbols: set<string>) returns (changed: set<Node>, reasons: seq<Reason>)
    ensures forall n :: n in changed <==> Changed(i, symbols, n)
    ensures Distinct(reasons) && forall x :: x in reasons <==> Degrades(i, symbols, x)
  {
    hide Defines, Mentions, Exports;
    var defining, ambiguous := DefiningModules(i, symbols);
    reasons := Adding([], AmbiguousBinding, ambiguous);
    var mentioning;
    mentioning, reasons := MentioningModules(i, symbols, reasons);
    changed := defining + mentioning;
    if i.textFallback {
      changed := changed + set m | m in i.modules && m.isSource :: m.id;
    }
    reasons := Adding(reasons, NoSymbolClosure, i.textFallback);
    assert forall n :: n in changed <==> Indexed(i, symbols, n);
    if changed == {} {
      changed := ExportingModules(i.modules, symbols);
    }
    reasons := Adding(reasons, NothingBound, changed == {});
  }

  // ----- slices in rank order -----

  /** The order of slices in a preview: by rank, then by reference. */
  predicate Precedes(ranks: map<Node, int>, a: Node, b: Node)
    requires a in ranks && b in ranks
  {
    ranks[a] < ranks[b] || (ranks[a] == ranks[b] && !Less(b, a))
  }

  ghost predicate InRankOrder(ranks: map<Node, int>, s: seq<Node>) {
    && (forall r :: r in s ==> r in ranks)
    && forall i, j :: 0 <= i < j < |s| ==> Precedes(ranks, s[i], s[j])
  }

  lemma PrecedesOrders(ranks: map<Node, int>, a: Node, b: Node, c: Node)
    requires a in ranks && b in ranks && c in ranks
    ensures Precedes(ranks, a, b) || Precedes(ranks, b, a)
    ensures Precedes(ranks, a, b) && Precedes(ranks, b, c) ==> Precedes(ranks, a, c)
  {
    LessTotal(a, b);
    if Precedes(ranks, a, b) && Precedes(ranks, b, c) && ranks[a] == ranks[c] {
      LessTransitive(a, b, c);
    }
  }

  lemma InsertKeepsOrder(ranks: map<Node, int>, s: seq<Node>, k: nat, r: Node)
    requires InRankOrder(ranks, s) && r in ranks && k <= |s|
    requires forall i :: 0 <= i < k ==> Precedes(ranks, s[i], r)
    requires k < |s| ==> !Precedes(ranks, s[k], r)
    ensures InRankOrder(ranks, s[..k] + [r] + s[k..])
  {
    hide Precedes;
    forall j | k <= j < |s|
      ensures Precedes(ranks, r, s[j])
    {
      PrecedesOrders(ranks, r, s[k], s[j]);
    }
  }

  /** The slices of a set in their order. */
  method Ordered(refs: set<Node>, ranks: map<Node, int>) returns (ordered: seq<Node>)
    requires refs <= ranks.Keys
    ensures Distinct(ordered) && Members(ordered) == refs && InRankOrder(ranks, ordered)
  {
    ordered := [];
    var rest := refs;
    while rest != {}
      invariant Distinct(ordered) && Members(ordered) !! rest && Members(ordered) + rest == refs
      invariant InRankOrder(ranks, ordered)
      decreases |rest|
    {
      hide Precedes;
      var r :| r in rest;
      var k := 0;
      while k < |ordered| && Precedes(ranks, ordered[k], r)
        invariant 0 <= k <= |ordered| && forall i :: 0 <= i < k ==> Precedes(ranks, ordered[i], r)
      {
        k := k + 1;
      }
      InsertKeepsOrder(ranks, ordered, k, r);
      InsertKeepsMembers(ordered, k, r);
      ordered, rest := ordered[..k] + [r] + ordered[k..], rest - {r};
    }
  }

  lemma InsertKeepsMembers(s: seq<Node>, k: nat, r: Node)
    requires Distinct(s) && k <= |s| && r !in Members(s)
    ensures Distinct(s[..k] + [r] + s[k..]) && Members(s[..k] + [r] + s[k..]) == Members(s) + {r}
  {
    var after := s[..k] + [r] + s[k..];
    assert s == s[..k] + s[k..];
    assert multiset(after) == multiset(s) + multiset{r};
    DistinctCounts(s);
    DistinctCounts(after);
    forall x
      ensures x in after <==> x in s || x == r
    {
      assert x in after <==> x in multiset(after);
    }
  }

  // ----- the totals of the ripple preview -----

  ghost function AnyOf<T>(s: set<T>): (k: T)
    requires s != {}
    ensures k in s
  {
    var k :| k in s;
    k
  }

  ghost function AnyKey(m: map<int, nat>): (k: int)
    requires m.Keys != {}
    ensures k in m
  {
    AnyOf(m.Keys)
  }

  ghost function Sum(m: map<int, nat>): nat
    decreases m.Keys
  {
    if m.Keys == {} then 0 else m[AnyKey(m)] + Sum(m - {AnyKey(m)})
  }

  lemma {:induction false} SumWithout(m: map<int, nat>, k: int)
    requires k in m
    ensures Sum(m) == m[k] + Sum(m - {k})
    decreases m.Keys
  {
    var first := AnyKey(m);
    if first != k {
      SumWithout(m - {first}, k);
      SumWithout(m - {k}, first);
      assert m - {first} - {k} == m - {k} - {first};
    }
  }

  function CountAt(m: map<int, nat>, k: int): nat {
    if k in m then m[k] else 0
  }

  lemma SumIncrement(m: map<int, nat>, k: int)
    ensures Sum(m[k := CountAt(m, k) + 1]) == Sum(m) + 1
  {
    var more := m[k := CountAt(m, k) + 1];
    SumWithout(more, k);
    assert more - {k} == m - {k};
    if k in m {
      SumWithout(m, k);
    } else {
      assert m - {k} == m;
    }
  }

  function AtRank(refs: set<Node>, ranks: map<Node, int>, rank: int): set<Node>
    requires refs <= ranks.Keys
  {
    set r | r in refs && ranks[r] == rank
  }

  lemma OneMoreAtRank(refs: set<Node>, r: Node, ranks: map<Node, int>, k: int)
    requires refs <= ranks.Keys && r in ranks && r !in refs
    ensures |AtRank(refs + {r}, ranks, k)| == |AtRank(refs, ranks, k)| + (if k == ranks[r] then 1 else 0)
  {
    var before, after := AtRank(refs, ranks, k), AtRank(refs + {r}, ranks, k);
    assert after == if k == ranks[r] then before + {r} else before;
  }

  lemma CountsStep(done: set<Node>, r: Node, ranks: map<Node, int>, counts: map<int, nat>)
    requires done <= ranks.Keys && r in ranks && r !in done
    requires forall k :: CountAt(counts, k) == |AtRank(done, ranks, k)|
    ensures var more := counts[ranks[r] := CountAt(counts, ranks[r]) + 1];
            forall k :: CountAt(more, k) == |AtRank(done + {r}, ranks, k)|
  {
    var more := counts[ranks[r] := CountAt(counts, ranks[r]) + 1];
    forall k
      ensures CountAt(more, k) == |AtRank(done + {r}, ranks, k)|
    {
      OneMoreAtRank(done, r, ranks, k);
    }
  }

  /** How many slices each rank has. */
  method Distribute(refs: set<Node>, ranks: map<Node, int>) returns (distribution: map<int, nat>)
    requires refs <= ranks.Keys
    ensures Sum(distribution) == |refs|
    ensures forall k :: CountAt(distribution, k) == |AtRank(refs, ranks, k)|
    ensures forall k :: k in distribution ==> distribution[k] > 0
  {
    distribution := map[];
    var done, rest := {}, refs;
    while rest != {}
      invariant done + rest == refs && done !! rest && Sum(distribution) == |done|
      invariant forall k :: CountAt(distribution, k) == |AtRank(done, ranks, k)|
      invariant forall k :: k in distribution ==> distribution[k] > 0
      decreases |rest|
    {
      var r :| r in rest;
      var rank := ranks[r];
      SumIncrement(distribution, rank);
      CountsStep(done, r, ranks, distribution);
      hide Sum, AtRank;
      distribution := distribution[rank := CountAt(distribution, rank) + 1];
      done, rest := done + {r}, rest - {r};
    }
  }

  /** A slice of the frozen plan and the modules it was made from. */
  datatype PlannedSlice = PlannedSlice(ref: Node, modules: set<Node>)

  /** A slice is affected when one of its modules is. */
  ghost predicate TouchedBy(slices: seq<PlannedSlice>, affected: set<Node>, r: Node) {
    exists s :: s in slices && s.ref == r && s.modules * affected != {}
  }

  method RefsByModule(slices: seq<PlannedSlice>) returns (byModule: Graph)
    ensures forall m, r :: r in Succ(byModule, m) <==> exists s :: s in slices && s.ref == r && m in s.modules
  {
    byModule := map[];
    for i := 0 to |slices|
      invariant forall m, r :: r in Succ(byModule, m) <==> exists s :: s in slices[..i] && s.ref == r && m in s.modules
    {
      var slice := slices[i];
      ghost var before := byModule;
      var rest := slice.modules;
      while rest != {}
        invariant rest <= slice.modules
        invariant forall m, r :: r in Succ(byModule, m) <==>
                    r in Succ(before, m) || (r == slice.ref && m in slice.modules - rest)
        decreases |rest|
      {
        var m :| m in rest;
        rest := rest - {m};
        byModule := WithEdge(byModule, m, slice.ref);
      }
      assert slices[..i + 1] == slices[..i] + [slice];
    }
    assert slices[..|slices|] == slices;
  }

  /** The module is a changed one or depends on one over some number of steps. */
  ghost predicate Rippled(
    index: SymbolIndex, symbols: set<string>, imports: seq<Import>, relations: seq<Relation>, n: Node)
  {
    exists p ::
      DependencyChain(imports, relations, p) && Changed(index, symbols, p[0]) && p[|p| - 1] == n
  }

  lemma DependentIsRippled(
    index: SymbolIndex, symbols: set<string>, imports: seq<Import>, relations: seq<Relation>, changed: set<Node>,
    n: Node)
    requires forall m :: m in changed <==> Changed(index, symbols, m)
    ensures Dependent(imports, relations, changed, n) <==> Rippled(index, symbols, imports, relations, n)
  {
    hide Changed;
    if Dependent(imports, relations, changed, n) {
      var p :| DependencyChain(imports, relations, p) && p[0] in changed && p[|p| - 1] == n;
    }
    if Rippled(index, symbols, imports, relations, n) {
      var p :| DependencyChain(imports, relations, p) && Changed(index, symbols, p[0]) && p[|p| - 1] == n;
      assert p[0] in changed;
    }
  }

  /**
   The ripple of changed symbols: what depends on the changed modules is
   affected, the slices made from that are split into those to invalidate and
   those already integrated, each in rank order, and the totals agree.
   */
  method CalculateRipple(
    index: SymbolIndex, symbols: set<string>, imports: seq<Import>, relations: seq<Relation>,
    slices: seq<PlannedSlice>, ranks: map<Node, int>, integrated: set<Node>)
    returns (affected: set<Node>, invalidated: seq<Node>, compensation: seq<Node>, estimate: nat,
             distribution: map<int, nat>, reasons: seq<Reason>)
    requires forall s :: s in slices ==> s.ref in ranks
    ensures forall n :: n in affected <==> Rippled(index, symbols, imports, relations, n)
    ensures forall r :: r in Members(invalidated) <==> TouchedBy(slices, affected, r) && r !in integrated
    ensures forall r :: r in Members(compensation) <==> TouchedBy(slices, affected, r) && r in integrated
    ensures Distinct(invalidated) && InRankOrder(ranks, invalidated)
    ensures Distinct(compensation) && InRankOrder(ranks, compensation)
    ensures estimate == |Members(invalidated) + Members(compensation)| == Sum(distribution)
    ensures Members(invalidated) + Members(compensation) <= ranks.Keys
    ensures forall k ::
              CountAt(distribution, k) == |AtRank(Members(invalidated) + Members(compensation), ranks, k)|
    ensures forall x :: x in reasons <==> Degrades(index, symbols, x)
  {
    var changed;
    changed, reasons := ChangedModules(index, symbols);
    affected := ReverseImportClosure(imports, relations, changed);
    forall n
      ensures n in affected <==> Rippled(index, symbols, imports, relations, n)
    {
      DependentIsRippled(index, symbols, imports, relations, changed, n);
    }
    var byModule := RefsByModule(slices);
    var touched := set m, r | m in affected && m in byModule && r in byModule[m] :: r;
    Touched(slices, affected, byModule, touched);
    hide Changed, Degrades, Rippled, InRankOrder, Sum, AtRank;
    assert touched <= ranks.Keys;
    invalidated := Ordered(touched - integrated, ranks);
    compensation := Ordered(touched * integrated, ranks);
    DistinctSize(invalidated);
    DistinctSize(compensation);
    estimate := |invalidated| + |compensation|;
    assert Members(invalidated) + Members(compensation) == touched;
    distribution := Distribute(touched, ranks);
  }

  lemma Touched(slices: seq<PlannedSlice>, affected: set<Node>, byModule: Graph, touched: set<Node>)
    requires forall m, r :: r in Succ(byModule, m) <==> exists s :: s in slices && s.ref == r && m in s.modules
    requires forall r :: r in touched <==> exists m :: m in affected && r in Succ(byModule, m)
    ensures forall r :: r in touched <==> TouchedBy(slices, affected, r)
  {
    forall r
      ensures r in touched <==> TouchedBy(slices, affected, r)
    {
      if r in touched {
        var m :| m in affected && r in Succ(byModule, m);
        var s :| s in slices && s.ref == r && m in s.modules;
        assert m in s.modules * affected;
      }
      if TouchedBy(slices, affected, r) {
        var s :| s in slices && s.ref == r && s.modules * affected != {};
        var m :| m in s.modules * affected;
        assert r in Succ(byModule, m);
      }
    }
  }
}
