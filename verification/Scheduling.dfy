/**
 The cross-Run slice scheduler (`runtime/scheduler.py`): what it selects, why
 concurrent work never shares a write scope, why no Run starves, and when an
 accepted plan has something left to dispatch.
 */
module Scheduling {
  import opened PlanGraph
  import opened PlanFreezing
  import opened Counting
  import opened Options

  datatype Pool = Model | Sandbox | Adjudication

  /** A submitted slice; the typed predecessor sets are normalised by construction. */
  datatype ReadySlice = ReadySlice(
    run: string, slice: SliceId, requiredSlices: set<SliceId>, orderedBefore: set<SliceId>,
    scope: set<string>, pool: Pool, generation: nat)

  datatype Identity = Identity(run: string, slice: SliceId, generation: nat)

  datatype Selection = Selected(item: ReadySlice) | Nothing

  function IdentityOf(item: ReadySlice): Identity {
    Identity(item.run, item.slice, item.generation)
  }

  function StripSlashes(s: string): string {
    if s != "" && s[|s| - 1] == '/' then StripSlashes(s[..|s| - 1]) else s
  }

  predicate Nested(first: string, second: string) {
    first == second || StripSlashes(second) + "/" <= first || StripSlashes(first) + "/" <= second
  }

  predicate Overlap(left: set<string>, right: set<string>) {
    exists first, second :: first in left && second in right && Nested(first, second)
  }

  /** The path is the entry of a scope, or lies below it; slashes at the end of the entry do not count. */
  ghost predicate LiesIn(path: string, entry: string) {
    path == entry || exists n: nat :: n <= |entry| && IsStripped(entry, n) && entry[..n] + "/" <= path
  }

  /** Behind position `n` there are only slashes, and before it there is none. */
  ghost predicate IsStripped(entry: string, n: nat)
    requires n <= |entry|
  {
    (forall i :: n <= i < |entry| ==> entry[i] == '/') && (n > 0 ==> entry[n - 1] != '/')
  }

  /** Some path lies in an entry of both scopes. */
  ghost predicate SharePath(left: set<string>, right: set<string>) {
    exists path, a, b :: a in left && b in right && LiesIn(path, a) && LiesIn(path, b)
  }

  lemma {:induction false} StrippedIs(entry: string)
    ensures |StripSlashes(entry)| <= |entry| && StripSlashes(entry) == entry[..|StripSlashes(entry)|]
    ensures forall n: nat :: n <= |entry| ==> (IsStripped(entry, n) <==> n == |StripSlashes(entry)|)
  {
    if entry != "" && entry[|entry| - 1] == '/' {
      var front := entry[..|entry| - 1];
      StrippedIs(front);
      var k := |StripSlashes(front)|;
      assert IsStripped(front, k);
      assert entry[..k] == front[..k];
      forall n: nat | n <= |entry|
        ensures IsStripped(entry, n) <==> n == k
      {
        if n < |entry| {
          assert IsStripped(entry, n) <==> IsStripped(front, n);
        }
      }
    }
  }

  lemma LiesBelow(path: string, entry: string)
    ensures LiesIn(path, entry) <==> path == entry || StripSlashes(entry) + "/" <= path
  {
    StrippedIs(entry);
    var n := |StripSlashes(entry)|;
    assert IsStripped(entry, n) && entry[..n] == StripSlashes(entry);
  }

  lemma PrefixesOf(path: string, a: string, b: string)
    requires a <= path && b <= path && |a| <= |b|
    ensures a <= b
  {
    assert a == path[..|a|] && b == path[..|b|];
  }

  /** Two entries with a path in common are nested. */
  lemma CommonPathNests(path: string, a: string, b: string)
    requires LiesIn(path, a) && LiesIn(path, b) && |StripSlashes(a)| <= |StripSlashes(b)|
    ensures Nested(a, b)
  {
    LiesBelow(path, a);
    LiesBelow(path, b);
    StrippedIs(a);
    StrippedIs(b);
    var x, y := StripSlashes(a), StripSlashes(b);
    if path == a {
      if path != b { assert y + "/" <= a; }
    } else if path == b {
      assert x + "/" <= b;
    } else {
      PrefixesOf(path, x, y);
      if |x| < |y| {
        PrefixesOf(path, x + "/", y);
        assert x + "/" <= y && y <= b;
      } else {
        assert x == y;
        SameStripped(a, b);
      }
    }
  }

  lemma SameStripped(a: string, b: string)
    requires StripSlashes(a) == StripSlashes(b)
    ensures Nested(a, b)
  {
    StrippedIs(a);
    StrippedIs(b);
    var n := |StripSlashes(a)|;
    assert IsStripped(a, n) && IsStripped(b, n);
    if |a| == |b| {
      assert forall i :: n <= i < |a| ==> a[i] == b[i];
      assert a == a[..n] + a[n..] && b == b[..n] + b[n..];
    } else if |a| < |b| {
      assert b[..n + 1] == b[..n] + "/";
    } else {
      assert a[..n + 1] == a[..n] + "/";
    }
  }

  /** The string test on scopes holds exactly when some path lies in both. */
  lemma OverlapIsSharedPath(left: set<string>, right: set<string>)
    ensures Overlap(left, right) <==> SharePath(left, right)
  {
    if path, a, b :| a in left && b in right && LiesIn(path, a) && LiesIn(path, b) {
      if |StripSlashes(a)| <= |StripSlashes(b)| {
        CommonPathNests(path, a, b);
      } else {
        CommonPathNests(path, b, a);
      }
    }
    if a, b :| a in left && b in right && Nested(a, b) {
      LiesBelow(a, a);
      LiesBelow(a, b);
      LiesBelow(b, a);
      LiesBelow(b, b);
      var path := if StripSlashes(a) + "/" <= b then b else a;
      assert LiesIn(path, a) && LiesIn(path, b);
    }
  }

  function Lookup<V>(m: map<string, set<V>>, run: string): set<V> {
    if run in m then m[run] else {}
  }

  /** The bookkeeping of the scheduler as one value. */
  datatype Book = Book(
    queues: map<string, seq<ReadySlice>>,
    integrated: map<string, set<SliceId>>,
    failed: map<string, set<SliceId>>,
    awaiting: set<Identity>,
    reserved: map<Identity, set<string>>,
    runOrder: seq<string>,
    cursor: nat)

  /** The scopes held by in-flight work of one Run. */
  function ReservedScopes(b: Book, run: string): set<string> {
    set id, s | id in b.reserved && id.run == run && s in b.reserved[id] :: s
  }

  predicate DependenciesMet(item: ReadySlice, integrated: set<SliceId>, failed: set<SliceId>) {
    item.requiredSlices <= integrated && item.orderedBefore <= integrated + failed
  }

  /** What does not depend on scopes: the item is not settled or under way, its predecessors are, its pool is free. */
  predicate Ready(b: Book, item: ReadySlice, pools: set<Pool>) {
    var integrated, failed := Lookup(b.integrated, item.run), Lookup(b.failed, item.run);
    && item.slice !in integrated && item.slice !in failed
    && IdentityOf(item) !in b.reserved && IdentityOf(item) !in b.awaiting
    && DependenciesMet(item, integrated, failed)
    && item.pool in pools
  }

  /** Whether one queued item may be dispatched now: it is ready and shares no path with anything that is under way. */
  ghost predicate Eligible(b: Book, item: ReadySlice, activeScopes: set<string>, pools: set<Pool>) {
    Ready(b, item, pools) && !SharePath(item.scope, activeScopes + ReservedScopes(b, item.run))
  }

  /** No item of a Run may be dispatched now. */
  ghost predicate Idle(b: Book, run: string, activeScopes: set<string>, pools: set<Pool>)
    requires run in b.queues
  {
    forall item :: item in b.queues[run] ==> !Eligible(b, item, activeScopes, pools)
  }

  /** Two dispatched items of one Run never share a path. */
  ghost predicate ScopesExcluded(b: Book) {
    forall x, y :: x in b.reserved && y in b.reserved && x != y && x.run == y.run
                   ==> !SharePath(b.reserved[x], b.reserved[y])
  }

  ghost predicate BookValid(b: Book) {
    && Distinct(b.runOrder)
    && (forall run :: run in b.queues <==> run in b.runOrder)
    && (forall run, item :: run in b.queues && item in b.queues[run] ==> item.run == run)
    && ScopesExcluded(b)
    && (b.cursor == 0 || b.cursor < |b.runOrder|)
  }

  function RunIndex(b: Book, offset: nat): (i: nat)
    requires b.runOrder != []
    ensures i < |b.runOrder|
  {
    (b.cursor + offset) % |b.runOrder|
  }

  function RunAt(b: Book, offset: nat): string
    requires b.runOrder != []
  {
    b.runOrder[RunIndex(b, offset)]
  }

  ghost predicate Permitted(only: Option<string>, run: string) {
    only.None? || only.value == run
  }

  /** Reserving an eligible item keeps scopes exclusive. */
  lemma ReservationExcludes(b: Book, item: ReadySlice, activeScopes: set<string>, pools: set<Pool>)
    requires ScopesExcluded(b) && Eligible(b, item, activeScopes, pools)
    ensures ScopesExcluded(b.(reserved := b.reserved[IdentityOf(item) := item.scope]))
  {
    var after := b.(reserved := b.reserved[IdentityOf(item) := item.scope]);
    forall x | x in b.reserved && x.run == item.run
      ensures !SharePath(item.scope, b.reserved[x]) && !SharePath(b.reserved[x], item.scope)
    {
      var under := activeScopes + ReservedScopes(b, item.run);
      assert forall e :: e in b.reserved[x] ==> e in ReservedScopes(b, item.run);
      SharesLess(item.scope, b.reserved[x], under);
    }
  }

  lemma SharesLess(scope: set<string>, small: set<string>, large: set<string>)
    requires small <= large
    ensures SharePath(scope, small) ==> SharePath(scope, large)
    ensures SharePath(small, scope) ==> SharePath(scope, large)
  {
    hide LiesIn;
    if path, a, b :| a in scope && b in small && LiesIn(path, a) && LiesIn(path, b) {
      assert b in large;
    }
    if path, a, b :| a in small && b in scope && LiesIn(path, a) && LiesIn(path, b) {
      assert a in large;
    }
  }

  lemma DroppingExcludes(b: Book, reserved: map<Identity, set<string>>)
    requires ScopesExcluded(b)
    requires forall x :: x in reserved ==> x in b.reserved && reserved[x] == b.reserved[x]
    ensures ScopesExcluded(b.(reserved := reserved))
  {
  }

  /** The position of the first item of a slice in a queue, or its length. */
  function SlicePosition(queue: seq<ReadySlice>, slice: SliceId): (i: nat)
    ensures i <= |queue| && (i < |queue| ==> queue[i].slice == slice)
    ensures forall k :: 0 <= k < i ==> queue[k].slice != slice
  {
    if queue == [] || queue[0].slice == slice then 0 else 1 + SlicePosition(queue[1..], slice)
  }

  function QueueOf(b: Book, run: string): seq<ReadySlice> {
    if run in b.queues then b.queues[run] else []
  }

  /** A changed slice is refused while its queued generation is in flight. */
  predicate Refused(b: Book, item: ReadySlice) {
    var q := QueueOf(b, item.run);
    var i := SlicePosition(q, item.slice);
    i < |q| && q[i] != item && IdentityOf(q[i]) in b.reserved
  }

  /** A new generation is neither integrated, failed nor awaiting, whatever the old one was. */
  function ForgetOutcome(b: Book, run: string, slice: SliceId): Book {
    b.(integrated := b.integrated[run := Lookup(b.integrated, run) - {slice}],
       failed := b.failed[run := Lookup(b.failed, run) - {slice}],
       awaiting := set id | id in b.awaiting && !(id.run == run && id.slice == slice))
  }

  function Submitted(b: Book, item: ReadySlice): Book {
    var q := QueueOf(b, item.run);
    var i := SlicePosition(q, item.slice);
    if Refused(b, item) then b
    else if i == |q| then
      b.(queues := b.queues[item.run := q + [item]],
         runOrder := if item.run in b.queues then b.runOrder else b.runOrder + [item.run])
    else
      (if q[i].generation != item.generation then ForgetOutcome(b, item.run, item.slice) else b)
      .(queues := b.queues[item.run := q[i := item]])
  }

  function CurrentGeneration(b: Book, run: string, slice: SliceId): Option<nat> {
    var q := QueueOf(b, run);
    var i := SlicePosition(q, slice);
    if i < |q| then Some(q[i].generation) else None
  }

  function Integrated(b: Book, run: string, slice: SliceId, generation: Option<nat>): Book {
    var current := CurrentGeneration(b, run, slice);
    var selected := if generation.None? then current else generation;
    var marked :=
      if generation.None? || generation == current then
        b.(integrated := b.integrated[run := Lookup(b.integrated, run) + {slice}],
           failed := b.failed[run := Lookup(b.failed, run) - {slice}],
           awaiting := set id | id in b.awaiting && !(id.run == run && id.slice == slice))
      else b;
    if selected.Some? then marked.(reserved := b.reserved - {Identity(run, slice, selected.value)}) else marked
  }

  function Released(b: Book, run: string, slice: SliceId, generation: Option<nat>): Book {
    var selected := if generation.Some? then generation else CurrentGeneration(b, run, slice);
    if selected.Some? then b.(reserved := b.reserved - {Identity(run, slice, selected.value)}) else b
  }

  function Awaited(b: Book, run: string, slice: SliceId, generation: nat): Book {
    var id := Identity(run, slice, generation);
    b.(reserved := b.reserved - {id}, awaiting := b.awaiting + {id})
  }

  function FactsRestored(b: Book, run: string, integrated: set<SliceId>, failed: set<SliceId>): Book {
    b.(integrated := b.integrated[run := integrated], failed := b.failed[run := failed - integrated],
       awaiting := set id | id in b.awaiting && id.run != run)
  }

  /** What may happen to the scheduler between two selections. */
  datatype Operation =
    | SubmitOp(item: ReadySlice)
    | IntegrateOp(run: string, slice: SliceId, generation: Option<nat>)
    | ReleaseOp(run: string, slice: SliceId, generation: Option<nat>)
    | AwaitOp(run: string, slice: SliceId, queued: nat)
    | RestoreOp(run: string, integrated: set<SliceId>, failed: set<SliceId>)

  function Performed(b: Book, op: Operation): Book {
    match op
    case SubmitOp(item) => Submitted(b, item)
    case IntegrateOp(run, slice, generation) => Integrated(b, run, slice, generation)
    case ReleaseOp(run, slice, generation) => Released(b, run, slice, generation)
    case AwaitOp(run, slice, generation) => Awaited(b, run, slice, generation)
    case RestoreOp(run, integrated, failed) => FactsRestored(b, run, integrated, failed)
  }

  function PerformedAll(b: Book, ops: seq<Operation>): Book {
    if ops == [] then b else Performed(PerformedAll(b, ops[..|ops| - 1]), ops[|ops| - 1])
  }

  lemma ReleasedIsValid(b: Book, run: string, slice: SliceId, generation: Option<nat>)
    requires BookValid(b)
    ensures BookValid(Released(b, run, slice, generation))
  {
    DroppingExcludes(b, Released(b, run, slice, generation).reserved);
  }

  lemma IntegratedIsValid(b: Book, run: string, slice: SliceId, generation: Option<nat>)
    requires BookValid(b)
    ensures BookValid(Integrated(b, run, slice, generation))
  {
    DroppingExcludes(b, Integrated(b, run, slice, generation).reserved);
    hide ScopesExcluded;
  }

  lemma AwaitedIsValid(b: Book, run: string, slice: SliceId, generation: nat)
    requires BookValid(b)
    ensures BookValid(Awaited(b, run, slice, generation))
  {
    DroppingExcludes(b, Awaited(b, run, slice, generation).reserved);
  }

  lemma FactsRestoredIsValid(b: Book, run: string, integrated: set<SliceId>, failed: set<SliceId>)
    requires BookValid(b)
    ensures BookValid(FactsRestored(b, run, integrated, failed))
  {
    DroppingExcludes(b, b.reserved);
  }

  /** Nothing but a selection moves the cursor, and Runs only join at the end of the rotation. */
  lemma OperationKeepsRotation(b: Book, op: Operation)
    requires BookValid(b)
    ensures var after := Performed(b, op);
            BookValid(after) && after.cursor == b.cursor && b.runOrder <= after.runOrder
  {
    match op
    case SubmitOp(item) =>
      SubmittedIsValid(b, item);
      hide BookValid;
    case IntegrateOp(run, slice, generation) =>
      IntegratedIsValid(b, run, slice, generation);
      hide BookValid;
    case ReleaseOp(run, slice, generation) => ReleasedIsValid(b, run, slice, generation);
    case AwaitOp(run, slice, generation) => AwaitedIsValid(b, run, slice, generation);
    case RestoreOp(run, integrated, failed) => FactsRestoredIsValid(b, run, integrated, failed);
  }

  lemma {:induction false} OperationsKeepRotation(b: Book, ops: seq<Operation>)
    requires BookValid(b)
    ensures var after := PerformedAll(b, ops);
            BookValid(after) && after.cursor == b.cursor && b.runOrder <= after.runOrder
  {
    if ops != [] {
      OperationsKeepRotation(b, ops[..|ops| - 1]);
      OperationKeepsRotation(PerformedAll(b, ops[..|ops| - 1]), ops[|ops| - 1]);
    }
  }

  lemma SubmittedIsValid(b: Book, item: ReadySlice)
    requires BookValid(b)
    ensures BookValid(Submitted(b, item))
  {
    var after := Submitted(b, item);
    var q := QueueOf(b, item.run);
    var i := SlicePosition(q, item.slice);
    assert after.reserved == b.reserved && ScopesExcluded(after);
    if !Refused(b, item) {
      var longer := if i == |q| then q + [item] else q[i := item];
      assert forall x :: x in longer ==> x == item || x in q;
      hide ScopesExcluded, ForgetOutcome, SlicePosition, Refused;
      RequeuedIsValid(b, after, item, longer);
    }
  }

  /** Replacing one run's queue by items of that run keeps the queues in order. */
  lemma RequeuedIsValid(b: Book, after: Book, item: ReadySlice, longer: seq<ReadySlice>)
    requires BookValid(b) && ScopesExcluded(after) && after.cursor == b.cursor
    requires after.queues == b.queues[item.run := longer]
    requires forall x :: x in longer ==> x == item || x in QueueOf(b, item.run)
    requires after.runOrder == if item.run in b.queues then b.runOrder else b.runOrder + [item.run]
    ensures BookValid(after)
  {
    hide ScopesExcluded;
  }

  // ----- what the bookkeeping operations come to -----

  /** Some generation of the slice is queued. */
  predicate Queues(b: Book, run: string, slice: SliceId, generation: nat) {
    exists x :: x in QueueOf(b, run) && x.slice == slice && x.generation == generation
  }

  ghost predicate QueuesOnce(b: Book, run: string) {
    OncePerSlice(QueueOf(b, run))
  }

  ghost predicate OncePerSlice(q: seq<ReadySlice>) {
    forall i, j :: 0 <= i < j < |q| ==> q[i].slice != q[j].slice
  }

  /** All that is known about one slice of a Run. */
  ghost predicate SameOutcome(b: Book, after: Book, run: string, slice: SliceId) {
    && (slice in Lookup(after.integrated, run) <==> slice in Lookup(b.integrated, run))
    && (slice in Lookup(after.failed, run) <==> slice in Lookup(b.failed, run))
    && forall g: nat :: Identity(run, slice, g) in after.awaiting <==> Identity(run, slice, g) in b.awaiting
  }

  lemma PositionFinds(q: seq<ReadySlice>, slice: SliceId)
    ensures SlicePosition(q, slice) < |q| <==> exists x :: x in q && x.slice == slice
  {
    if x :| x in q && x.slice == slice {
      var k :| 0 <= k < |q| && q[k] == x;
    }
  }

  /** Of a queue without repetition, the item of a slice is the one at its position. */
  lemma OnlyQueued(b: Book, run: string, slice: SliceId)
    requires QueuesOnce(b, run)
    ensures var q := QueueOf(b, run);
            var i := SlicePosition(q, slice);
            if i == |q| then forall x :: x in q ==> x.slice != slice
            else
              && (forall x :: x in q && x.slice == slice <==> x == q[i])
              && forall g: nat :: Queues(b, run, slice, g) <==> g == q[i].generation
  {
    var q := QueueOf(b, run);
    var i := SlicePosition(q, slice);
    forall x | x in q && x.slice == slice
      ensures i < |q| && x == q[i]
    {
      var k :| 0 <= k < |q| && q[k] == x;
    }
    if i < |q| { assert q[i] in q && Queues(b, run, slice, q[i].generation); }
  }

  /**
   Submitting: a slice with a generation in flight can only be submitted as it is;
   otherwise the queue holds the item, once, and everything else it held.
   */
  lemma SubmitQueues(b: Book, item: ReadySlice)
    requires QueuesOnce(b, item.run)
    ensures Refused(b, item)
            <==> exists x ::
                   x in QueueOf(b, item.run) && x.slice == item.slice && x != item && IdentityOf(x) in b.reserved
    ensures var after := Submitted(b, item);
            && after.reserved == b.reserved && (Refused(b, item) ==> after == b)
            && (forall run :: run != item.run ==> QueueOf(after, run) == QueueOf(b, run))
            && (!Refused(b, item) ==>
                  && QueuesOnce(after, item.run)
                  && forall x :: x in QueueOf(after, item.run)
                       <==> x == item || (x in QueueOf(b, item.run) && x.slice != item.slice))
  {
    var q := QueueOf(b, item.run);
    var i := SlicePosition(q, item.slice);
    OnlyQueued(b, item.run, item.slice);
    QueueHolds(q, i, item);
    hide SlicePosition, ForgetOutcome, Queues;
  }

  /** A new generation starts without any outcome, and nothing else loses or gains one. */
  lemma SubmitOutcomes(b: Book, item: ReadySlice)
    requires QueuesOnce(b, item.run) && !Refused(b, item)
    ensures var after := Submitted(b, item);
            && (forall run, slice :: run != item.run || slice != item.slice ==> SameOutcome(b, after, run, slice))
            && if exists g: nat :: g != item.generation && Queues(b, item.run, item.slice, g) then
                 && item.slice !in Lookup(after.integrated, item.run) && item.slice !in Lookup(after.failed, item.run)
                 && forall g: nat :: Identity(item.run, item.slice, g) !in after.awaiting
               else SameOutcome(b, after, item.run, item.slice)
  {
    OnlyQueued(b, item.run, item.slice);
    var q := QueueOf(b, item.run);
    var i := SlicePosition(q, item.slice);
    assert i < |q| ==> Queues(b, item.run, item.slice, q[i].generation);
    hide SlicePosition, OncePerSlice, Refused;
  }

  lemma QueueHolds(q: seq<ReadySlice>, i: nat, item: ReadySlice)
    requires OncePerSlice(q) && i == SlicePosition(q, item.slice)
    ensures var after := if i == |q| then q + [item] else q[i := item];
            && OncePerSlice(after)
            && forall x :: x in after <==> x == item || (x in q && x.slice != item.slice)
  {
    var after := if i == |q| then q + [item] else q[i := item];
    assert after[i] == item;
    forall x | x in q && x.slice != item.slice
      ensures x in after
    {
      var k :| 0 <= k < |q| && q[k] == x;
      assert after[k] == x;
    }
    forall x | x in after && x != item
      ensures x in q && x.slice != item.slice
    {
      var k :| 0 <= k < |after| && after[k] == x;
      assert k != i && q[k] == x;
    }
  }

  /** Integrating: exactly the queued generation counts, for its dependents and against any earlier outcome. */
  lemma IntegrateMeans(b: Book, run: string, slice: SliceId, generation: Option<nat>)
    requires QueuesOnce(b, run)
    ensures var after := Integrated(b, run, slice, generation);
            && after.queues == b.queues
            && (forall r, s :: r != run || s != slice ==> SameOutcome(b, after, r, s))
            && (if generation.None? || Queues(b, run, slice, generation.value) then
                  && slice in Lookup(after.integrated, run) && slice !in Lookup(after.failed, run)
                  && forall g: nat :: Identity(run, slice, g) !in after.awaiting
                else SameOutcome(b, after, run, slice))
            && forall id :: id in after.reserved <==> id in b.reserved && !Names(b, run, slice, generation, id)
  {
    OnlyQueued(b, run, slice);
    hide SlicePosition, OncePerSlice;
  }

  /** The generation an operation names, or without a name the queued one. */
  predicate Names(b: Book, run: string, slice: SliceId, generation: Option<nat>, id: Identity) {
    && id.run == run && id.slice == slice
    && if generation.Some? then id.generation == generation.value else Queues(b, run, slice, id.generation)
  }

  /** Waiting: exactly the named candidate waits, and gives up its reservation. */
  lemma AwaitMeans(b: Book, run: string, slice: SliceId, generation: nat)
    ensures var after := Awaited(b, run, slice, generation);
            && after == b.(reserved := after.reserved, awaiting := after.awaiting)
            && forall id: Identity ::
                 var named := id.run == run && id.slice == slice && id.generation == generation;
                 && (id in after.awaiting <==> id in b.awaiting || named)
                 && (id in after.reserved <==> id in b.reserved && !named)
                 && (id in after.reserved ==> after.reserved[id] == b.reserved[id])
  {
  }

  /** Restoring: the outcomes of the Run are the committed ones, none of it waits, and other Runs stay as they are. */
  lemma RestoreMeans(b: Book, run: string, integrated: set<SliceId>, failed: set<SliceId>)
    ensures var after := FactsRestored(b, run, integrated, failed);
            && after.queues == b.queues && after.reserved == b.reserved
            && (forall s ::
                  && (s in Lookup(after.integrated, run) <==> s in integrated)
                  && (s in Lookup(after.failed, run) <==> s in failed && s !in integrated))
            && (forall r, s :: r != run ==> SameOutcome(b, after, r, s))
            && forall id: Identity :: id in after.awaiting <==> id in b.awaiting && id.run != run
  {
  }

  /** Releasing: exactly the named reservation ends, and nothing else changes. */
  lemma ReleaseMeans(b: Book, run: string, slice: SliceId, generation: Option<nat>)
    requires QueuesOnce(b, run)
    ensures var after := Released(b, run, slice, generation);
            && after == b.(reserved := after.reserved)
            && forall id :: id in after.reserved <==> id in b.reserved && !Names(b, run, slice, generation, id)
  {
    OnlyQueued(b, run, slice);
    hide SlicePosition, OncePerSlice;
  }

  class FairScheduler {
    var queues: map<string, seq<ReadySlice>>
    var integrated: map<string, set<SliceId>>
    var failed: map<string, set<SliceId>>
    var awaiting: set<Identity>
    var reserved: map<Identity, set<string>>
    var runOrder: seq<string>
    var cursor: nat

    ghost function State(): Book
      reads this
    {
      Book(queues, integrated, failed, awaiting, reserved, runOrder, cursor)
    }

    ghost predicate Valid()
      reads this
    {
      BookValid(State())
    }

    constructor ()
      ensures Valid() && State() == Book(map[], map[], map[], {}, map[], [], 0)
    {
      queues, integrated, failed, awaiting, reserved, runOrder, cursor := map[], map[], map[], {}, map[], [], 0;
    }

    /**
     Queue a slice, or replace its queued generation.  A slice in flight may
     only be resubmitted unchanged.
     */
    method Submit(item: ReadySlice) returns (ok: bool)
      requires Valid()
      modifies this
      ensures Valid()
      ensures ok <==> !Refused(old(State()), item)
      ensures State() == Submitted(old(State()), item)
    {
      ghost var b := State();
      SubmittedIsValid(b, item);
      var known := item.run in queues;
      var queue := if known then queues[item.run] else [];
      var i := SlicePosition(queue, item.slice);
      if i == |queue| {
        queues := queues[item.run := queue + [item]];
        if !known { runOrder := runOrder + [item.run]; }
        assert State() == Submitted(b, item);
        return true;
      }
      var existing := queue[i];
      if existing != item && IdentityOf(existing) in reserved {
        assert State() == Submitted(b, item);
        return false;
      }
      if existing.generation != item.generation {
        integrated := integrated[item.run := Lookup(integrated, item.run) - {item.slice}];
        failed := failed[item.run := Lookup(failed, item.run) - {item.slice}];
        awaiting := set id | id in awaiting && !(id.run == item.run && id.slice == item.slice);
      }
      queues := queues[item.run := queue[i := item]];
      assert State() == Submitted(b, item);
      return true;
    }

    /**
     Record a formal integration.  Only the queued generation makes dependents
     eligible; the reservation of the named generation ends in any case.
     */
    method MarkIntegrated(run: string, slice: SliceId, generation: Option<nat>)
      requires Valid()
      modifies this
      ensures Valid()
      ensures State() == Integrated(old(State()), run, slice, generation)
    {
      IntegratedIsValid(State(), run, slice, generation);
      hide BookValid;
      var queue := if run in queues then queues[run] else [];
      var i := SlicePosition(queue, slice);
      var current := if i < |queue| then Some(queue[i].generation) else None;
      var selected := if generation.None? then current else generation;
      if generation.None? || generation == current {
        integrated := integrated[run := Lookup(integrated, run) + {slice}];
        failed := failed[run := Lookup(failed, run) - {slice}];
        awaiting := set id | id in awaiting && !(id.run == run && id.slice == slice);
      }
      if selected.Some? {
        reserved := reserved - {Identity(run, slice, selected.value)};
      }
    }

    /** Drop the reservation of a generation, the queued one unless another is named, without an outcome. */
    method Release(run: string, slice: SliceId, generation: Option<nat>)
      requires Valid()
      modifies this
      ensures Valid() && State() == Released(old(State()), run, slice, generation)
    {
      ReleasedIsValid(State(), run, slice, generation);
      var queue := if run in queues then queues[run] else [];
      var i := SlicePosition(queue, slice);
      var selected := if generation.Some? then generation else if i < |queue| then Some(queue[i].generation) else None;
      if selected.Some? {
        reserved := reserved - {Identity(run, slice, selected.value)};
      }
    }

    /** Park a slice until its candidate is integrated; it is neither redispatched nor a met dependency. */
    method AwaitIntegration(run: string, slice: SliceId, generation: nat)
      requires Valid()
      modifies this
      ensures Valid() && State() == Awaited(old(State()), run, slice, generation)
    {
      DroppingExcludes(State(), reserved - {Identity(run, slice, generation)});
      awaiting := awaiting + {Identity(run, slice, generation)};
      reserved := reserved - {Identity(run, slice, generation)};
    }

    /** Readiness is rebuilt from committed facts alone; an integrated slice is never a failed one. */
    method RestoreCommittedFacts(run: string, integratedSlices: set<SliceId>, failedSlices: set<SliceId>)
      requires Valid()
      modifies this
      ensures Valid() && State() == FactsRestored(old(State()), run, integratedSlices, failedSlices)
      ensures Lookup(integrated, run) !! Lookup(failed, run)
    {
      integrated := integrated[run := integratedSlices];
      failed := failed[run := failedSlices - integratedSlices];
      awaiting := set id | id in awaiting && id.run != run;
    }

    /**
     Select the first eligible item of the first Run, in rotation from the
     cursor, that has one; reserve it and move the cursor behind that Run.
     */
    method Next(activeScopes: set<string>, pools: set<Pool>, only: Option<string>) returns (result: Selection)
      requires Valid()
      modifies this
      ensures Valid() && Selects(old(State()), activeScopes, pools, only, result, State())
      ensures result.Selected? ==>
                var item, b := result.item, old(State());
                && !SharePath(item.scope, activeScopes)
                && forall id :: id in b.reserved && id.run == item.run ==> !SharePath(item.scope, b.reserved[id])
    {
      hide Eligible, ScopesExcluded, IdentityOf;
      ghost var b := State();
      var n := |runOrder|;
      for offset := 0 to n
        invariant State() == b
        invariant forall k :: 0 <= k < offset ==> Permitted(only, RunAt(b, k)) ==>
                    RunAt(b, k) in b.queues && Idle(b, RunAt(b, k), activeScopes, pools)
      {
        var index := (cursor + offset) % n;
        var run := runOrder[index];
        if only.None? || only.value == run {
          var i := Search(queues[run], activeScopes, pools);
          if i < |queues[run]| {
            var item := queues[run][i];
            SelectsFirst(b, offset, i, activeScopes, pools, only);
            EligibleKeepsOut(b, item, activeScopes, pools);
            reserved := reserved[IdentityOf(item) := item.scope];
            cursor := (index + 1) % n;
            return Selected(item);
          }
        }
      }
      NothingToSelect(b, activeScopes, pools, only);
      return Nothing;
    }

    /** The position of the first item that may be dispatched, or the length of the queue. */
    method Search(queue: seq<ReadySlice>, activeScopes: set<string>, pools: set<Pool>) returns (i: nat)
      ensures i <= |queue|
      ensures i < |queue| ==> FirstEligible(State(), queue, i, activeScopes, pools)
      ensures i == |queue| ==> forall item :: item in queue ==> !Eligible(State(), item, activeScopes, pools)
    {
      hide Eligible, SharePath, Overlap, Ready;
      i := 0;
      while i < |queue|
        invariant i <= |queue|
        invariant forall j :: 0 <= j < i ==> !Eligible(State(), queue[j], activeScopes, pools)
      {
        var b := Book(queues, integrated, failed, awaiting, reserved, runOrder, cursor);
        var under := activeScopes + ReservedScopes(b, queue[i].run);
        OverlapIsSharedPath(queue[i].scope, under);
        MayGo(b, queue[i], activeScopes, pools);
        if Ready(b, queue[i], pools) && !Overlap(queue[i].scope, under) {
          return;
        }
        i := i + 1;
      }
    }
  }

  /** Offset `k` is the first in rotation whose Run is permitted and has an eligible item. */
  ghost predicate FirstIn(
    b: Book, k: nat, run: string, activeScopes: set<string>, pools: set<Pool>, only: Option<string>)
  {
    && b.runOrder != [] && k < |b.runOrder| && run == RunAt(b, k)
    && forall j :: 0 <= j < k ==>
         Permitted(only, RunAt(b, j)) ==> RunAt(b, j) in b.queues && Idle(b, RunAt(b, j), activeScopes, pools)
  }

  /** Position `i` holds the first item of a queue that may be dispatched. */
  ghost predicate FirstEligible(b: Book, queue: seq<ReadySlice>, i: nat, activeScopes: set<string>, pools: set<Pool>) {
    && i < |queue| && Eligible(b, queue[i], activeScopes, pools)
    && forall j :: 0 <= j < i ==> !Eligible(b, queue[j], activeScopes, pools)
  }

  /** The item at position `i` of the Run at offset `k` is chosen and reserved, and the cursor moves behind that Run. */
  ghost predicate Chosen(
    b: Book, k: nat, i: nat, activeScopes: set<string>, pools: set<Pool>, only: Option<string>,
    item: ReadySlice, after: Book)
  {
    && FirstIn(b, k, item.run, activeScopes, pools, only) && Permitted(only, item.run) && item.run in b.queues
    && FirstEligible(b, b.queues[item.run], i, activeScopes, pools) && b.queues[item.run][i] == item
    && after == b.(reserved := b.reserved[IdentityOf(item) := item.scope],
                   cursor := (RunIndex(b, k) + 1) % |b.runOrder|)
  }

  /**
   One selection: the first eligible item of the first permitted Run that has
   one, or nothing, if no permitted Run has any, and then nothing changes.
   */
  ghost predicate Selects(
    b: Book, activeScopes: set<string>, pools: set<Pool>, only: Option<string>, result: Selection, after: Book)
  {
    match result
    case Nothing =>
      after == b && forall run :: run in b.queues && Permitted(only, run) ==> Idle(b, run, activeScopes, pools)
    case Selected(item) => exists k, i :: Chosen(b, k, i, activeScopes, pools, only, item, after)
  }

  lemma MayGo(b: Book, item: ReadySlice, activeScopes: set<string>, pools: set<Pool>)
    ensures Eligible(b, item, activeScopes, pools)
            <==> Ready(b, item, pools) && !SharePath(item.scope, activeScopes + ReservedScopes(b, item.run))
  {
  }

  /** An eligible item shares no path with the active scopes, nor with any reservation of its Run. */
  lemma EligibleKeepsOut(b: Book, item: ReadySlice, activeScopes: set<string>, pools: set<Pool>)
    requires Eligible(b, item, activeScopes, pools)
    ensures !SharePath(item.scope, activeScopes)
    ensures forall id :: id in b.reserved && id.run == item.run ==> !SharePath(item.scope, b.reserved[id])
  {
    var under := activeScopes + ReservedScopes(b, item.run);
    SharesLess(item.scope, activeScopes, under);
    forall id | id in b.reserved && id.run == item.run
      ensures !SharePath(item.scope, b.reserved[id])
    {
      assert forall e :: e in b.reserved[id] ==> e in ReservedScopes(b, item.run);
      SharesLess(item.scope, b.reserved[id], under);
    }
  }

  lemma SelectsFirst(b: Book, k: nat, i: nat, activeScopes: set<string>, pools: set<Pool>, only: Option<string>)
    requires BookValid(b) && b.runOrder != [] && k < |b.runOrder| && RunAt(b, k) in b.queues
    requires Permitted(only, RunAt(b, k)) && FirstEligible(b, b.queues[RunAt(b, k)], i, activeScopes, pools)
    requires forall j :: 0 <= j < k ==> Permitted(only, RunAt(b, j)) ==>
               RunAt(b, j) in b.queues && Idle(b, RunAt(b, j), activeScopes, pools)
    ensures var item := b.queues[RunAt(b, k)][i];
            var after := b.(reserved := b.reserved[IdentityOf(item) := item.scope],
                            cursor := (RunIndex(b, k) + 1) % |b.runOrder|);
            BookValid(after) && Selects(b, activeScopes, pools, only, Selected(item), after)
  {
    var item := b.queues[RunAt(b, k)][i];
    assert item in b.queues[RunAt(b, k)];
    ReservationExcludes(b, item, activeScopes, pools);
    hide Eligible, ScopesExcluded;
    var after := b.(reserved := b.reserved[IdentityOf(item) := item.scope],
                    cursor := (RunIndex(b, k) + 1) % |b.runOrder|);
    assert Chosen(b, k, i, activeScopes, pools, only, item, after);
  }

  lemma NothingToSelect(b: Book, activeScopes: set<string>, pools: set<Pool>, only: Option<string>)
    requires BookValid(b)
    requires forall k :: 0 <= k < |b.runOrder| ==> Permitted(only, RunAt(b, k)) ==>
               RunAt(b, k) in b.queues && Idle(b, RunAt(b, k), activeScopes, pools)
    ensures Selects(b, activeScopes, pools, only, Nothing, b)
  {
    forall run | run in b.queues && Permitted(only, run)
      ensures Idle(b, run, activeScopes, pools)
    {
      var k := OffsetOf(b, run);
    }
  }

  lemma SelectsKeeps(
    b: Book, activeScopes: set<string>, pools: set<Pool>, only: Option<string>, result: Selection, after: Book)
    requires BookValid(b) && Selects(b, activeScopes, pools, only, result, after)
    ensures BookValid(after) && after.runOrder == b.runOrder
    ensures result.Selected? ==> Eligible(b, result.item, activeScopes, pools) && Permitted(only, result.item.run)
    ensures result.Selected? ==> result.item.run in b.queues && result.item in b.queues[result.item.run]
    ensures result.Selected? ==> IdentityOf(result.item) !in b.reserved
    ensures result.Selected? ==> after == b.(reserved := after.reserved, cursor := after.cursor)
    ensures result.Selected? ==> after.reserved == b.reserved[IdentityOf(result.item) := result.item.scope]
  {
    if result.Selected? {
      ReservationExcludes(b, result.item, activeScopes, pools);
    }
  }

  lemma OffsetOf(b: Book, run: string) returns (k: nat)
    requires BookValid(b) && run in b.queues
    ensures b.runOrder != [] && k < |b.runOrder| && RunAt(b, k) == run
  {
    var n := |b.runOrder|;
    var i :| 0 <= i < n && b.runOrder[i] == run;
    k := if i >= b.cursor then i - b.cursor else i + n - b.cursor;
    WrapAround(b.cursor + k, n);
  }

  lemma WrapAround(a: nat, n: nat)
    requires 0 < n && a < 2 * n
    ensures a % n == if a < n then a else a - n
  {
    if a >= n {
      assert a == n * 1 + (a - n);
      assert a / n == 1;
    }
  }

  // ----- no Run starves -----

  /** How many places in rotation lie between the cursor and a Run. */
  function Distance(cursor: nat, index: nat, n: nat): nat
    requires cursor < n && index < n
  {
    if cursor <= index then index - cursor else index + n - cursor
  }

  /** Serving the first eligible Run other than `index` brings `index` closer. */
  lemma ServingOthersApproaches(cursor: nat, index: nat, chosen: nat, n: nat)
    requires cursor < n && index < n && chosen < n
    requires Distance(cursor, chosen, n) < Distance(cursor, index, n)
    ensures Distance((chosen + 1) % n, index, n) < Distance(cursor, index, n)
  {
    WrapAround(chosen + 1, n);
  }

  /** The Run that is first in rotation lies no further from the cursor than any other with an eligible item. */
  lemma FirstIsNearest(b: Book, k: nat, run: string, activeScopes: set<string>, pools: set<Pool>, waiting: nat)
    requires BookValid(b) && FirstIn(b, k, run, activeScopes, pools, None)
    requires waiting < |b.runOrder| && b.runOrder[waiting] in b.queues
    requires !Idle(b, b.runOrder[waiting], activeScopes, pools)
    ensures var chosen := RunIndex(b, k);
            b.runOrder[chosen] == run
            && Distance(b.cursor, chosen, |b.runOrder|) <= Distance(b.cursor, waiting, |b.runOrder|)
  {
    var n := |b.runOrder|;
    var d := Distance(b.cursor, waiting, n);
    WrapAround(b.cursor + k, n);
    WrapAround(b.cursor + d, n);
    assert RunAt(b, d) == b.runOrder[waiting];
  }

  /** One unrestricted selection, after some other operations. */
  datatype Turn = Turn(ops: seq<Operation>, activeScopes: set<string>, pools: set<Pool>, result: Selection, after: Book)

  /** The scheduler as a turn's selection finds it. */
  function Found(start: Book, turns: seq<Turn>, t: nat): Book
    requires t < |turns|
  {
    PerformedAll(if t == 0 then start else turns[t - 1].after, turns[t].ops)
  }

  ghost predicate TurnSelects(start: Book, turns: seq<Turn>, t: nat)
    requires t < |turns|
  {
    Selects(Found(start, turns, t), turns[t].activeScopes, turns[t].pools, None, turns[t].result, turns[t].after)
  }

  ghost predicate Waits(start: Book, turns: seq<Turn>, t: nat, run: string)
    requires t < |turns|
  {
    var b := Found(start, turns, t);
    run in b.queues && !Idle(b, run, turns[t].activeScopes, turns[t].pools)
  }

  ghost predicate Serves(t: Turn, run: string) {
    t.result.Selected? && t.result.item.run == run
  }

  /** The book after the whole history. */
  function Last(start: Book, turns: seq<Turn>): Book {
    if turns == [] then start else turns[|turns| - 1].after
  }

  /** A selection that does not serve a waiting Run brings the cursor closer to it. */
  lemma PassedOver(b: Book, t: Turn, waiting: nat)
    requires BookValid(b) && Selects(b, t.activeScopes, t.pools, None, t.result, t.after)
    requires waiting < |b.runOrder| && b.runOrder[waiting] in b.queues
    requires !Idle(b, b.runOrder[waiting], t.activeScopes, t.pools) && !Serves(t, b.runOrder[waiting])
    ensures BookValid(t.after) && t.after.runOrder == b.runOrder
    ensures Distance(t.after.cursor, waiting, |b.runOrder|) < Distance(b.cursor, waiting, |b.runOrder|)
  {
    SelectsKeeps(b, t.activeScopes, t.pools, None, t.result, t.after);
    assert Permitted(None, b.runOrder[waiting]);
    var k, i :| Chosen(b, k, i, t.activeScopes, t.pools, None, t.result.item, t.after);
    FirstIsNearest(b, k, t.result.item.run, t.activeScopes, t.pools, waiting);
    ServingOthersApproaches(b.cursor, waiting, RunIndex(b, k), |b.runOrder|);
  }

  lemma LaterTurn(start: Book, turns: seq<Turn>, t: nat, run: string)
    requires t + 1 < |turns|
    ensures TurnSelects(turns[0].after, turns[1..], t) == TurnSelects(start, turns, t + 1)
    ensures Waits(turns[0].after, turns[1..], t, run) == Waits(start, turns, t + 1, run)
  {
    assert Found(turns[0].after, turns[1..], t) == Found(start, turns, t + 1);
  }

  lemma {:induction false} ServedInTime(start: Book, turns: seq<Turn>, run: string, waiting: nat)
    requires BookValid(start) && turns != []
    requires forall t :: 0 <= t < |turns| ==> TurnSelects(start, turns, t) && Waits(start, turns, t, run)
    requires waiting < |Found(start, turns, 0).runOrder| && Found(start, turns, 0).runOrder[waiting] == run
    requires BookValid(Found(start, turns, 0))
    requires |turns| > Distance(Found(start, turns, 0).cursor, waiting, |Found(start, turns, 0).runOrder|)
                       + |Last(start, turns).runOrder| - |Found(start, turns, 0).runOrder|
    ensures exists t :: 0 <= t < |turns| && Serves(turns[t], run)
    decreases |turns|
  {
    var b, first := Found(start, turns, 0), turns[0];
    assert TurnSelects(start, turns, 0) && Waits(start, turns, 0, run);
    SelectsKeeps(b, first.activeScopes, first.pools, None, first.result, first.after);
    if !Serves(first, run) {
      PassedOver(b, first, waiting);
      var rest := turns[1..];
      if rest == [] {
        assert false;
      } else {
        OperationsKeepRotation(first.after, rest[0].ops);
        assert Found(first.after, rest, 0) == PerformedAll(first.after, rest[0].ops);
        assert Last(first.after, rest) == Last(start, turns);
        hide TurnSelects, Waits, BookValid;
        forall t | 0 <= t < |rest|
          ensures TurnSelects(first.after, rest, t) && Waits(first.after, rest, t, run)
        {
          LaterTurn(start, turns, t, run);
          assert TurnSelects(start, turns, t + 1) && Waits(start, turns, t + 1, run);
        }
        ServedInTime(first.after, rest, run, waiting);
        var t :| 0 <= t < |rest| && Serves(rest[t], run);
        assert Serves(turns[t + 1], run);
      }
    }
  }

  /**
   No Run starves: over any history of unrestricted selections, with any other
   operations between them, a Run that has an eligible item at every selection
   is served within as many selections as there are Runs in the end.
   */
  lemma NoRunStarves(start: Book, turns: seq<Turn>, run: string)
    requires BookValid(start) && turns != []
    requires forall t :: 0 <= t < |turns| ==> TurnSelects(start, turns, t) && Waits(start, turns, t, run)
    requires |turns| >= |Last(start, turns).runOrder|
    ensures exists t :: 0 <= t < |turns| && Serves(turns[t], run)
  {
    var b := Found(start, turns, 0);
    OperationsKeepRotation(start, turns[0].ops);
    assert Waits(start, turns, 0, run);
    var waiting :| 0 <= waiting < |b.runOrder| && b.runOrder[waiting] == run;
    ServedInTime(start, turns, run, waiting);
  }
}
