/**
 The verified-ref protocol: a durable intent, a compare-and-swap of the Git ref,
 a durable receipt.  Any number of drivers run it at once and may crash between
 any two steps (`runtime/integration_driver.py`, `runtime/actor.py`,
 `runtime/store.py`).
 */
module IntegrationProtocol {
  import opened Options

  type Oid = nat
  type Key = string
  type DriverId = nat

  datatype Candidate = Candidate(slice: string, generation: nat)

  datatype Intent = Intent(key: Key, candidate: Candidate, expected: Oid, prospective: Oid)

  /** Parents of every commit; content addressing fixes them for ever. */
  type History = map<Oid, seq<Oid>>

  const ZERO: Oid := 0

  /**
   What outlives a crash.  `moves` is the history of the verified ref, its last
   entry the present value; receipts stand in commit order.
   */
  datatype World = World(
    moves: seq<Oid>, intents: map<Key, Intent>, receipts: seq<Intent>,
    candidates: set<Candidate>, executing: bool)

  function Ref(w: World): Oid
    requires w.moves != []
  {
    w.moves[|w.moves| - 1]
  }

  function ReceiptFor(w: World, key: Key): (r: Option<Intent>)
    ensures r.Some? ==> r.value in w.receipts && r.value.key == key
    ensures r.None? ==> forall i :: i in w.receipts ==> i.key != key
  {
    FindReceipt(w.receipts, key)
  }

  function FindReceipt(receipts: seq<Intent>, key: Key): (r: Option<Intent>)
    ensures r.Some? ==> r.value in receipts && r.value.key == key
    ensures r.None? ==> forall i :: i in receipts ==> i.key != key
  {
    if receipts == [] then None
    else if receipts[0].key == key then Some(receipts[0])
    else FindReceipt(receipts[1..], key)
  }

  predicate IsPending(w: World, key: Key) {
    key in w.intents && ReceiptFor(w, key).None?
  }

  predicate HeadMatches(w: World, i: Intent) {
    w.receipts == [] || w.receipts[|w.receipts| - 1].prospective == i.expected
  }

  predicate WellFormed(i: Intent) {
    i.expected != i.prospective && i.prospective != ZERO
  }

  datatype Write = Written(world: World) | Refused

  /** `persist_integration_intent`, the actor's guards and then the store's. */
  function PersistIntent(w: World, i: Intent): Write {
    if !w.executing || i.candidate !in w.candidates then Refused
    else if !WellFormed(i) then Refused
    else if i.key in w.intents then (if w.intents[i.key] == i then Written(w) else Refused)
    else if exists k :: k in w.intents && IsPending(w, k) then Refused
    else if !HeadMatches(w, i) then Refused
    else Written(w.(intents := w.intents[i.key := i]))
  }

  /** `complete_integration`: replay a known receipt or commit a new one. */
  function CompleteReceipt(w: World, i: Intent): Write {
    var known := ReceiptFor(w, i.key);
    if known.Some? then
      if i.key in w.intents && w.intents[i.key] == i && known.value.prospective == i.prospective then Written(w)
      else Refused
    else if !w.executing || i.candidate !in w.candidates then Refused
    else if i.key !in w.intents || w.intents[i.key] != i then Refused
    else if !HeadMatches(w, i) then Refused
    else Written(w.(receipts := w.receipts + [i]))
  }

  /** `git update-ref new expected`: atomic, silent when the ref is elsewhere. */
  function SwapRef(w: World, next: Oid, expected: Oid): World
    requires w.moves != []
  {
    if Ref(w) == expected then w.(moves := w.moves + [next]) else w
  }

  datatype Action = RetryGit | CompleteIt | Contradicts

  /** `classify_integration_recovery` for an intent without a receipt. */
  function Classify(i: Intent, observed: Oid): Action {
    if observed == i.prospective then CompleteIt
    else if observed == i.expected then RetryGit
    else Contradicts
  }

  predicate ExtendsExpected(h: History, i: Intent) {
    i.prospective in h && h[i.prospective] == [i.expected]
  }

  // ----- one driver as a program counter -----

  datatype Outcome = Completed | Inconsistent | Conflicted | Rejected

  datatype Pc =
    | Persisting
    | Loading
    | Checking
    | Resolving(attempt: nat)
    | Swapping(attempt: nat)
    | Rereading(attempt: nat)
    | Completing
    | Finished(outcome: Outcome)

  datatype Driver = Driver(intent: Intent, pc: Pc)

  function AfterReading(i: Intent, observed: Oid, retry: Pc): Pc {
    match Classify(i, observed)
    case CompleteIt => Completing
    case Contradicts => Finished(Inconsistent)
    case RetryGit => retry
  }

  function DriverStep(h: History, w: World, d: Driver): (World, Pc)
    requires w.moves != []
  {
    var i := d.intent;
    match d.pc
    case Persisting =>
      (match PersistIntent(w, i)
       case Written(after) => (after, Loading)
       case Refused => (w, Finished(Rejected)))
    case Loading =>
      (match ReceiptFor(w, i.key)
       case Some(receipt) => (w, if receipt == i then Completing else Finished(Inconsistent))
       case None => (w, Checking))
    case Checking => (w, if ExtendsExpected(h, i) then Resolving(0) else Finished(Inconsistent))
    case Resolving(attempt) => (w, AfterReading(i, Ref(w), Swapping(attempt)))
    case Swapping(attempt) => (SwapRef(w, i.prospective, i.expected), Rereading(attempt))
    case Rereading(attempt) =>
      (w, AfterReading(i, Ref(w), if attempt >= 1 then Finished(Conflicted) else Resolving(attempt + 1)))
    case Completing =>
      (match CompleteReceipt(w, i)
       case Written(after) => (after, Finished(Completed))
       case Refused => (w, Finished(Rejected)))
    case Finished(_) => (w, d.pc)
  }

  // ----- the system of all drivers -----

  datatype System = System(world: World, drivers: map<DriverId, Driver>)

  datatype Move =
    | Spawn(id: DriverId, intent: Intent)
    | Step(id: DriverId)
    | Crash(id: DriverId)
    | AcceptCandidate(candidate: Candidate)
    | SetExecuting(executing: bool)

  function Apply(h: History, s: System, m: Move): System
    requires s.world.moves != []
    ensures Apply(h, s, m).world.moves != []
  {
    match m
    case Spawn(id, i) => if id in s.drivers then s else s.(drivers := s.drivers[id := Driver(i, Persisting)])
    case Step(id) =>
      if id !in s.drivers then s
      else
        var (w, pc) := DriverStep(h, s.world, s.drivers[id]);
        System(w, s.drivers[id := Driver(s.drivers[id].intent, pc)])
    case Crash(id) => s.(drivers := s.drivers - {id})
    case AcceptCandidate(c) => s.(world := s.world.(candidates := s.world.candidates + {c}))
    case SetExecuting(b) => s.(world := s.world.(executing := b))
  }

  function ApplyAll(h: History, s: System, ms: seq<Move>): System
    requires s.world.moves != []
    ensures ApplyAll(h, s, ms).world.moves != []
    decreases |ms|
  {
    if ms == [] then s else ApplyAll(h, Apply(h, s, ms[0]), ms[1..])
  }

  lemma {:induction false} ApplyAllConcat(h: History, s: System, a: seq<Move>, b: seq<Move>)
    requires s.world.moves != []
    ensures ApplyAll(h, s, a + b) == ApplyAll(h, ApplyAll(h, s, a), b)
    decreases |a|
  {
    if a == [] {
      assert a + b == b;
    } else {
      assert (a + b)[1..] == a[1..] + b;
      ApplyAllConcat(h, Apply(h, s, a[0]), a[1..], b);
    }
  }

  function Start(base: Oid): System {
    System(World([base], map[], [], {}, true), map[])
  }

  // ----- the invariant -----

  /** Depths certify that commit ancestry has no cycle. */
  ghost predicate IsDepth(h: History, depth: map<Oid, nat>) {
    forall c, p :: c in h && h[c] == [p] ==> c in depth && p in depth && depth[c] == depth[p] + 1
  }

  function Heads(receipts: seq<Intent>): (r: seq<Oid>)
    ensures |r| == |receipts| && forall k :: 0 <= k < |r| ==> r[k] == receipts[k].prospective
  {
    if receipts == [] then [] else Heads(receipts[..|receipts| - 1]) + [receipts[|receipts| - 1].prospective]
  }

  ghost predicate Stored(w: World, i: Intent) {
    i.key in w.intents && w.intents[i.key] == i
  }

  /** Receipts form one chain of stored intents, each extending the previous verified head. */
  ghost predicate ReceiptChain(h: History, w: World) {
    && (forall k :: 0 <= k < |w.receipts| ==> Stored(w, w.receipts[k]) && ExtendsExpected(h, w.receipts[k]))
    && (forall a, b :: 0 <= a < b < |w.receipts| ==> w.receipts[a].key != w.receipts[b].key)
    && (forall a, b :: 0 <= a && b == a + 1 && b < |w.receipts| ==> w.receipts[b].expected == w.receipts[a].prospective)
  }

  /** At most one intent awaits its receipt, and it continues the chain. */
  ghost predicate OnePending(w: World) {
    && (forall k :: k in w.intents ==> w.intents[k].key == k && WellFormed(w.intents[k]))
    && (forall a, b :: IsPending(w, a) && IsPending(w, b) ==> a == b)
    && (forall k :: IsPending(w, k) ==> HeadMatches(w, w.intents[k]))
  }

  /**
   The ref went through the baseline and the receipt heads, in order, and
   possibly one step further.  The first receipt extends the baseline, unless
   its own head is the baseline and the ref never had to move for it.
   */
  ghost predicate Trail(base: Oid, w: World, lead: bool, ahead: seq<Oid>) {
    && w.moves == (if lead then [base] else []) + Heads(w.receipts) + ahead
    && (lead && w.receipts != [] ==> w.receipts[0].expected == base)
    && (!lead ==> w.receipts != [] && w.receipts[0].prospective == base)
  }

  /** The step beyond the receipts, if any, is the pending intent's. */
  ghost predicate Ahead(h: History, base: Oid, w: World, ahead: seq<Oid>) {
    ahead == [] ||
    exists k :: && IsPending(w, k) && ExtendsExpected(h, w.intents[k]) && ahead == [w.intents[k].prospective]
                && (w.receipts == [] ==> w.intents[k].expected == base)
  }

  ghost predicate WorldInv(h: History, base: Oid, w: World) {
    && w.moves != []
    && ReceiptChain(h, w) && OnePending(w)
    && exists lead, ahead :: Trail(base, w, lead, ahead) && Ahead(h, base, w, ahead)
  }

  ghost predicate DriverInv(h: History, w: World, d: Driver)
    requires w.moves != []
  {
    match d.pc
    case Persisting => true
    case Loading => Stored(w, d.intent)
    case Checking => Stored(w, d.intent)
    case Resolving(_) => Stored(w, d.intent) && ExtendsExpected(h, d.intent)
    case Swapping(_) => Stored(w, d.intent) && ExtendsExpected(h, d.intent)
    case Rereading(_) => Stored(w, d.intent) && ExtendsExpected(h, d.intent)
    case Completing =>
      && Stored(w, d.intent)
      && (d.intent in w.receipts || (ExtendsExpected(h, d.intent) && Ref(w) == d.intent.prospective))
    case Finished(outcome) => outcome == Completed ==> d.intent in w.receipts
  }

  ghost predicate Inv(h: History, base: Oid, s: System) {
    WorldInv(h, base, s.world) && forall id :: id in s.drivers ==> DriverInv(h, s.world, s.drivers[id])
  }

  // ----- the ref only climbs -----

  /** Every move of the ref goes from a commit to a child of it. */
  ghost predicate Climbs(h: History, moves: seq<Oid>) {
    forall a, b :: 0 <= a && b == a + 1 && b < |moves| ==> moves[b] in h && h[moves[b]] == [moves[a]]
  }

  lemma MovesClimb(h: History, base: Oid, w: World)
    requires WorldInv(h, base, w)
    ensures Climbs(h, w.moves)
  {
    hide Stored;
    var lead, ahead :| Trail(base, w, lead, ahead) && Ahead(h, base, w, ahead);
    var n := if lead then 1 else 0;
    forall a, b | 0 <= a && b == a + 1 && b < |w.moves|
      ensures w.moves[b] in h && h[w.moves[b]] == [w.moves[a]]
    {
      if b < n + |w.receipts| {
        assert ExtendsExpected(h, w.receipts[b - n]);
      }
    }
  }

  lemma DepthStep(h: History, depth: map<Oid, nat>, c: Oid, p: Oid)
    requires IsDepth(h, depth) && c in h && h[c] == [p]
    ensures c in depth && p in depth && depth[c] == depth[p] + 1
  {
  }

  lemma {:induction false} DepthClimbs(h: History, depth: map<Oid, nat>, moves: seq<Oid>, a: nat, b: nat)
    requires IsDepth(h, depth) && Climbs(h, moves) && a < b < |moves|
    ensures moves[a] in depth && moves[b] in depth && depth[moves[a]] < depth[moves[b]]
    decreases b - a
  {
    DepthStep(h, depth, moves[a + 1], moves[a]);
    if a + 1 < b {
      DepthClimbs(h, depth, moves, a + 1, b);
    }
  }

  /** The verified ref never returns to a commit it left. */
  lemma NoReturn(h: History, depth: map<Oid, nat>, base: Oid, w: World)
    requires IsDepth(h, depth) && WorldInv(h, base, w)
    ensures forall a, b :: 0 <= a < b < |w.moves| ==> w.moves[a] != w.moves[b]
  {
    MovesClimb(h, base, w);
    forall a, b | 0 <= a < b < |w.moves|
      ensures w.moves[a] != w.moves[b]
    {
      DepthClimbs(h, depth, w.moves, a, b);
    }
  }

  /** An intent with a receipt can no longer swap the ref: its expected commit lies behind. */
  lemma ReceiptedCannotSwap(h: History, depth: map<Oid, nat>, base: Oid, w: World, i: Intent)
    requires IsDepth(h, depth) && WorldInv(h, base, w) && i in w.receipts
    ensures Ref(w) != i.expected
  {
    hide Climbs, IsDepth, Stored, OnePending;
    MovesClimb(h, base, w);
    var lead, ahead :| Trail(base, w, lead, ahead) && Ahead(h, base, w, ahead);
    var k :| 0 <= k < |w.receipts| && w.receipts[k] == i;
    var at := k + if lead then 1 else 0;
    assert w.moves[at] == i.prospective;
    assert ExtendsExpected(h, w.receipts[k]);
    DepthStep(h, depth, i.prospective, i.expected);
    if at < |w.moves| - 1 { DepthClimbs(h, depth, w.moves, at, |w.moves| - 1); }
  }

  lemma KnownReceiptIsIntent(h: History, w: World, i: Intent)
    requires ReceiptChain(h, w) && Stored(w, i) && ReceiptFor(w, i.key).Some?
    ensures ReceiptFor(w, i.key).value == i && i in w.receipts
  {
    var r := ReceiptFor(w, i.key).value;
    var k :| 0 <= k < |w.receipts| && w.receipts[k] == r;
    assert Stored(w, w.receipts[k]);
  }

  lemma StoredWithoutReceiptIsPending(h: History, w: World, i: Intent)
    requires ReceiptChain(h, w) && Stored(w, i) && i !in w.receipts
    ensures IsPending(w, i.key)
  {
    if ReceiptFor(w, i.key).Some? { KnownReceiptIsIntent(h, w, i); }
  }

  lemma AheadIsPending(h: History, base: Oid, w: World, ahead: seq<Oid>, i: Intent)
    requires OnePending(w) && Stored(w, i) && IsPending(w, i.key)
    requires Ahead(h, base, w, ahead) && ahead != []
    ensures ahead == [i.prospective] && (w.receipts == [] ==> i.expected == base)
  {
    var k :| && IsPending(w, k) && ahead == [w.intents[k].prospective]
             && (w.receipts == [] ==> w.intents[k].expected == base);
    assert k == i.key;
  }

  /** A swap succeeds only for the pending intent, from the end of the receipt chain. */
  lemma SwapIsPending(h: History, depth: map<Oid, nat>, base: Oid, w: World, i: Intent)
    requires IsDepth(h, depth) && WorldInv(h, base, w)
    requires Stored(w, i) && ExtendsExpected(h, i) && Ref(w) == i.expected
    ensures IsPending(w, i.key) && (w.receipts == [] ==> i.expected == base)
    ensures exists lead :: Trail(base, w, lead, [])
  {
    if i in w.receipts { ReceiptedCannotSwap(h, depth, base, w, i); }
    StoredWithoutReceiptIsPending(h, w, i);
    var lead, ahead :| Trail(base, w, lead, ahead) && Ahead(h, base, w, ahead);
    if ahead != [] { AheadIsPending(h, base, w, ahead, i); }
    assert Trail(base, w, lead, []);
  }

  // ----- every step keeps the invariant -----

  lemma ReceiptsAreStored(h: History, w: World)
    requires ReceiptChain(h, w)
    ensures forall r :: r in w.receipts ==> Stored(w, r)
  {
    forall r | r in w.receipts
      ensures Stored(w, r)
    {
      var k :| 0 <= k < |w.receipts| && w.receipts[k] == r;
    }
  }

  lemma NewIntentIsOnlyPending(h: History, w: World, i: Intent)
    requires ReceiptChain(h, w) && OnePending(w) && HeadMatches(w, i) && WellFormed(i)
    requires i.key !in w.intents && forall k :: !IsPending(w, k)
    ensures OnePending(w.(intents := w.intents[i.key := i]))
  {
    hide ReceiptChain, FindReceipt;
    var after := w.(intents := w.intents[i.key := i]);
    forall k | k != i.key
      ensures !IsPending(after, k)
    {
      assert IsPending(after, k) ==> IsPending(w, k);
    }
  }

  lemma NewIntentKeepsChain(h: History, w: World, i: Intent)
    requires ReceiptChain(h, w) && i.key !in w.intents
    ensures ReceiptChain(h, w.(intents := w.intents[i.key := i]))
    ensures Extends(w, w.(intents := w.intents[i.key := i]))
  {
  }

  lemma PersistKeeps(h: History, base: Oid, w: World, i: Intent)
    requires WorldInv(h, base, w) && PersistIntent(w, i).Written?
    ensures WorldInv(h, base, PersistIntent(w, i).world) && Stored(PersistIntent(w, i).world, i)
    ensures Extends(w, PersistIntent(w, i).world) && PersistIntent(w, i).world.moves == w.moves
  {
    if i.key !in w.intents {
      var after := w.(intents := w.intents[i.key := i]);
      NewIntentIsOnlyPending(h, w, i);
      NewIntentKeepsChain(h, w, i);
      var lead, ahead :| Trail(base, w, lead, ahead) && Ahead(h, base, w, ahead);
      assert Trail(base, after, lead, ahead) && Ahead(h, base, after, []);
    }
  }

  /** What no step takes away. */
  ghost predicate Extends(w: World, after: World) {
    && (forall i :: Stored(w, i) ==> Stored(after, i))
    && w.receipts <= after.receipts && w.moves <= after.moves
  }

  lemma SwapKeeps(h: History, depth: map<Oid, nat>, base: Oid, w: World, i: Intent)
    requires IsDepth(h, depth) && WorldInv(h, base, w)
    requires Stored(w, i) && ExtendsExpected(h, i)
    ensures WorldInv(h, base, SwapRef(w, i.prospective, i.expected))
    ensures Extends(w, SwapRef(w, i.prospective, i.expected))
  {
    var after := SwapRef(w, i.prospective, i.expected);
    if Ref(w) == i.expected {
      SwapIsPending(h, depth, base, w, i);
      MovedKeepsChain(h, w, after);
      MovedTrail(h, base, w, i);
    }
  }

  /** The receipts and intents alone decide the chain and what is pending. */
  lemma MovedKeepsChain(h: History, w: World, after: World)
    requires after.receipts == w.receipts && after.intents == w.intents
    requires ReceiptChain(h, w) && OnePending(w)
    ensures ReceiptChain(h, after) && OnePending(after)
  {
    hide ExtendsExpected;
    assert forall k :: IsPending(after, k) <==> IsPending(w, k);
    assert forall k :: 0 <= k < |w.receipts| ==> Stored(after, w.receipts[k]);
  }

  lemma MovedTrail(h: History, base: Oid, w: World, i: Intent)
    requires w.moves != [] && Ref(w) == i.expected && ExtendsExpected(h, i) && Stored(w, i) && IsPending(w, i.key)
    requires (exists lead :: Trail(base, w, lead, [])) && (w.receipts == [] ==> i.expected == base)
    ensures var after := SwapRef(w, i.prospective, i.expected);
            after.moves != [] && exists lead, ahead :: Trail(base, after, lead, ahead) && Ahead(h, base, after, ahead)
  {
    var after := SwapRef(w, i.prospective, i.expected);
    var lead :| Trail(base, w, lead, []);
    assert Trail(base, after, lead, [i.prospective]);
    assert IsPending(after, i.key) && after.intents[i.key] == i;
    assert Ahead(h, base, after, [i.prospective]);
  }

  lemma HeadsOfMore(receipts: seq<Intent>, i: Intent)
    ensures Heads(receipts + [i]) == Heads(receipts) + [i.prospective]
  {
    assert (receipts + [i])[..|receipts|] == receipts;
  }

  lemma CompletionTrail(h: History, base: Oid, w: World, i: Intent) returns (lead: bool)
    requires WorldInv(h, base, w) && Stored(w, i) && i !in w.receipts && HeadMatches(w, i)
    requires ExtendsExpected(h, i) && Ref(w) == i.prospective
    ensures Trail(base, w.(receipts := w.receipts + [i]), lead, [])
  {
    StoredWithoutReceiptIsPending(h, w, i);
    var before, ahead :| Trail(base, w, before, ahead) && Ahead(h, base, w, ahead);
    assert OnePending(w);
    if ahead != [] {
      AheadIsPending(h, base, w, ahead, i);
      hide WorldInv, OnePending, Ahead, ReceiptChain;
      lead := before;
      AheadCompletes(base, w, before, i);
    } else {
      assert i.expected != i.prospective;
      hide WorldInv, OnePending, Ahead, ReceiptChain;
      NotYetMoved(base, w, before, i);
      lead := false;
      FirstCompletes(base, w, i);
    }
  }

  lemma AheadCompletes(base: Oid, w: World, lead: bool, i: Intent)
    requires Trail(base, w, lead, [i.prospective]) && (w.receipts == [] ==> i.expected == base)
    ensures Trail(base, w.(receipts := w.receipts + [i]), lead, [])
  {
    HeadsOfMore(w.receipts, i);
  }

  lemma FirstCompletes(base: Oid, w: World, i: Intent)
    requires w.receipts == [] && i.prospective == base && w.moves == [base]
    ensures Trail(base, w.(receipts := w.receipts + [i]), false, [])
  {
    HeadsOfMore(w.receipts, i);
  }

  /** If the ref is at the intent's head without having moved there, that head is the baseline. */
  lemma NotYetMoved(base: Oid, w: World, lead: bool, i: Intent)
    requires Trail(base, w, lead, []) && HeadMatches(w, i) && i.expected != i.prospective
    requires w.moves != [] && Ref(w) == i.prospective
    ensures w.receipts == [] && i.prospective == base && w.moves == [base]
  {
    if w.receipts != [] {
      LastHead(base, w, lead);
    }
  }

  lemma LastHead(base: Oid, w: World, lead: bool)
    requires Trail(base, w, lead, []) && w.receipts != []
    ensures w.moves != [] && Ref(w) == w.receipts[|w.receipts| - 1].prospective
  {
  }

  lemma CompleteKeeps(h: History, base: Oid, w: World, i: Intent)
    requires WorldInv(h, base, w) && CompleteReceipt(w, i).Written?
    requires Stored(w, i) && (i in w.receipts || (ExtendsExpected(h, i) && Ref(w) == i.prospective))
    ensures var after := CompleteReceipt(w, i).world;
            WorldInv(h, base, after) && Extends(w, after) && after.moves == w.moves && i in after.receipts
  {
    if ReceiptFor(w, i.key).None? {
      NewReceiptKeeps(h, base, w, i);
    } else {
      KnownReceiptIsIntent(h, w, i);
    }
  }

  lemma NewReceiptKeeps(h: History, base: Oid, w: World, i: Intent)
    requires WorldInv(h, base, w) && Stored(w, i) && i !in w.receipts && HeadMatches(w, i)
    requires ExtendsExpected(h, i) && Ref(w) == i.prospective
    ensures var after := w.(receipts := w.receipts + [i]);
            WorldInv(h, base, after) && Extends(w, after) && i in after.receipts
  {
    var after := w.(receipts := w.receipts + [i]);
    StoredWithoutReceiptIsPending(h, w, i);
    var lead := CompletionTrail(h, base, w, i);
    NothingPending(w, i);
    ChainGrows(h, w, i);
    assert Ahead(h, base, after, []);
    assert after.receipts[|w.receipts|] == i;
  }

  lemma NothingPending(w: World, i: Intent)
    requires OnePending(w) && IsPending(w, i.key)
    ensures OnePending(w.(receipts := w.receipts + [i]))
  {
    forall k | k in w.intents
      ensures !IsPending(w.(receipts := w.receipts + [i]), k)
    {
      AddedReceipt(w, i, k);
    }
  }

  lemma ChainGrows(h: History, w: World, i: Intent)
    requires ReceiptChain(h, w) && Stored(w, i) && ExtendsExpected(h, i) && HeadMatches(w, i)
    requires ReceiptFor(w, i.key).None?
    ensures ReceiptChain(h, w.(receipts := w.receipts + [i]))
  {
    assert forall k :: 0 <= k < |w.receipts| ==> w.receipts[k] in w.receipts;
  }

  lemma AddedReceipt(w: World, i: Intent, k: Key)
    requires OnePending(w) && IsPending(w, i.key) && k in w.intents
    ensures !IsPending(w.(receipts := w.receipts + [i]), k)
  {
    var after := w.(receipts := w.receipts + [i]);
    assert i in after.receipts;
    if k != i.key {
      assert !IsPending(w, k);
      assert ReceiptFor(w, k).value in after.receipts;
    }
  }

  /** A driver's claim survives a step of another driver that leaves the ref alone. */
  lemma OthersKeep(h: History, w: World, after: World, d: Driver)
    requires w.moves != [] && DriverInv(h, w, d) && Extends(w, after) && after.moves == w.moves
    ensures DriverInv(h, after, d)
  {
    assert forall i :: i in w.receipts ==> i in after.receipts;
  }

  /** And it survives a swap: the ref cannot leave the head of an unreceipted intent. */
  lemma OthersKeepOnSwap(h: History, depth: map<Oid, nat>, base: Oid, w: World, i: Intent, d: Driver)
    requires IsDepth(h, depth) && WorldInv(h, base, w)
    requires Stored(w, i) && ExtendsExpected(h, i) && DriverInv(h, w, d)
    ensures DriverInv(h, SwapRef(w, i.prospective, i.expected), d)
  {
    if Ref(w) == i.expected && d.pc == Completing && d.intent !in w.receipts {
      SwapIsPending(h, depth, base, w, i);
      StoredWithoutReceiptIsPending(h, w, d.intent);
    }
  }

  lemma DriverKeeps(h: History, depth: map<Oid, nat>, base: Oid, w: World, d: Driver)
    requires IsDepth(h, depth) && WorldInv(h, base, w) && DriverInv(h, w, d)
    ensures var (after, pc) := DriverStep(h, w, d);
            WorldInv(h, base, after) && DriverInv(h, after, Driver(d.intent, pc))
  {
    assert w.moves != [];
    if d.pc.Loading? {
      LoadingKeeps(h, base, w, d);
    } else {
      hide WorldInv, ReceiptFor, PersistIntent, CompleteReceipt, ExtendsExpected, IsDepth;
      match d.pc
      case Persisting =>
        if PersistIntent(w, d.intent).Written? { PersistKeeps(h, base, w, d.intent); }
      case Swapping(_) => SwapKeeps(h, depth, base, w, d.intent);
      case Completing =>
        if CompleteReceipt(w, d.intent).Written? { CompleteKeeps(h, base, w, d.intent); }
      case _ =>
    }
  }

  /** A receipt for the intent's key is that intent's own. */
  lemma LoadingKeeps(h: History, base: Oid, w: World, d: Driver)
    requires WorldInv(h, base, w) && DriverInv(h, w, d) && d.pc.Loading?
    ensures var (after, pc) := DriverStep(h, w, d);
            after == w && DriverInv(h, after, Driver(d.intent, pc))
  {
    if ReceiptFor(w, d.intent.key).Some? {
      KnownReceiptIsIntent(h, w, d.intent);
    }
  }

  lemma OthersKeepOnStep(h: History, depth: map<Oid, nat>, base: Oid, w: World, d: Driver, other: Driver)
    requires IsDepth(h, depth) && WorldInv(h, base, w) && DriverInv(h, w, d) && DriverInv(h, w, other)
    ensures var after := DriverStep(h, w, d).0; after.moves != [] && DriverInv(h, after, other)
  {
    match d.pc
    case Persisting =>
      if PersistIntent(w, d.intent).Written? {
        PersistKeeps(h, base, w, d.intent);
        OthersKeep(h, w, PersistIntent(w, d.intent).world, other);
      }
    case Swapping(_) => OthersKeepOnSwap(h, depth, base, w, d.intent, other);
    case Completing =>
      if CompleteReceipt(w, d.intent).Written? {
        CompleteKeeps(h, base, w, d.intent);
        OthersKeep(h, w, CompleteReceipt(w, d.intent).world, other);
      }
    case _ =>
  }

  lemma EnvironmentKeeps(h: History, base: Oid, w: World, after: World)
    requires WorldInv(h, base, w)
    requires after.moves == w.moves && after.intents == w.intents && after.receipts == w.receipts
    ensures WorldInv(h, base, after)
  {
    MovedKeepsChain(h, w, after);
    hide ReceiptChain, OnePending, ExtendsExpected;
    var lead, ahead :| Trail(base, w, lead, ahead) && Ahead(h, base, w, ahead);
    assert Trail(base, after, lead, ahead) && Ahead(h, base, after, ahead);
  }

  /** Every move of the system keeps the invariant. */
  lemma MoveKeeps(h: History, depth: map<Oid, nat>, base: Oid, s: System, m: Move)
    requires IsDepth(h, depth) && Inv(h, base, s)
    ensures Inv(h, base, Apply(h, s, m))
  {
    var after := Apply(h, s, m);
    match m
    case Step(id) =>
      if id in s.drivers {
        DriverKeeps(h, depth, base, s.world, s.drivers[id]);
        forall other | other in s.drivers
          ensures DriverInv(h, after.world, after.drivers[other])
        {
          OthersKeepOnStep(h, depth, base, s.world, s.drivers[id], s.drivers[other]);
        }
      }
    case AcceptCandidate(_) =>
      EnvironmentKeeps(h, base, s.world, after.world);
      forall id | id in s.drivers { OthersKeep(h, s.world, after.world, s.drivers[id]); }
    case SetExecuting(_) =>
      EnvironmentKeeps(h, base, s.world, after.world);
      forall id | id in s.drivers { OthersKeep(h, s.world, after.world, s.drivers[id]); }
    case _ =>
  }

  lemma StartInv(h: History, base: Oid)
    ensures Inv(h, base, Start(base))
  {
    var w := Start(base).world;
    assert Trail(base, w, true, []) && Ahead(h, base, w, []);
  }

  /** Whatever the drivers do and wherever they crash, the invariant holds. */
  lemma {:induction false} InvHoldsAlong(h: History, depth: map<Oid, nat>, base: Oid, s: System, ms: seq<Move>)
    requires IsDepth(h, depth) && Inv(h, base, s)
    ensures Inv(h, base, ApplyAll(h, s, ms))
    decreases |ms|
  {
    if ms != [] {
      MoveKeeps(h, depth, base, s, ms[0]);
      InvHoldsAlong(h, depth, base, Apply(h, s, ms[0]), ms[1..]);
    }
  }

  /**
   Safety over all interleavings and crashes: the receipts are one chain, the
   ref stands at the last verified head or exactly one pending intent further,
   and it never visits a commit twice, so no intent advances it twice.
   */
  lemma VerifiedRefSafety(h: History, depth: map<Oid, nat>, base: Oid, ms: seq<Move>)
    requires IsDepth(h, depth)
    ensures var w := ApplyAll(h, Start(base), ms).world;
            && ReceiptChain(h, w) && OnePending(w)
            && (exists lead, ahead :: Trail(base, w, lead, ahead) && Ahead(h, base, w, ahead))
            && (forall a, b :: 0 <= a < b < |w.moves| ==> w.moves[a] != w.moves[b])
    ensures var s := ApplyAll(h, Start(base), ms);
            forall id :: id in s.drivers && s.drivers[id].pc == Finished(Completed)
                         ==> s.drivers[id].intent in s.world.receipts
  {
    StartInv(h, base);
    InvHoldsAlong(h, depth, base, Start(base), ms);
    var s := ApplyAll(h, Start(base), ms);
    NoReturn(h, depth, base, s.world);
    forall id | id in s.drivers && s.drivers[id].pc == Finished(Completed)
      ensures s.drivers[id].intent in s.world.receipts
    {
      assert DriverInv(h, s.world, s.drivers[id]);
    }
  }

  // ----- recovery: one driver running alone -----

  function PcRank(pc: Pc): nat {
    match pc
    case Persisting => 10
    case Loading => 9
    case Checking => 8
    case Resolving(a) => if a == 0 then 7 else 4
    case Swapping(a) => if a == 0 then 6 else 3
    case Rereading(a) => if a == 0 then 5 else 2
    case Completing => 1
    case Finished(_) => 0
  }

  function RunAlone(h: History, w: World, d: Driver): (World, Outcome)
    requires w.moves != []
    decreases PcRank(d.pc)
  {
    if d.pc.Finished? then (w, d.pc.outcome)
    else
      var (after, pc) := DriverStep(h, w, d);
      RunAlone(h, after, Driver(d.intent, pc))
  }

  /** The actor's guards, which every call passes before anything else. */
  ghost predicate Admitted(w: World, i: Intent) {
    w.executing && i.candidate in w.candidates
  }

  /** The intent continues a receipt, starts at the baseline or is the baseline. */
  ghost predicate Anchored(base: Oid, w: World, i: Intent) {
    w.receipts != [] || i.expected == base || i.prospective == base
  }

  /** What makes a stored intent one that no driver can ever complete. */
  ghost predicate Stuck(h: History, base: Oid, w: World, i: Intent) {
    !ExtendsExpected(h, i) || !Anchored(base, w, i)
  }

  lemma CompletesFrom(h: History, w: World, i: Intent)
    requires w.moves != [] && Admitted(w, i) && Stored(w, i) && ReceiptFor(w, i.key).None? && HeadMatches(w, i)
    ensures RunAlone(h, w, Driver(i, Completing)) == (w.(receipts := w.receipts + [i]), Completed)
  {
    var after := w.(receipts := w.receipts + [i]);
    assert DriverStep(h, w, Driver(i, Completing)) == (after, Finished(Completed));
    assert RunAlone(h, after, Driver(i, Finished(Completed))) == (after, Completed);
  }

  /** The way to the first reading of the ref, and where it can end before. */
  lemma ResumesAt(h: History, w: World, i: Intent)
    requires w.moves != [] && Stored(w, i) && ReceiptFor(w, i.key).None? && WellFormed(i)
    ensures RunAlone(h, w, Driver(i, Persisting)) ==
            if !Admitted(w, i) then (w, Rejected)
            else if !ExtendsExpected(h, i) then (w, Inconsistent)
            else RunAlone(h, w, Driver(i, Resolving(0)))
  {
    if !Admitted(w, i) {
      assert DriverStep(h, w, Driver(i, Persisting)) == (w, Finished(Rejected));
      assert RunAlone(h, w, Driver(i, Finished(Rejected))) == (w, Rejected);
    } else {
      assert DriverStep(h, w, Driver(i, Persisting)) == (w, Loading);
      assert DriverStep(h, w, Driver(i, Loading)) == (w, Checking);
      assert RunAlone(h, w, Driver(i, Loading)) == RunAlone(h, w, Driver(i, Checking));
      if ExtendsExpected(h, i) {
        assert DriverStep(h, w, Driver(i, Checking)) == (w, Resolving(0));
      } else {
        assert DriverStep(h, w, Driver(i, Checking)) == (w, Finished(Inconsistent));
        assert RunAlone(h, w, Driver(i, Finished(Inconsistent))) == (w, Inconsistent);
      }
    }
  }

  lemma ResolvesAt(h: History, w: World, i: Intent)
    requires w.moves != [] && Admitted(w, i) && Stored(w, i) && ReceiptFor(w, i.key).None? && HeadMatches(w, i)
    requires i.expected != i.prospective
    ensures RunAlone(h, w, Driver(i, Resolving(0))) ==
            if Ref(w) == i.prospective then (w.(receipts := w.receipts + [i]), Completed)
            else if Ref(w) == i.expected then
              (w.(receipts := w.receipts + [i], moves := w.moves + [i.prospective]), Completed)
            else (w, Inconsistent)
  {
    if Ref(w) == i.prospective {
      assert DriverStep(h, w, Driver(i, Resolving(0))) == (w, Completing);
      CompletesFrom(h, w, i);
    } else if Ref(w) == i.expected {
      var moved := w.(moves := w.moves + [i.prospective]);
      assert DriverStep(h, w, Driver(i, Resolving(0))) == (w, Swapping(0));
      assert DriverStep(h, w, Driver(i, Swapping(0))) == (moved, Rereading(0));
      assert DriverStep(h, moved, Driver(i, Rereading(0))) == (moved, Completing);
      assert RunAlone(h, w, Driver(i, Swapping(0))) == RunAlone(h, moved, Driver(i, Rereading(0)));
      assert RunAlone(h, moved, Driver(i, Rereading(0))) == RunAlone(h, moved, Driver(i, Completing));
      assert ReceiptFor(moved, i.key) == ReceiptFor(w, i.key);
      CompletesFrom(h, moved, i);
    } else {
      assert DriverStep(h, w, Driver(i, Resolving(0))) == (w, Finished(Inconsistent));
      assert RunAlone(h, w, Driver(i, Finished(Inconsistent))) == (w, Inconsistent);
    }
  }

  /** Where the invariant lets the ref stand while an intent awaits its receipt. */
  lemma RefOfPending(h: History, base: Oid, w: World, i: Intent)
    requires WorldInv(h, base, w) && Stored(w, i) && i !in w.receipts
    ensures w.receipts != [] ==> Ref(w) == i.prospective || Ref(w) == i.expected
    ensures w.receipts == [] ==> Ref(w) == base || (Ref(w) == i.prospective && i.expected == base)
    ensures HeadMatches(w, i) && ReceiptFor(w, i.key).None? && WellFormed(i)
  {
    StoredWithoutReceiptIsPending(h, w, i);
    var lead, ahead :| Trail(base, w, lead, ahead) && Ahead(h, base, w, ahead);
    if ahead != [] {
      AheadIsPending(h, base, w, ahead, i);
    } else if w.receipts != [] {
      LastHead(base, w, lead);
    }
  }

  /**
   Re-running `integrate` on any stored intent without receipt, with nobody
   interfering: it is completed once, moving the ref at most once, exactly when
   the actor admits it, its commit extends the expected one and it is anchored.
   Otherwise nothing changes, and the call is rejected or reports inconsistency.
   */
  lemma RecoveryExact(h: History, base: Oid, w: World, i: Intent)
    requires WorldInv(h, base, w) && Stored(w, i) && i !in w.receipts
    ensures var moved := w.(moves := if Ref(w) == i.prospective then w.moves else w.moves + [i.prospective]);
            RunAlone(h, w, Driver(i, Persisting))
            == if !Admitted(w, i) then (w, Rejected)
               else if Stuck(h, base, w, i) then (w, Inconsistent)
               else (moved.(receipts := w.receipts + [i]), Completed)
  {
    RefOfPending(h, base, w, i);
    ResumesAt(h, w, i);
    if Admitted(w, i) { ResolvesAt(h, w, i); }
  }

  // ----- a new intent, and a whole list of them -----

  /** What a new intent needs to be stored: every stored one has its receipt, and it continues the last of them. */
  ghost predicate MayFollow(w: World, i: Intent) {
    && i.expected != i.prospective && i.prospective != ZERO
    && (forall k :: k in w.intents ==> exists r :: r in w.receipts && r.key == k)
    && (w.receipts != [] ==> w.receipts[|w.receipts| - 1].prospective == i.expected)
  }

  lemma StoresExactly(w: World, i: Intent)
    requires Admitted(w, i) && i.key !in w.intents
    ensures PersistIntent(w, i) == if MayFollow(w, i) then Written(w.(intents := w.intents[i.key := i])) else Refused
  {
    forall k | k in w.intents
      ensures IsPending(w, k) <==> !exists r :: r in w.receipts && r.key == k
    {
    }
  }

  /**
   A call with a new intent, with nobody interfering: it is rejected and leaves
   everything as it was exactly when the actor does not admit it or it may not
   follow; it is stored and gets stuck exactly when its commit has other parents
   or nothing ties it to the baseline; and otherwise it is completed.
   */
  lemma NewIntentExact(h: History, base: Oid, w: World, i: Intent)
    requires WorldInv(h, base, w) && i.key !in w.intents
    ensures var stored := w.(intents := w.intents[i.key := i]);
            var moved := stored.(moves := if Ref(w) == i.prospective then w.moves else w.moves + [i.prospective]);
            RunAlone(h, w, Driver(i, Persisting))
            == if !Admitted(w, i) || !MayFollow(w, i) then (w, Rejected)
               else if Stuck(h, base, w, i) then (stored, Inconsistent)
               else (moved.(receipts := w.receipts + [i]), Completed)
  {
    var d, stored := Driver(i, Persisting), w.(intents := w.intents[i.key := i]);
    if !Admitted(w, i) || !MayFollow(w, i) {
      if Admitted(w, i) { StoresExactly(w, i); }
      assert DriverStep(h, w, d) == (w, Finished(Rejected));
      assert RunAlone(h, w, Driver(i, Finished(Rejected))) == (w, Rejected);
    } else {
      StoresExactly(w, i);
      PersistKeeps(h, base, w, i);
      ReceiptsAreStored(h, w);
      StoredFirst(h, w, i);
      hide WorldInv, MayFollow, RunAlone, DriverStep, PersistIntent, ExtendsExpected;
      RecoveryExact(h, base, stored, i);
    }
  }

  /** A known key is only good for the intent that is stored under it. */
  lemma OtherIntentIsRejected(h: History, w: World, i: Intent)
    requires w.moves != [] && i.key in w.intents && w.intents[i.key] != i
    ensures RunAlone(h, w, Driver(i, Persisting)) == (w, Rejected)
  {
    assert DriverStep(h, w, Driver(i, Persisting)) == (w, Finished(Rejected));
    assert RunAlone(h, w, Driver(i, Finished(Rejected))) == (w, Rejected);
  }

  /** Intents that lead from one commit to the next, each by a commit with exactly that parent. */
  ghost predicate LeadsOn(h: History, base: Oid, list: seq<Intent>) {
    && (forall k :: 0 <= k < |list| ==>
          && list[k].expected != list[k].prospective && list[k].prospective != ZERO
          && list[k].prospective in h && h[list[k].prospective] == [list[k].expected])
    && (forall a, b :: 0 <= a < b < |list| ==> list[a].key != list[b].key)
    && (forall k :: 0 <= k < |list| ==> list[k].expected == HeadBefore(base, list, k))
  }

  function HeadBefore(base: Oid, list: seq<Intent>, k: nat): Oid
    requires k <= |list|
  {
    if k == 0 then base else list[k - 1].prospective
  }

  function ByKey(list: seq<Intent>): (m: map<Key, Intent>)
    ensures forall k :: k in m <==> exists i :: i in list && i.key == k
  {
    if list == [] then map[] else ByKey(list[..|list| - 1])[list[|list| - 1].key := list[|list| - 1]]
  }

  /** One driver spawned and run to its end while nobody else moves. */
  function Turn(id: DriverId, i: Intent): seq<Move> {
    [Spawn(id, i)] + Steps(id, 10)
  }

  function Steps(id: DriverId, n: nat): seq<Move> {
    if n == 0 then [] else [Step(id)] + Steps(id, n - 1)
  }

  lemma {:induction false} StepsRunAlone(h: History, s: System, id: DriverId, n: nat)
    requires s.world.moves != [] && id in s.drivers && PcRank(s.drivers[id].pc) <= n
    ensures var i := s.drivers[id].intent;
            var (after, outcome) := RunAlone(h, s.world, s.drivers[id]);
            ApplyAll(h, s, Steps(id, n)) == System(after, s.drivers[id := Driver(i, Finished(outcome))])
    decreases n
  {
    if n > 0 {
      var (after, pc) := DriverStep(h, s.world, s.drivers[id]);
      var next := Apply(h, s, Step(id));
      assert ([Step(id)] + Steps(id, n - 1))[1..] == Steps(id, n - 1);
      assert next == System(after, s.drivers[id := Driver(s.drivers[id].intent, pc)]);
      StepClimbsDown(h, s.world, s.drivers[id]);
      StepsRunAlone(h, next, id, n - 1);
      assert s.drivers[id].pc.Finished? ==> next == s;
    }
  }

  lemma StepClimbsDown(h: History, w: World, d: Driver)
    requires w.moves != []
    ensures d.pc.Finished? || PcRank(DriverStep(h, w, d).1) < PcRank(d.pc)
  {
  }

  lemma TurnRunsAlone(h: History, s: System, id: DriverId, i: Intent)
    requires s.world.moves != [] && id !in s.drivers
    ensures var (after, outcome) := RunAlone(h, s.world, Driver(i, Persisting));
            ApplyAll(h, s, Turn(id, i)) == System(after, s.drivers[id := Driver(i, Finished(outcome))])
  {
    var spawned := Apply(h, s, Spawn(id, i));
    assert Turn(id, i)[1..] == Steps(id, 10);
    StepsRunAlone(h, spawned, id, 10);
    var outcome := RunAlone(h, s.world, Driver(i, Persisting)).1;
    assert spawned.drivers[id := Driver(i, Finished(outcome))] == s.drivers[id := Driver(i, Finished(outcome))];
  }

  function Acceptances(list: seq<Intent>): seq<Move> {
    if list == [] then [] else Acceptances(list[..|list| - 1]) + [AcceptCandidate(list[|list| - 1].candidate)]
  }

  /** One driver after the other, driver `k` with the `k`-th intent. */
  function Turns(list: seq<Intent>): seq<Move> {
    if list == [] then [] else Turns(list[..|list| - 1]) + Turn(|list| - 1, list[|list| - 1])
  }

  lemma {:induction false} AllAccepted(h: History, base: Oid, list: seq<Intent>)
    ensures var s := ApplyAll(h, Start(base), Acceptances(list));
            && s.drivers == map[] && s.world == World([base], map[], [], s.world.candidates, true)
            && forall i :: i in list ==> i.candidate in s.world.candidates
  {
    if list != [] {
      var front, last := list[..|list| - 1], list[|list| - 1];
      AllAccepted(h, base, front);
      OneMore(h, Start(base), Acceptances(front), AcceptCandidate(last.candidate));
      assert list == front + [last];
    }
  }

  lemma LeadsOnPrefix(h: History, base: Oid, list: seq<Intent>, n: nat)
    requires LeadsOn(h, base, list) && n <= |list|
    ensures LeadsOn(h, base, list[..n])
  {
    var front := list[..n];
    forall k | 0 <= k < |front|
      ensures front[k].expected == HeadBefore(base, front, k)
    {
      assert front[k] == list[k] && list[k].expected == HeadBefore(base, list, k);
    }
    assert forall k :: 0 <= k < |front| ==> front[k] == list[k];
  }

  /** The world after the first intents of a list went through. */
  function Integrated(base: Oid, list: seq<Intent>, candidates: set<Candidate>): World {
    World([base] + Heads(list), ByKey(list), list, candidates, true)
  }

  lemma NextMayFollow(h: History, base: Oid, list: seq<Intent>, candidates: set<Candidate>, i: Intent)
    requires LeadsOn(h, base, list + [i])
    ensures var w := Integrated(base, list, candidates);
            && MayFollow(w, i) && i.key !in w.intents && ReceiptFor(w, i.key).None? && Ref(w) == i.expected
            && HeadMatches(w, i) && ExtendsExpected(h, i)
            && Integrated(base, list + [i], candidates)
               == World(w.moves + [i.prospective], w.intents[i.key := i], list + [i], candidates, true)
  {
    var w, all := Integrated(base, list, candidates), list + [i];
    assert all[..|list|] == list && all[|list|] == i;
    forall k | 0 <= k < |list|
      ensures list[k].key != i.key
    {
      assert all[k] == list[k];
    }
    assert all[|list|].expected == HeadBefore(base, all, |list|);
    assert list != [] ==> all[|list| - 1] == list[|list| - 1];
    assert [base] + (Heads(list) + [i.prospective]) == ([base] + Heads(list)) + [i.prospective];
  }

  lemma OneMoreIntegrated(h: History, base: Oid, list: seq<Intent>, candidates: set<Candidate>, i: Intent)
    requires LeadsOn(h, base, list + [i]) && i.candidate in candidates
    ensures RunAlone(h, Integrated(base, list, candidates), Driver(i, Persisting))
            == (Integrated(base, list + [i], candidates), Completed)
  {
    var w := Integrated(base, list, candidates);
    var stored := w.(intents := w.intents[i.key := i]);
    NextMayFollow(h, base, list, candidates, i);
    StoresExactly(w, i);
    hide LeadsOn, Integrated, MayFollow;
    StoredFirst(h, w, i);
    ResumesAt(h, stored, i);
    ResolvesAt(h, stored, i);
  }

  /** Storing first and going on is the same as going on with the intent stored. */
  lemma StoredFirst(h: History, w: World, i: Intent)
    requires w.moves != [] && Admitted(w, i) && i.key !in w.intents && WellFormed(i)
    requires PersistIntent(w, i) == Written(w.(intents := w.intents[i.key := i]))
    ensures RunAlone(h, w, Driver(i, Persisting))
            == RunAlone(h, w.(intents := w.intents[i.key := i]), Driver(i, Persisting))
  {
    var stored := w.(intents := w.intents[i.key := i]);
    assert PersistIntent(stored, i) == Written(stored);
    assert DriverStep(h, w, Driver(i, Persisting)) == (stored, Loading);
    assert DriverStep(h, stored, Driver(i, Persisting)) == (stored, Loading);
  }

  lemma NoneIntegrated(base: Oid, candidates: set<Candidate>)
    ensures Integrated(base, [], candidates) == World([base], map[], [], candidates, true)
    ensures AllCompleted(map[], [])
  {
    assert [base] + Heads([]) == [base];
  }

  lemma IntegratedMoves(base: Oid, list: seq<Intent>, candidates: set<Candidate>)
    ensures Integrated(base, list, candidates).moves != []
    ensures Integrated(base, list, candidates).candidates == candidates
  {
  }

  /** Driver `k` has completed the `k`-th intent, and there is no other driver. */
  ghost predicate AllCompleted(drivers: map<DriverId, Driver>, list: seq<Intent>) {
    && (forall id: nat :: id in drivers <==> id < |list|)
    && forall k: nat :: k < |list| ==> drivers[k] == Driver(list[k], Finished(Completed))
  }

  lemma OneMoreTurn(h: History, s: System, base: Oid, list: seq<Intent>, i: Intent)
    requires LeadsOn(h, base, list + [i]) && AllCompleted(s.drivers, list) && i.candidate in s.world.candidates
    requires s.world == Integrated(base, list, s.world.candidates)
    ensures s.world.moves != []
    ensures var after := ApplyAll(h, s, Turn(|list|, i));
            after.world == Integrated(base, list + [i], s.world.candidates) && AllCompleted(after.drivers, list + [i])
  {
    hide ApplyAll, Turn, RunAlone, LeadsOn, Integrated;
    OneMoreIntegrated(h, base, list, s.world.candidates, i);
    IntegratedMoves(base, list, s.world.candidates);
    TurnRunsAlone(h, s, |list|, i);
    assert forall k :: 0 <= k < |list| ==> (list + [i])[k] == list[k];
  }

  lemma {:induction false} TurnsIntegrate(h: History, s: System, base: Oid, list: seq<Intent>)
    requires LeadsOn(h, base, list) && s.drivers == map[]
    requires s.world == World([base], map[], [], s.world.candidates, true)
    requires forall i :: i in list ==> i.candidate in s.world.candidates
    ensures var after := ApplyAll(h, s, Turns(list));
            && after.world == Integrated(base, list, s.world.candidates)
            && AllCompleted(after.drivers, list)
    decreases |list|
  {
    hide Turn, Turns, LeadsOn, Integrated, AllCompleted, ApplyAll;
    if list == [] {
      NoTurns(h, s, base);
    } else {
      var n := |list| - 1;
      LastTurn(list);
      assert list == list[..n] + [list[n]] && list[n] in list;
      LeadsOnPrefix(h, base, list, n);
      TurnsIntegrate(h, s, base, list[..n]);
      TurnsGoOn(h, s, base, list[..n], list[n]);
    }
  }

  lemma NoTurns(h: History, s: System, base: Oid)
    requires s.drivers == map[] && s.world == World([base], map[], [], s.world.candidates, true)
    ensures var after := ApplyAll(h, s, Turns([]));
            after.world == Integrated(base, [], s.world.candidates) && AllCompleted(after.drivers, [])
  {
    NoneIntegrated(base, s.world.candidates);
  }

  lemma LastTurn(list: seq<Intent>)
    requires list != []
    ensures Turns(list) == Turns(list[..|list| - 1]) + Turn(|list| - 1, list[|list| - 1])
  {
    hide Turn;
  }

  lemma TurnsGoOn(h: History, s: System, base: Oid, list: seq<Intent>, i: Intent)
    requires s.world.moves != [] && LeadsOn(h, base, list + [i]) && i.candidate in s.world.candidates
    requires var before := ApplyAll(h, s, Turns(list));
             before.world == Integrated(base, list, s.world.candidates) && AllCompleted(before.drivers, list)
    ensures var after := ApplyAll(h, s, Turns(list) + Turn(|list|, i));
            && after.world == Integrated(base, list + [i], s.world.candidates)
            && AllCompleted(after.drivers, list + [i])
  {
    hide Turn, Turns, LeadsOn, Integrated, AllCompleted, ApplyAll;
    ApplyAllConcat(h, s, Turns(list), Turn(|list|, i));
    IntegratedMoves(base, list, s.world.candidates);
    OneMoreTurn(h, ApplyAll(h, s, Turns(list)), base, list, i);
  }

  /**
   A Run integrates slice after slice: the drivers of any list of intents that
   lead on from the baseline, run one after the other, complete all of them.
   The receipts are then that list, and the ref has gone through all its commits.
   */
  lemma EveryListIntegrates(h: History, base: Oid, list: seq<Intent>)
    requires LeadsOn(h, base, list)
    ensures var s := ApplyAll(h, Start(base), Acceptances(list) + Turns(list));
            && s.world.receipts == list && |s.world.moves| == |list| + 1 && s.world.moves[0] == base
            && (forall k :: 0 <= k < |list| ==> s.world.moves[k + 1] == list[k].prospective)
            && (forall i :: i in list ==> i.key in s.world.intents && s.world.intents[i.key] == i)
            && forall k: nat :: k < |list| ==> k in s.drivers && s.drivers[k] == Driver(list[k], Finished(Completed))
  {
    hide ApplyAll, Turns, Acceptances;
    AllAccepted(h, base, list);
    var s := ApplyAll(h, Start(base), Acceptances(list));
    ApplyAllConcat(h, Start(base), Acceptances(list), Turns(list));
    TurnsIntegrate(h, s, base, list);
    AllByKey(list);
  }

  lemma {:induction false} AllByKey(list: seq<Intent>)
    requires forall a, b :: 0 <= a < b < |list| ==> list[a].key != list[b].key
    ensures forall i :: i in list ==> i.key in ByKey(list) && ByKey(list)[i.key] == i
  {
    if list != [] {
      AllByKey(list[..|list| - 1]);
      assert list == list[..|list| - 1] + [list[|list| - 1]];
    }
  }

  // ----- rivals for one intent -----

  function StoredIn(w: World, i: Intent): World {
    w.(intents := w.intents[i.key := i])
  }

  function MovedIn(w: World, i: Intent): World
    requires w.moves != []
  {
    StoredIn(w, i).(moves := if Ref(w) == i.prospective then w.moves else w.moves + [i.prospective])
  }

  function DoneIn(w: World, i: Intent): World
    requires w.moves != []
  {
    MovedIn(w, i).(receipts := w.receipts + [i])
  }

  /** The intent is admitted, sound, and stored without receipt or free to be stored. */
  ghost predicate Completes(h: History, base: Oid, w: World, i: Intent) {
    && WorldInv(h, base, w) && Admitted(w, i) && !Stuck(h, base, w, i)
    && ((i.key !in w.intents && MayFollow(w, i)) || (Stored(w, i) && i !in w.receipts))
  }

  /** What its drivers rely on. */
  ghost predicate Ripe(h: History, w: World, i: Intent) {
    && w.moves != [] && Admitted(w, i) && ExtendsExpected(h, i) && WellFormed(i)
    && HeadMatches(w, i) && ReceiptFor(w, i.key).None? && (Ref(w) == i.expected || Ref(w) == i.prospective)
    && PersistIntent(w, i) == Written(StoredIn(w, i))
  }

  lemma CompletesIsRipe(h: History, base: Oid, w: World, i: Intent)
    requires Completes(h, base, w, i)
    ensures Ripe(h, w, i)
  {
    if i.key in w.intents {
      RefOfPending(h, base, w, i);
      assert StoredIn(w, i) == w;
    } else {
      StoresExactly(w, i);
      PersistKeeps(h, base, w, i);
      ReceiptsAreStored(h, w);
      RefOfPending(h, base, StoredIn(w, i), i);
      assert ReceiptFor(StoredIn(w, i), i.key) == ReceiptFor(w, i.key);
    }
  }

  /** How far the world has come when a driver of the intent stands where it stands. */
  ghost predicate RivalAt(start: World, w: World, i: Intent, d: Driver)
    requires start.moves != []
  {
    var stored, moved, done := StoredIn(start, i), MovedIn(start, i), DoneIn(start, i);
    && d.intent == i
    && match d.pc
       case Persisting => w == start || w == stored || w == moved || w == done
       case Rereading(_) => w == moved || w == done
       case Completing => w == moved || w == done
       case Finished(outcome) => outcome == Completed && w == done
       case _ => w == stored || w == moved || w == done
  }

  /** One step further, or none. */
  ghost predicate Onward(start: World, w: World, after: World, i: Intent)
    requires start.moves != []
  {
    || after == w || (w == start && after == StoredIn(start, i))
    || (w == StoredIn(start, i) && after == MovedIn(start, i)) || (w == MovedIn(start, i) && after == DoneIn(start, i))
  }

  lemma OnwardKeeps(start: World, w: World, after: World, i: Intent, d: Driver)
    requires start.moves != [] && Onward(start, w, after, i) && RivalAt(start, w, i, d)
    ensures RivalAt(start, after, i, d)
  {
    assert |MovedIn(start, i).receipts| < |DoneIn(start, i).receipts|;
  }

  lemma RivalSteps(h: History, start: World, w: World, i: Intent, d: Driver)
    requires Ripe(h, start, i) && w.moves != [] && RivalAt(start, w, i, d)
    ensures var (after, pc) := DriverStep(h, w, d);
            Onward(start, w, after, i) && RivalAt(start, after, i, Driver(i, pc))
  {
    var stored, moved, done := StoredIn(start, i), MovedIn(start, i), DoneIn(start, i);
    assert ReceiptFor(stored, i.key) == ReceiptFor(moved, i.key) == ReceiptFor(start, i.key);
    assert Ref(moved) == Ref(done) == i.prospective;
    assert i in done.receipts && ReceiptFor(done, i.key) == Some(i);
    if d.pc.Persisting? {
      if w == start {
        assert DriverStep(h, w, d) == (stored, Loading);
      } else {
        assert PersistIntent(w, i) == Written(w);
      }
    }
  }

  ghost predicate AllRivals(start: World, s: System, i: Intent) {
    && start.moves != []
    && (s.world == start || s.world == StoredIn(start, i) || s.world == MovedIn(start, i)
        || s.world == DoneIn(start, i))
    && forall id :: id in s.drivers ==> RivalAt(start, s.world, i, s.drivers[id])
  }

  /** A driver of the intent starts, moves or crashes. */
  predicate IsRival(m: Move, i: Intent) {
    (m.Spawn? && m.intent == i) || m.Step? || m.Crash?
  }

  lemma RivalMoves(h: History, start: World, s: System, i: Intent, m: Move)
    requires Ripe(h, start, i) && s.world.moves != [] && AllRivals(start, s, i) && IsRival(m, i)
    ensures AllRivals(start, Apply(h, s, m), i)
  {
    hide Ripe, RivalAt, Onward, DriverStep, StoredIn, MovedIn, DoneIn;
    if m.Step? && m.id in s.drivers {
      RivalStepsAmong(h, start, s, i, m.id);
    } else if m.Spawn? && m.id !in s.drivers {
      NewRival(start, s.world, i);
    }
  }

  lemma NewRival(start: World, w: World, i: Intent)
    requires start.moves != []
    requires w == start || w == StoredIn(start, i) || w == MovedIn(start, i) || w == DoneIn(start, i)
    ensures RivalAt(start, w, i, Driver(i, Persisting))
  {
  }

  lemma RivalStepsAmong(h: History, start: World, s: System, i: Intent, id: DriverId)
    requires Ripe(h, start, i) && s.world.moves != [] && AllRivals(start, s, i) && id in s.drivers
    ensures AllRivals(start, Apply(h, s, Step(id)), i)
  {
    hide Ripe, DriverStep, StoredIn, MovedIn, DoneIn;
    RivalSteps(h, start, s.world, i, s.drivers[id]);
    var (after, pc) := DriverStep(h, s.world, s.drivers[id]);
    assert s.drivers[id].intent == i;
    hide RivalAt;
    forall other | other in s.drivers
      ensures RivalAt(start, after, i, s.drivers[other])
    {
      OnwardKeeps(start, s.world, after, i, s.drivers[other]);
    }
  }

  lemma {:induction false} RivalsAlong(h: History, start: World, s: System, i: Intent, ms: seq<Move>)
    requires Ripe(h, start, i) && s.world.moves != [] && AllRivals(start, s, i) && forall m :: m in ms ==> IsRival(m, i)
    ensures AllRivals(start, ApplyAll(h, s, ms), i)
    decreases |ms|
  {
    if ms != [] {
      RivalMoves(h, start, s, i, ms[0]);
      hide Ripe, AllRivals, Apply;
      RivalsAlong(h, start, Apply(h, s, ms[0]), i, ms[1..]);
    }
  }

  /**
   Rivals for one intent: any number of drivers of an intent that one alone would
   complete, in any interleaving, started and crashing at any time.  Every one of
   them that ends reports success, and between them they store the intent, move
   the ref and write the receipt at most once each.
   */
  lemma RivalsAllComplete(h: History, base: Oid, s: System, i: Intent, ms: seq<Move>)
    requires Completes(h, base, s.world, i) && forall m :: m in ms ==> IsRival(m, i)
    requires forall id :: id in s.drivers ==> s.drivers[id] == Driver(i, Persisting)
    ensures var t := ApplyAll(h, s, ms);
            && (forall id :: id in t.drivers && t.drivers[id].pc.Finished? ==>
                  t.drivers[id].pc.outcome == Completed && t.world == DoneIn(s.world, i))
            && (t.world == s.world || t.world == StoredIn(s.world, i) || t.world == MovedIn(s.world, i)
                || t.world == DoneIn(s.world, i))
  {
    CompletesIsRipe(h, base, s.world, i);
    RivalsAlong(h, s.world, s, i, ms);
    hide Ripe, Completes, StoredIn, MovedIn, DoneIn, ApplyAll;
  }

  // ----- intents that never complete -----

  /** A receipt can only be added for an intent that is not stuck. */
  lemma StuckBlocksReceipts(h: History, base: Oid, w: World, d: Driver, i: Intent)
    requires WorldInv(h, base, w) && DriverInv(h, w, d)
    requires Stored(w, i) && i !in w.receipts && Stuck(h, base, w, i)
    ensures DriverStep(h, w, d).0.receipts == w.receipts
  {
    var j := d.intent;
    if d.pc == Completing && j !in w.receipts {
      StoredWithoutReceiptIsPending(h, w, i);
      StoredWithoutReceiptIsPending(h, w, j);
      assert OnePending(w) && i.key == j.key;
      RefOfPending(h, base, w, i);
    } else if d.pc == Completing {
      ReceiptsAreStored(h, w);
      KnownReceiptIsIntent(h, w, j);
    }
  }

  /**
   A stuck intent stays so for ever: whatever the drivers do, it never gets a
   receipt, and as it is the one pending intent no other receipt is added either.
   */
  lemma {:induction false} StuckForEver(
    h: History, depth: map<Oid, nat>, base: Oid, s: System, ms: seq<Move>, i: Intent)
    requires IsDepth(h, depth) && Inv(h, base, s)
    requires Stored(s.world, i) && i !in s.world.receipts && Stuck(h, base, s.world, i)
    ensures var after := ApplyAll(h, s, ms).world;
            after.receipts == s.world.receipts && Stored(after, i) && Stuck(h, base, after, i)
    decreases |ms|
  {
    if ms != [] {
      MoveKeeps(h, depth, base, s, ms[0]);
      StuckStep(h, depth, base, s, ms[0], i);
      StuckForEver(h, depth, base, Apply(h, s, ms[0]), ms[1..], i);
    }
  }

  lemma StuckStep(h: History, depth: map<Oid, nat>, base: Oid, s: System, m: Move, i: Intent)
    requires IsDepth(h, depth) && Inv(h, base, s)
    requires Stored(s.world, i) && i !in s.world.receipts && Stuck(h, base, s.world, i)
    ensures Apply(h, s, m).world.receipts == s.world.receipts && Stored(Apply(h, s, m).world, i)
  {
    if m.Step? && m.id in s.drivers {
      StuckBlocksReceipts(h, base, s.world, s.drivers[m.id], i);
    }
  }

  /** Any well-formed first intent of an executing Run is stored, whatever its commits are. */
  lemma FirstIntentIsStored(h: History, base: Oid, i: Intent)
    requires WellFormed(i)
    ensures ApplyAll(h, Start(base), StoreFirst(i)).world == World([base], map[i.key := i], [], {i.candidate}, true)
  {
    var accepted := Apply(h, Start(base), AcceptCandidate(i.candidate));
    var spawned := Apply(h, accepted, Spawn(0, i));
    assert accepted.world == World([base], map[], [], {i.candidate}, true);
    assert PersistIntent(spawned.world, i) == Written(World([base], map[i.key := i], [], {i.candidate}, true));
    OneMore(h, Start(base), [AcceptCandidate(i.candidate), Spawn(0, i)], Step(0));
    OneMore(h, Start(base), [AcceptCandidate(i.candidate)], Spawn(0, i));
    OneMore(h, Start(base), [], AcceptCandidate(i.candidate));
    assert [] + [AcceptCandidate(i.candidate)] == [AcceptCandidate(i.candidate)];
  }

  function StoreFirst(i: Intent): seq<Move> {
    [AcceptCandidate(i.candidate)] + [Spawn(0, i)] + [Step(0)]
  }

  /** Stored although its commit has other parents: it names the baseline and is stuck for ever. */
  lemma StuckByParents()
    ensures var i, h := Intent("k", Candidate("s", 0), 1, 2), map[2 := [3]];
            var w := ApplyAll(h, Start(1), StoreFirst(i)).world;
            && Stored(w, i) && i !in w.receipts && Admitted(w, i) && Anchored(1, w, i)
            && RunAlone(h, w, Driver(i, Persisting)) == (w, Inconsistent)
  {
    StuckExample(map[2 := [3]], 1, Intent("k", Candidate("s", 0), 1, 2));
  }

  /** Stored although nothing ties it to the baseline: its commit is sound and it is stuck for ever. */
  lemma StuckUnanchored()
    ensures var i, h := Intent("k", Candidate("s", 0), 2, 3), map[3 := [2]];
            var w := ApplyAll(h, Start(1), StoreFirst(i)).world;
            && Stored(w, i) && i !in w.receipts && Admitted(w, i) && ExtendsExpected(h, i)
            && RunAlone(h, w, Driver(i, Persisting)) == (w, Inconsistent)
  {
    StuckExample(map[3 := [2]], 1, Intent("k", Candidate("s", 0), 2, 3));
  }

  lemma StuckExample(h: History, base: Oid, i: Intent)
    requires WellFormed(i)
    requires !ExtendsExpected(h, i) || (i.expected != base && i.prospective != base)
    ensures var w := ApplyAll(h, Start(base), StoreFirst(i)).world;
            && w == World([base], map[i.key := i], [], {i.candidate}, true)
            && RunAlone(h, w, Driver(i, Persisting)) == (w, Inconsistent)
  {
    FirstIntentIsStored(h, base, i);
    StartInv(h, base);
    var accepted := Apply(h, Start(base), AcceptCandidate(i.candidate)).world;
    EnvironmentKeeps(h, base, Start(base).world, accepted);
    assert PersistIntent(accepted, i) == Written(World([base], map[i.key := i], [], {i.candidate}, true));
    PersistKeeps(h, base, accepted, i);
    RecoveryExact(h, base, ApplyAll(h, Start(base), StoreFirst(i)).world, i);
  }

  /** Re-running a finished integration while the Run executes changes nothing and succeeds. */
  lemma ReplayChangesNothing(h: History, base: Oid, w: World, i: Intent)
    requires WorldInv(h, base, w) && i in w.receipts
    ensures RunAlone(h, w, Driver(i, Persisting))
            == if w.executing && i.candidate in w.candidates then (w, Completed) else (w, Rejected)
  {
    ReceiptsAreStored(h, w);
    var d := Driver(i, Persisting);
    if w.executing && i.candidate in w.candidates {
      KnownReceiptIsIntent(h, w, i);
      assert DriverStep(h, w, d) == (w, Loading);
      assert DriverStep(h, w, Driver(i, Loading)) == (w, Completing);
      assert DriverStep(h, w, Driver(i, Completing)) == (w, Finished(Completed));
      assert RunAlone(h, w, Driver(i, Finished(Completed))) == (w, Completed);
      assert RunAlone(h, w, Driver(i, Completing)) == (w, Completed);
      assert RunAlone(h, w, Driver(i, Loading)) == (w, Completed);
    } else {
      assert DriverStep(h, w, d) == (w, Finished(Rejected));
      assert RunAlone(h, w, Driver(i, Finished(Rejected))) == (w, Rejected);
    }
  }

  // ----- the driver as it is written -----

  predicate Touches(m: Move, id: DriverId) {
    match m
    case Spawn(other, _) => other == id
    case Step(other) => other == id
    case Crash(other) => other == id
    case _ => false
  }

  lemma OneMore(h: History, origin: System, log: seq<Move>, m: Move)
    requires origin.world.moves != []
    ensures ApplyAll(h, origin, log + [m]) == Apply(h, ApplyAll(h, origin, log), m)
  {
    ApplyAllConcat(h, origin, log, [m]);
    var s := ApplyAll(h, origin, log);
    assert ApplyAll(h, s, [m]) == ApplyAll(h, Apply(h, s, m), [m][1..]);
  }

  /** Nobody else moves in any gap. */
  ghost predicate Undisturbed(schedule: nat -> seq<Move>) {
    forall n :: schedule(n) == []
  }

  /** The durable world with everyone working on it; `log` records every move since the origin. */
  class IntegrationHost {
    const history: History
    var system: System
    ghost const origin: System
    ghost var log: seq<Move>

    ghost predicate Valid()
      reads this
    {
      origin.world.moves != [] && system == ApplyAll(history, origin, log)
    }

    /** What becomes of the world if driver `me` goes on with nobody interfering. */
    ghost function Rest(me: DriverId): (World, Outcome)
      requires Valid() && me in system.drivers
      reads this
    {
      RunAlone(history, system.world, system.drivers[me])
    }

    constructor (h: History, base: Oid)
      ensures Valid() && history == h && origin == Start(base) && log == []
    {
      history, system, origin, log := h, Start(base), Start(base), [];
    }

    /** The moves of everybody else that happen while this driver waits. */
    method Await(others: seq<Move>, me: DriverId)
      requires Valid() && me in system.drivers
      modifies this
      ensures Valid() && old(log) <= log
      ensures others == [] ==> system == old(system)
      ensures me in system.drivers && system.drivers[me] == old(system).drivers[me]
    {
      for k := 0 to |others|
        invariant Valid() && old(log) <= log && (others == [] ==> system == old(system))
        invariant me in system.drivers && system.drivers[me] == old(system).drivers[me]
      {
        if !Touches(others[k], me) {
          OneMore(history, origin, log, others[k]);
          system := Apply(history, system, others[k]);
          log := log + [others[k]];
        }
      }
    }

    /** One atomic action of driver `me`: its effect on the world, and where the code stands after it. */
    method Act(me: DriverId, after: World, pc: Pc)
      requires Valid() && me in system.drivers
      requires DriverStep(history, system.world, system.drivers[me]) == (after, pc)
      modifies this
      ensures Valid() && old(log) <= log
      ensures me in system.drivers && system.drivers[me] == Driver(old(system).drivers[me].intent, pc)
      ensures old(Rest(me)) == Rest(me)
    {
      OneMore(history, origin, log, Step(me));
      system := System(after, system.drivers[me := Driver(system.drivers[me].intent, pc)]);
      log := log + [Step(me)];
    }

    /**
     `RunIntegrationDriver.integrate`, with the moves of others in every gap.
     The code is one of the drivers of the step relation: what it does to the
     world is a run of moves, whatever the schedule, and without interference it
     ends as that driver does alone.
     */
    method Integrate(me: DriverId, intent: Intent, schedule: nat -> seq<Move>) returns (outcome: Outcome)
      requires Valid() && me !in system.drivers
      modifies this
      ensures Valid() && old(log) <= log
      ensures me in system.drivers && system.drivers[me] == Driver(intent, Finished(outcome))
      ensures Undisturbed(schedule) ==>
                (system.world, outcome) == RunAlone(history, old(system).world, Driver(intent, Persisting))
    {
      Enter(me, intent);
      Await(schedule(0), me);
      var persisted := PersistIntent(system.world, intent);
      if persisted.Refused? {
        Act(me, system.world, Finished(Rejected));
        return Rejected;
      }
      Act(me, persisted.world, Loading);

      Await(schedule(1), me);
      var settled: bool;
      settled, outcome := Replayed(me, intent, schedule(2));
      if settled { return; }

      Await(schedule(3), me);
      if !ExtendsExpected(history, intent) {
        Act(me, system.world, Finished(Inconsistent));
        return Inconsistent;
      }
      Act(me, system.world, Resolving(0));
      outcome := Reconcile(me, intent, schedule);
    }

    method Enter(me: DriverId, intent: Intent)
      requires Valid() && me !in system.drivers
      modifies this
      ensures Valid() && old(log) <= log
      ensures me in system.drivers && system.drivers[me] == Driver(intent, Persisting)
      ensures system.world == old(system).world
    {
      OneMore(history, origin, log, Spawn(me, intent));
      system := Apply(history, system, Spawn(me, intent));
      log := log + [Spawn(me, intent)];
    }

    /** An intent that already has a receipt is settled by replaying it. */
    method Replayed(me: DriverId, intent: Intent, last: seq<Move>) returns (settled: bool, outcome: Outcome)
      requires Valid() && me in system.drivers && system.drivers[me] == Driver(intent, Loading)
      modifies this
      ensures Valid() && old(log) <= log
      ensures me in system.drivers
          && system.drivers[me] == Driver(intent, if settled then Finished(outcome) else Checking)
      ensures last == [] ==> Rest(me) == old(Rest(me))
    {
      var receipt := ReceiptFor(system.world, intent.key);
      if receipt.None? {
        Act(me, system.world, Checking);
        return false, Completed;
      }
      settled := true;
      if receipt.value != intent {
        Act(me, system.world, Finished(Inconsistent));
        return true, Inconsistent;
      }
      Act(me, system.world, Completing);
      outcome := Complete(me, intent, last);
    }

    /** The bounded compare-and-swap loop. */
    method Reconcile(me: DriverId, intent: Intent, schedule: nat -> seq<Move>) returns (outcome: Outcome)
      requires Valid() && me in system.drivers && system.drivers[me] == Driver(intent, Resolving(0))
      modifies this
      ensures Valid() && old(log) <= log
      ensures me in system.drivers && system.drivers[me] == Driver(intent, Finished(outcome))
      ensures Undisturbed(schedule) ==> Rest(me) == old(Rest(me))
    {
      hide RunAlone;
      var attempt := 0;
      while attempt < 2
        invariant attempt <= 1
        invariant me in system.drivers && Valid() && (Undisturbed(schedule) ==> Rest(me) == old(Rest(me)))
        invariant Valid() && old(log) <= log
        invariant me in system.drivers && system.drivers[me] == Driver(intent, Resolving(attempt))
      {
        var settled: bool;
        settled, outcome := Classified(me, intent, Swapping(attempt), schedule(4 + attempt), schedule(6 + attempt));
        if settled { return; }

        Await(schedule(8 + attempt), me);
        Act(me, SwapRef(system.world, intent.prospective, intent.expected), Rereading(attempt));

        var retry := if attempt == 1 then Finished(Conflicted) else Resolving(attempt + 1);
        settled, outcome := Classified(me, intent, retry, schedule(10 + attempt), schedule(12 + attempt));
        if settled { return; }
        if attempt == 1 { return Conflicted; }
        attempt := attempt + 1;
      }
      assert false;
    }

    /** Read the ref and act on its classification; unsettled means the ref still stands at the expected commit. */
    method Classified(me: DriverId, intent: Intent, retry: Pc, before: seq<Move>, last: seq<Move>)
      returns (settled: bool, outcome: Outcome)
      requires Valid() && me in system.drivers && system.drivers[me].intent == intent
      requires match system.drivers[me].pc
               case Resolving(a) => retry == Swapping(a)
               case Rereading(a) => retry == if a >= 1 then Finished(Conflicted) else Resolving(a + 1)
               case _ => false
      modifies this
      ensures Valid() && old(log) <= log
      ensures me in system.drivers && system.drivers[me] == Driver(intent, if settled then Finished(outcome) else retry)
      ensures before == [] && last == [] ==> Rest(me) == old(Rest(me))
    {
      Await(before, me);
      var observed := Ref(system.world);
      match Classify(intent, observed)
      case CompleteIt =>
        Act(me, system.world, Completing);
        outcome := Complete(me, intent, last);
        settled := true;
      case Contradicts =>
        Act(me, system.world, Finished(Inconsistent));
        return true, Inconsistent;
      case RetryGit =>
        Act(me, system.world, retry);
        return false, Conflicted;
    }

    /** The last call of every successful path: adopt the verified head. */
    method Complete(me: DriverId, intent: Intent, others: seq<Move>) returns (outcome: Outcome)
      requires Valid() && me in system.drivers && system.drivers[me] == Driver(intent, Completing)
      modifies this
      ensures Valid() && old(log) <= log
      ensures me in system.drivers && system.drivers[me] == Driver(intent, Finished(outcome))
      ensures others == [] ==> Rest(me) == old(Rest(me))
    {
      Await(others, me);
      var written := CompleteReceipt(system.world, intent);
      if written.Refused? {
        Act(me, system.world, Finished(Rejected));
        return Rejected;
      }
      Act(me, written.world, Finished(Completed));
      return Completed;
    }
  }

  /** When the driver reports completion on a host started at the baseline, its receipt is durable. */
  lemma CompletedIsReceipted(host: IntegrationHost, depth: map<Oid, nat>, base: Oid, me: DriverId)
    requires host.Valid() && host.origin == Start(base) && IsDepth(host.history, depth)
    requires me in host.system.drivers && host.system.drivers[me].pc == Finished(Completed)
    ensures host.system.drivers[me].intent in host.system.world.receipts
    ensures Inv(host.history, base, host.system)
  {
    VerifiedRefSafety(host.history, depth, base, host.log);
    StartInv(host.history, base);
    InvHoldsAlong(host.history, depth, base, Start(base), host.log);
  }
}
