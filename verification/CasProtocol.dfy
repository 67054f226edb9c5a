/**
 Reference counting of content-addressed objects under per-digest locks
 (`runtime/cas.py`, `runtime/checkpointer.py`, the reference operations of
 `runtime/store.py`): any number of concurrent operations, interleaved between
 any two of their awaited steps, any of them dying at any point.
 */
module CasProtocol {
  import opened Options

  type Digest = string
  type Key = string
  type Actor = nat

  /** How a publication treats a key that is already bound to something else. */
  datatype Mode = Keep | Replace

  datatype Operation =
    | Publish(key: Key, digest: Digest, mode: Mode)
    | Release(key: Key)
    | Sweep(digests: set<Digest>)
    | DeleteThread(keys: set<Key>)

  /** Where an operation stands; a state that names `held` holds the lock of that digest. */
  datatype Pc =
    | Idle
    | PublishWaiting(key: Key, digest: Digest, mode: Mode)
    | PublishLocked(key: Key, held: Digest, mode: Mode)
    | PublishWritten(key: Key, held: Digest, mode: Mode)
    | ReleaseReading(key: Key)
    | ReleaseWaiting(key: Key, digest: Digest)
    | ReleaseLocked(key: Key, held: Digest)
    | ThreadStarting(keys: set<Key>)
    | SweepWaiting(rest: set<Digest>)
    | SweepLocked(held: Digest, rest: set<Digest>)
    | Deleting(held: Digest, victim: Digest, rest: set<Digest>)
    | Leaving(held: Digest, rest: set<Digest>)

  datatype System = System(
    files: set<Digest>, refs: map<Key, Digest>, locks: map<Digest, Actor>, actors: map<Actor, Pc>)

  /** `choice` is the store accepting a binding or an object being old enough; `pick` the next object of a sweep. */
  datatype Move =
    | Begin(actor: Actor, operation: Operation)
    | Next(actor: Actor, choice: bool, pick: Digest)
    | Die(actor: Actor)

  function PcOf(s: System, a: Actor): Pc {
    if a in s.actors then s.actors[a] else Idle
  }

  function Held(pc: Pc): Option<Digest> {
    match pc
    case PublishLocked(_, d, _) => Some(d)
    case PublishWritten(_, d, _) => Some(d)
    case ReleaseLocked(_, d) => Some(d)
    case SweepLocked(d, _) => Some(d)
    case Deleting(d, _, _) => Some(d)
    case Leaving(d, _) => Some(d)
    case _ => None
  }

  predicate Referenced(refs: map<Key, Digest>, d: Digest) {
    exists k :: k in refs && refs[k] == d
  }

  function At(s: System, a: Actor, pc: Pc): System {
    s.(actors := s.actors[a := pc])
  }

  /** An actor that finds the lock taken stays where it is. */
  function Acquire(s: System, a: Actor, d: Digest, pc: Pc): System {
    if d in s.locks then s else At(s.(locks := s.locks[d := a]), a, pc)
  }

  function Bind(refs: map<Key, Digest>, key: Key, d: Digest, mode: Mode): map<Key, Digest> {
    if key in refs && mode == Keep then refs else refs[key := d]
  }

  /** The digests that only the given keys name. */
  function Orphaned(refs: map<Key, Digest>, keys: set<Key>): set<Digest> {
    set k | k in keys && k in refs && !Referenced(refs - keys, refs[k]) :: refs[k]
  }

  function Starting(op: Operation): Pc {
    match op
    case Publish(key, digest, mode) => PublishWaiting(key, digest, mode)
    case Release(key) => ReleaseReading(key)
    case Sweep(digests) => SweepWaiting(digests)
    case DeleteThread(keys) => ThreadStarting(keys)
  }

  /** One awaited step of one operation. */
  function StepOf(s: System, a: Actor, pc: Pc, choice: bool, pick: Digest): System {
    match pc
    case Idle => s
    case PublishWaiting(key, d, mode) => Acquire(s, a, d, PublishLocked(key, d, mode))
    case PublishLocked(key, d, mode) => At(s.(files := s.files + {d}), a, PublishWritten(key, d, mode))
    case PublishWritten(key, d, mode) =>
      At(if choice then s.(refs := Bind(s.refs, key, d, mode)) else s, a, Leaving(d, {}))
    case ReleaseReading(key) => At(s, a, if key in s.refs then ReleaseWaiting(key, s.refs[key]) else Idle)
    case ReleaseWaiting(key, d) => Acquire(s, a, d, ReleaseLocked(key, d))
    case ReleaseLocked(key, d) =>
      // The store removes the key, whatever it names by now, and answers with that digest if it was the last.
      if key !in s.refs then At(s, a, Leaving(d, {}))
      else
        var left := s.refs - {key};
        var last := s.refs[key];
        At(s.(refs := left), a, if Referenced(left, last) then Leaving(d, {}) else Deleting(d, last, {}))
    case ThreadStarting(keys) => At(s.(refs := s.refs - keys), a, SweepWaiting(Orphaned(s.refs, keys)))
    case SweepWaiting(rest) =>
      if rest == {} then At(s, a, Idle)
      else if pick !in rest then s
      else Acquire(s, a, pick, SweepLocked(pick, rest - {pick}))
    case SweepLocked(d, rest) =>
      At(s, a, if choice && d in s.files && !Referenced(s.refs, d) then Deleting(d, d, rest) else Leaving(d, rest))
    case Deleting(d, victim, rest) => At(s.(files := s.files - {victim}), a, Leaving(d, rest))
    case Leaving(d, rest) => At(s.(locks := s.locks - {d}), a, if rest == {} then Idle else SweepWaiting(rest))
  }

  /** A dead actor's lock is released by the operating system. */
  function Apply(s: System, m: Move): System {
    match m
    case Begin(a, op) => if PcOf(s, a) == Idle then At(s, a, Starting(op)) else s
    case Next(a, choice, pick) => StepOf(s, a, PcOf(s, a), choice, pick)
    case Die(a) =>
      var held := Held(PcOf(s, a));
      At(if held.Some? then s.(locks := s.locks - {held.value}) else s, a, Idle)
  }

  function ApplyAll(s: System, ms: seq<Move>): System
    decreases |ms|
  {
    if ms == [] then s else Apply(ApplyAll(s, ms[..|ms| - 1]), ms[|ms| - 1])
  }

  const START: System := System({}, map[], map[], map[])

  // ----- which operations may occur -----

  /** The keys that may be released, and what each key may be bound to. */
  datatype Policy = Policy(released: set<Key>, bindings: set<(Key, Digest)>)

  predicate Permits(p: Policy, op: Operation) {
    match op
    case Publish(key, d, _) => (key, d) in p.bindings
    case Release(key) => key in p.released
    case _ => true
  }

  predicate PermitsMove(p: Policy, m: Move) {
    m.Begin? ==> Permits(p, m.operation)
  }

  /** Every key that is ever released is only ever bound to one digest. */
  ghost predicate ReleasedKeysAreImmutable(p: Policy) {
    forall k, d, e :: k in p.released && (k, d) in p.bindings && (k, e) in p.bindings ==> d == e
  }

  /** Every referenced digest is present. */
  ghost predicate Present(s: System) {
    forall k :: k in s.refs ==> s.refs[k] in s.files
  }

  // ----- the invariant -----

  ghost predicate LocksOk(s: System) {
    && (forall d :: d in s.locks ==> Held(PcOf(s, s.locks[d])) == Some(d))
    && (forall a :: Held(PcOf(s, a)).Some? ==>
          Held(PcOf(s, a)).value in s.locks && s.locks[Held(PcOf(s, a)).value] == a)
  }

  ghost predicate PcOk(p: Policy, s: System, pc: Pc) {
    match pc
    case PublishWaiting(key, d, _) => (key, d) in p.bindings
    case PublishLocked(key, d, _) => (key, d) in p.bindings
    case PublishWritten(key, d, _) => (key, d) in p.bindings && d in s.files
    case ReleaseReading(key) => key in p.released
    case ReleaseWaiting(key, d) => key in p.released && (key, d) in p.bindings
    case ReleaseLocked(key, d) => key in p.released && (key, d) in p.bindings
    case Deleting(d, victim, _) => victim == d && !Referenced(s.refs, victim)
    case _ => true
  }

  ghost predicate Inv(p: Policy, s: System) {
    && LocksOk(s) && Present(s)
    && (forall k :: k in s.refs ==> (k, s.refs[k]) in p.bindings)
    && (forall a :: PcOk(p, s, PcOf(s, a)))
  }

  /** Two actors never hold the same lock. */
  lemma OneHolder(s: System, a: Actor, b: Actor)
    requires LocksOk(s) && Held(PcOf(s, a)).Some? && Held(PcOf(s, a)) == Held(PcOf(s, b))
    ensures a == b
  {
  }

  lemma AcquireKeepsLocks(s: System, a: Actor, d: Digest, pc: Pc)
    requires LocksOk(s) && Held(PcOf(s, a)).None? && Held(pc) == Some(d)
    ensures LocksOk(Acquire(s, a, d, pc))
  {
    var t := Acquire(s, a, d, pc);
    if d !in s.locks {
      assert forall b :: b != a ==> PcOf(t, b) == PcOf(s, b);
      assert PcOf(t, a) == pc;
    }
  }

  lemma SameLockKeeps(s: System, a: Actor, pc: Pc, files: set<Digest>, refs: map<Key, Digest>)
    requires LocksOk(s) && Held(PcOf(s, a)) == Held(pc)
    ensures LocksOk(At(s.(files := files, refs := refs), a, pc))
  {
    var t := At(s.(files := files, refs := refs), a, pc);
    assert forall b :: Held(PcOf(t, b)) == Held(PcOf(s, b));
  }

  lemma DropKeepsLocks(s: System, a: Actor, pc: Pc)
    requires LocksOk(s) && Held(pc).None?
    ensures var held := Held(PcOf(s, a));
            LocksOk(At(if held.Some? then s.(locks := s.locks - {held.value}) else s, a, pc))
  {
    var held := Held(PcOf(s, a));
    var t := At(if held.Some? then s.(locks := s.locks - {held.value}) else s, a, pc);
    assert forall b :: b != a ==> PcOf(t, b) == PcOf(s, b);
    assert PcOf(t, a) == pc;
  }

  /** Mutual exclusion is kept by every move, whatever the policy. */
  lemma LocksAreKept(s: System, m: Move)
    requires LocksOk(s)
    ensures LocksOk(Apply(s, m))
  {
    match m
    case Begin(a, op) =>
      if PcOf(s, a) == Idle { SameLockKeeps(s, a, Starting(op), s.files, s.refs); }
    case Die(a) => DropKeepsLocks(s, a, Idle);
    case Next(a, choice, pick) =>
      var pc := PcOf(s, a);
      match pc
      case Idle =>
      case PublishWaiting(key, d, mode) => AcquireKeepsLocks(s, a, d, PublishLocked(key, d, mode));
      case PublishLocked(key, d, mode) => SameLockKeeps(s, a, PublishWritten(key, d, mode), s.files + {d}, s.refs);
      case PublishWritten(key, d, mode) =>
        SameLockKeeps(s, a, Leaving(d, {}), s.files, if choice then Bind(s.refs, key, d, mode) else s.refs);
      case ReleaseReading(key) =>
        SameLockKeeps(s, a, if key in s.refs then ReleaseWaiting(key, s.refs[key]) else Idle, s.files, s.refs);
      case ReleaseWaiting(key, d) => AcquireKeepsLocks(s, a, d, ReleaseLocked(key, d));
      case ReleaseLocked(key, d) =>
        SameLockKeeps(s, a, PcOf(StepOf(s, a, pc, choice, pick), a), s.files, StepOf(s, a, pc, choice, pick).refs);
      case ThreadStarting(keys) =>
        SameLockKeeps(s, a, SweepWaiting(Orphaned(s.refs, keys)), s.files, s.refs - keys);
      case SweepWaiting(rest) =>
        if rest == {} {
          SameLockKeeps(s, a, Idle, s.files, s.refs);
        } else if pick in rest {
          AcquireKeepsLocks(s, a, pick, SweepLocked(pick, rest - {pick}));
        }
      case SweepLocked(d, rest) =>
        SameLockKeeps(s, a, PcOf(StepOf(s, a, pc, choice, pick), a), s.files, s.refs);
      case Deleting(d, victim, rest) => SameLockKeeps(s, a, Leaving(d, rest), s.files - {victim}, s.refs);
      case Leaving(d, rest) => DropKeepsLocks(s, a, if rest == {} then Idle else SweepWaiting(rest));
  }

  // ----- the steps that touch objects and references -----

  /** Fewer references and more files disturb nobody. */
  lemma OthersUndisturbed(p: Policy, s: System, t: System, a: Actor)
    requires forall b :: PcOk(p, s, PcOf(s, b))
    requires forall b :: b != a ==> PcOf(t, b) == PcOf(s, b)
    requires s.files <= t.files && (forall k :: k in t.refs ==> k in s.refs && t.refs[k] == s.refs[k])
    requires PcOk(p, t, PcOf(t, a))
    ensures forall b :: PcOk(p, t, PcOf(t, b))
  {
  }

  lemma BindKeeps(p: Policy, s: System, a: Actor, choice: bool, pick: Digest)
    requires Inv(p, s) && PcOf(s, a).PublishWritten?
    ensures Inv(p, StepOf(s, a, PcOf(s, a), choice, pick))
  {
    var pc := PcOf(s, a);
    var t := StepOf(s, a, pc, choice, pick);
    LocksAreKept(s, Next(a, choice, pick));
    forall b
      ensures PcOk(p, t, PcOf(t, b))
    {
      if b != a {
        assert PcOf(t, b) == PcOf(s, b) && PcOk(p, s, PcOf(s, b));
        if PcOf(s, b).Deleting? && PcOf(s, b).victim == pc.held { OneHolder(s, a, b); }
      }
    }
  }

  lemma PopKeeps(p: Policy, s: System, a: Actor, choice: bool, pick: Digest)
    requires Inv(p, s) && ReleasedKeysAreImmutable(p) && PcOf(s, a).ReleaseLocked?
    ensures Inv(p, StepOf(s, a, PcOf(s, a), choice, pick))
  {
    var pc := PcOf(s, a);
    var t := StepOf(s, a, pc, choice, pick);
    LocksAreKept(s, Next(a, choice, pick));
    assert PcOk(p, s, pc);
    OthersUndisturbed(p, s, t, a);
  }

  lemma DeleteKeeps(p: Policy, s: System, a: Actor, choice: bool, pick: Digest)
    requires Inv(p, s) && PcOf(s, a).Deleting?
    ensures Inv(p, StepOf(s, a, PcOf(s, a), choice, pick))
  {
    var pc := PcOf(s, a);
    var t := StepOf(s, a, pc, choice, pick);
    LocksAreKept(s, Next(a, choice, pick));
    assert PcOk(p, s, pc);
    forall b
      ensures PcOk(p, t, PcOf(t, b))
    {
      if b != a {
        assert PcOf(t, b) == PcOf(s, b) && PcOk(p, s, PcOf(s, b));
        if PcOf(s, b).PublishWritten? && PcOf(s, b).held == pc.victim { OneHolder(s, a, b); }
      }
    }
    forall k | k in t.refs
      ensures t.refs[k] in t.files
    {
      assert s.refs[k] in s.files && s.refs[k] != pc.victim;
    }
  }

  /** A move that binds, removes or deletes nothing. */
  predicate IsQuiet(s: System, m: Move) {
    m.Next? ==> !PcOf(s, m.actor).PublishWritten? && !PcOf(s, m.actor).ReleaseLocked? && !PcOf(s, m.actor).Deleting?
  }

  /** It leaves every other actor, adds no reference and takes no file. */
  lemma QuietFrame(s: System, m: Move)
    requires IsQuiet(s, m)
    ensures var t := Apply(s, m);
            && (forall b :: b != m.actor ==> PcOf(t, b) == PcOf(s, b))
            && s.files <= t.files && (forall k :: k in t.refs ==> k in s.refs && t.refs[k] == s.refs[k])
  {
    hide Referenced, Orphaned;
  }

  lemma QuietPc(p: Policy, s: System, m: Move)
    requires IsQuiet(s, m) && PermitsMove(p, m) && PcOk(p, s, PcOf(s, m.actor))
    requires forall k :: k in s.refs ==> (k, s.refs[k]) in p.bindings
    ensures PcOk(p, Apply(s, m), PcOf(Apply(s, m), m.actor))
  {
    hide Orphaned;
  }

  lemma QuietStepKeeps(p: Policy, s: System, m: Move)
    requires Inv(p, s) && PermitsMove(p, m) && IsQuiet(s, m)
    ensures Inv(p, Apply(s, m))
  {
    LocksAreKept(s, m);
    QuietFrame(s, m);
    assert PcOk(p, s, PcOf(s, m.actor));
    QuietPc(p, s, m);
    hide Apply, LocksOk, PcOk;
    OthersUndisturbed(p, s, Apply(s, m), m.actor);
  }

  lemma MoveKeeps(p: Policy, s: System, m: Move)
    requires Inv(p, s) && ReleasedKeysAreImmutable(p) && PermitsMove(p, m)
    ensures Inv(p, Apply(s, m))
  {
    if m.Next? && PcOf(s, m.actor).PublishWritten? {
      BindKeeps(p, s, m.actor, m.choice, m.pick);
    } else if m.Next? && PcOf(s, m.actor).ReleaseLocked? {
      PopKeeps(p, s, m.actor, m.choice, m.pick);
    } else if m.Next? && PcOf(s, m.actor).Deleting? {
      DeleteKeeps(p, s, m.actor, m.choice, m.pick);
    } else {
      QuietStepKeeps(p, s, m);
    }
  }

  ghost predicate PermitsAll(p: Policy, ms: seq<Move>) {
    forall i :: 0 <= i < |ms| ==> PermitsMove(p, ms[i])
  }

  lemma {:induction false} InvHoldsAlong(p: Policy, ms: seq<Move>)
    requires ReleasedKeysAreImmutable(p) && PermitsAll(p, ms)
    ensures Inv(p, ApplyAll(START, ms))
    decreases |ms|
  {
    if ms != [] {
      InvHoldsAlong(p, ms[..|ms| - 1]);
      MoveKeeps(p, ApplyAll(START, ms[..|ms| - 1]), ms[|ms| - 1]);
    }
  }

  // ----- and only then -----

  function Publishing(a: Actor, k: Key, d: Digest): seq<Move> {
    [Begin(a, Publish(k, d, Keep)), Next(a, true, d), Next(a, true, d), Next(a, true, d)]
  }

  function Releasing(a: Actor, k: Key): seq<Move> {
    [Begin(a, Release(k)), Next(a, true, ""), Next(a, true, ""), Next(a, true, ""), Next(a, true, "")]
  }

  /**
   A released key that two digests may be bound to: a release reads the key
   while it names the first, locks that one, and removes the key when it names
   the second, whose lock it does not hold; a publication of the second slips in
   before the deletion.
   */
  function Interleaving(k: Key, d: Digest, e: Digest): seq<Move> {
    Publishing(0, k, d) + [Next(0, true, d)]
    + [Begin(1, Release(k)), Next(1, true, d)]
    + Releasing(2, k) + [Next(2, true, d)]
    + Publishing(0, k, e) + [Next(0, true, e)]
    + [Next(1, true, d), Next(1, true, d)]
    + Publishing(0, k, e)
    + [Next(1, true, e)]
  }

  lemma {:induction false} ApplyAllConcat(s: System, a: seq<Move>, b: seq<Move>)
    ensures ApplyAll(s, a + b) == ApplyAll(ApplyAll(s, a), b)
    decreases |b|
  {
    if b == [] {
      assert a + b == a;
    } else {
      assert (a + b)[..|a + b| - 1] == a + b[..|b| - 1];
      ApplyAllConcat(s, a, b[..|b| - 1]);
    }
  }

  lemma ApplyOne(s: System, m: Move)
    ensures ApplyAll(s, [m]) == Apply(s, m)
  {
    assert [m][..0] == [];
  }

  lemma ApplyTwo(s: System, m: Move, n: Move)
    ensures ApplyAll(s, [m, n]) == Apply(Apply(s, m), n)
  {
    assert [m, n] == [m] + [n];
    ApplyAllConcat(s, [m], [n]);
    ApplyOne(s, m);
    ApplyOne(Apply(s, m), n);
  }

  /** A publication that nobody disturbs, up to its unlocking. */
  lemma PublishAlone(s: System, a: Actor, k: Key, d: Digest)
    requires PcOf(s, a) == Idle && d !in s.locks && k !in s.refs
    ensures var t := ApplyAll(s, Publishing(a, k, d));
            && t.files == s.files + {d} && t.refs == s.refs[k := d] && t.locks == s.locks[d := a]
            && PcOf(t, a) == Leaving(d, {}) && forall b :: b != a ==> PcOf(t, b) == PcOf(s, b)
  {
    var m := Publishing(a, k, d);
    assert m == [m[0], m[1]] + [m[2], m[3]];
    ApplyAllConcat(s, [m[0], m[1]], [m[2], m[3]]);
    ApplyTwo(s, m[0], m[1]);
    var u := Apply(Apply(s, m[0]), m[1]);
    assert PcOf(u, a) == PublishLocked(k, d, Keep);
    ApplyTwo(u, m[2], m[3]);
  }

  /** A release of the last reference that nobody disturbs, up to its unlocking. */
  lemma ReleaseAlone(s: System, a: Actor, k: Key)
    requires PcOf(s, a) == Idle && k in s.refs && s.refs[k] !in s.locks && !Referenced(s.refs - {k}, s.refs[k])
    ensures var t, d := ApplyAll(s, Releasing(a, k)), s.refs[k];
            && t.files == s.files - {d} && t.refs == s.refs - {k} && t.locks == s.locks[d := a]
            && PcOf(t, a) == Leaving(d, {}) && forall b :: b != a ==> PcOf(t, b) == PcOf(s, b)
  {
    var m, d := Releasing(a, k), s.refs[k];
    assert m == [m[0], m[1]] + ([m[2], m[3]] + [m[4]]);
    ApplyAllConcat(s, [m[0], m[1]], [m[2], m[3]] + [m[4]]);
    ApplyTwo(s, m[0], m[1]);
    var u := Apply(Apply(s, m[0]), m[1]);
    assert PcOf(u, a) == ReleaseWaiting(k, d);
    ApplyAllConcat(u, [m[2], m[3]], [m[4]]);
    ApplyTwo(u, m[2], m[3]);
    var v := Apply(Apply(u, m[2]), m[3]);
    assert PcOf(Apply(u, m[2]), a) == ReleaseLocked(k, d);
    assert PcOf(v, a) == Deleting(d, d, {});
    ApplyOne(v, m[4]);
  }

  lemma Unlocked(s: System, a: Actor, d: Digest)
    requires PcOf(s, a) == Leaving(d, {})
    ensures var t := ApplyAll(s, [Next(a, true, d)]);
            && t.files == s.files && t.refs == s.refs && t.locks == s.locks - {d}
            && PcOf(t, a) == Idle && forall b :: b != a ==> PcOf(t, b) == PcOf(s, b)
  {
    ApplyOne(s, Next(a, true, d));
  }

  lemma InterleavingLoses(k: Key, d: Digest, e: Digest)
    requires d != e
    ensures !Present(ApplyAll(START, Interleaving(k, d, e)))
  {
    hide ApplyAll, Apply, StepOf, Publishing, Releasing;
    var s3 := FirstBinding(k, d);
    var s5 := OtherRelease(s3, k, d);
    var s7 := SecondBinding(s5, k, d, e);
    LateRelease(s7, k, d, e);
    var s8 := ApplyAll(s7, [Next(1, true, d), Next(1, true, d)]);
    var s9 := ApplyAll(s8, Publishing(0, k, e));
    PublishAlone(s8, 0, k, e);
    LateDelete(s9, k, d, e);
    Composed(k, d, e);
  }

  /** The key names the first digest, and a release has read it. */
  lemma FirstBinding(k: Key, d: Digest) returns (s: System)
    ensures s == ApplyAll(ApplyAll(ApplyAll(START, Publishing(0, k, d)), [Next(0, true, d)]),
                          [Begin(1, Release(k)), Next(1, true, d)])
    ensures PcOf(s, 1) == ReleaseWaiting(k, d) && PcOf(s, 0) == Idle == PcOf(s, 2)
    ensures s.refs == map[k := d] && s.locks == map[]
  {
    hide Publishing;
    var s1 := ApplyAll(START, Publishing(0, k, d));
    var s2 := ApplyAll(s1, [Next(0, true, d)]);
    PublishAlone(START, 0, k, d);
    Unlocked(s1, 0, d);
    assert PcOf(s2, 2) == Idle && PcOf(s2, 1) == Idle && s2.locks == map[] && s2.refs == map[k := d];
    s := ApplyAll(s2, [Begin(1, Release(k)), Next(1, true, d)]);
    ApplyTwo(s2, Begin(1, Release(k)), Next(1, true, d));
    assert forall b :: b != 1 ==> PcOf(s, b) == PcOf(s2, b);
  }

  /** A second release of the key runs through. */
  lemma OtherRelease(s: System, k: Key, d: Digest) returns (t: System)
    requires PcOf(s, 1) == ReleaseWaiting(k, d) && PcOf(s, 0) == Idle == PcOf(s, 2)
    requires s.refs == map[k := d] && s.locks == map[]
    ensures t == ApplyAll(ApplyAll(s, Releasing(2, k)), [Next(2, true, d)])
    ensures PcOf(t, 1) == ReleaseWaiting(k, d) && PcOf(t, 0) == Idle && t.refs == map[] && t.locks == map[]
  {
    hide Releasing, ApplyAll;
    var u := ApplyAll(s, Releasing(2, k));
    ReleaseAlone(s, 2, k);
    Unlocked(u, 2, d);
    t := ApplyAll(u, [Next(2, true, d)]);
  }

  /** The key is bound again, to the second digest. */
  lemma SecondBinding(s: System, k: Key, d: Digest, e: Digest) returns (t: System)
    requires PcOf(s, 1) == ReleaseWaiting(k, d) && PcOf(s, 0) == Idle && s.refs == map[] && s.locks == map[]
    ensures t == ApplyAll(ApplyAll(s, Publishing(0, k, e)), [Next(0, true, e)])
    ensures PcOf(t, 1) == ReleaseWaiting(k, d) && PcOf(t, 0) == Idle && t.refs == map[k := e] && t.locks == map[]
  {
    hide Publishing, ApplyAll;
    var u := ApplyAll(s, Publishing(0, k, e));
    PublishAlone(s, 0, k, e);
    Unlocked(u, 0, e);
    t := ApplyAll(u, [Next(0, true, e)]);
  }

  lemma LateDelete(s: System, k: Key, d: Digest, e: Digest)
    requires PcOf(s, 1) == Deleting(d, e, {}) && k in s.refs && s.refs[k] == e
    ensures !Present(ApplyAll(s, [Next(1, true, e)]))
  {
    ApplyOne(s, Next(1, true, e));
    var t := ApplyAll(s, [Next(1, true, e)]);
    assert k in t.refs && t.refs[k] == e && e !in t.files;
  }

  lemma LateRelease(s: System, k: Key, d: Digest, e: Digest)
    requires d != e && PcOf(s, 1) == ReleaseWaiting(k, d) && s.locks == map[] && s.refs == map[k := e]
    ensures var t := ApplyAll(s, [Next(1, true, d), Next(1, true, d)]);
            && PcOf(t, 1) == Deleting(d, e, {}) && t.refs == map[] && t.locks == map[d := 1] && t.files == s.files
            && forall b :: b != 1 ==> PcOf(t, b) == PcOf(s, b)
  {
    ApplyTwo(s, Next(1, true, d), Next(1, true, d));
    assert PcOf(Apply(s, Next(1, true, d)), 1) == ReleaseLocked(k, d);
  }

  lemma Composed(k: Key, d: Digest, e: Digest)
    ensures ApplyAll(START, Interleaving(k, d, e))
            == ApplyAll(ApplyAll(ApplyAll(ApplyAll(ApplyAll(ApplyAll(ApplyAll(ApplyAll(ApplyAll(ApplyAll(START,
                 Publishing(0, k, d)), [Next(0, true, d)]), [Begin(1, Release(k)), Next(1, true, d)]),
                 Releasing(2, k)), [Next(2, true, d)]), Publishing(0, k, e)), [Next(0, true, e)]),
                 [Next(1, true, d), Next(1, true, d)]), Publishing(0, k, e)), [Next(1, true, e)])
  {
    var a, b := Publishing(0, k, d), [Next(0, true, d)];
    var c, r := [Begin(1, Release(k)), Next(1, true, d)], Releasing(2, k);
    var f, g, h := [Next(2, true, d)], Publishing(0, k, e), [Next(0, true, e)];
    var i, j, l := [Next(1, true, d), Next(1, true, d)], Publishing(0, k, e), [Next(1, true, e)];
    ApplyAllConcat(START, a, b);
    ApplyAllConcat(START, a + b, c);
    ApplyAllConcat(START, a + b + c, r);
    ApplyAllConcat(START, a + b + c + r, f);
    ApplyAllConcat(START, a + b + c + r + f, g);
    ApplyAllConcat(START, a + b + c + r + f + g, h);
    ApplyAllConcat(START, a + b + c + r + f + g + h, i);
    ApplyAllConcat(START, a + b + c + r + f + g + h + i, j);
    ApplyAllConcat(START, a + b + c + r + f + g + h + i + j, l);
  }

  lemma InterleavingPermitted(p: Policy, k: Key, d: Digest, e: Digest)
    requires k in p.released && (k, d) in p.bindings && (k, e) in p.bindings
    ensures PermitsAll(p, Interleaving(k, d, e))
  {
  }

  /**
   Referenced objects stay present over every interleaving and every crash if and
   only if each released key is only ever bound to one digest.  Keys that are
   never released, like those of special pending writes, may be rebound freely.
   */
  lemma SafeExactlyWhenImmutable(p: Policy)
    ensures (forall ms :: PermitsAll(p, ms) ==> Present(ApplyAll(START, ms))) <==> ReleasedKeysAreImmutable(p)
  {
    if ReleasedKeysAreImmutable(p) {
      forall ms | PermitsAll(p, ms)
        ensures Present(ApplyAll(START, ms))
      {
        InvHoldsAlong(p, ms);
      }
    } else {
      var k, d, e :| k in p.released && (k, d) in p.bindings && (k, e) in p.bindings && d != e;
      InterleavingPermitted(p, k, d, e);
      InterleavingLoses(k, d, e);
    }
  }

  // ----- what an operation does when nobody else moves -----

  /** Those of some objects that nothing refers to. */
  function Unreferenced(refs: map<Key, Digest>, digests: set<Digest>): set<Digest> {
    set d | d in digests && !Referenced(refs, d)
  }

  /** What an operation is to leave: the objects and the references. */
  function Outcome(s: System, op: Operation): (set<Digest>, map<Key, Digest>) {
    match op
    case Publish(key, d, mode) => (s.files + {d}, if key in s.refs && mode == Keep then s.refs else s.refs[key := d])
    case Release(key) =>
      if key !in s.refs then (s.files, s.refs)
      else
        (if exists k :: k in s.refs && k != key && s.refs[k] == s.refs[key] then s.files else s.files - {s.refs[key]},
         s.refs - {key})
    case Sweep(digests) => (s.files - Unreferenced(s.refs, digests), s.refs)
    case DeleteThread(keys) =>
      (s.files - (set k | k in keys && k in s.refs && (forall x :: x in s.refs && x !in keys ==> s.refs[x] != s.refs[k])
                  :: s.refs[k]),
       s.refs - keys)
  }

  /** What is still to come of it, from where it stands. */
  function ToCome(s: System, pc: Pc): (set<Digest>, map<Key, Digest>) {
    match pc
    case Idle => (s.files, s.refs)
    case PublishWaiting(key, d, mode) => (s.files + {d}, Bind(s.refs, key, d, mode))
    case PublishLocked(key, d, mode) => (s.files + {d}, Bind(s.refs, key, d, mode))
    case PublishWritten(key, d, mode) => (s.files, Bind(s.refs, key, d, mode))
    case ReleaseReading(key) => Outcome(s, Release(key))
    case ReleaseWaiting(key, _) => Outcome(s, Release(key))
    case ReleaseLocked(key, _) => Outcome(s, Release(key))
    case ThreadStarting(keys) => Outcome(s, DeleteThread(keys))
    case SweepWaiting(rest) => (s.files - Unreferenced(s.refs, rest), s.refs)
    case SweepLocked(d, rest) => (s.files - Unreferenced(s.refs, {d} + rest), s.refs)
    case Deleting(_, victim, rest) => (s.files - {victim} - Unreferenced(s.refs, rest), s.refs)
    case Leaving(_, rest) => (s.files - Unreferenced(s.refs, rest), s.refs)
  }

  /** Only this actor moves; the store accepts its bindings, and every object is old enough. */
  predicate IsAlone(ms: seq<Move>, a: Actor) {
    forall m :: m in ms ==> m.Next? && m.actor == a && m.choice
  }

  lemma OwnStepKeeps(s: System, a: Actor, pick: Digest)
    ensures var t := Apply(s, Next(a, true, pick)); ToCome(t, PcOf(t, a)) == ToCome(s, PcOf(s, a))
  {
    var pc, t := PcOf(s, a), Apply(s, Next(a, true, pick));
    NothingToSweep(t.files, t.refs);
    match pc
    case ThreadStarting(keys) => OrphansAreUnreferenced(s.refs, keys);
    case SweepWaiting(rest) =>
      if pick in rest { assert {pick} + (rest - {pick}) == rest; }
    case SweepLocked(d, rest) => SweepOne(s.files, s.refs, d, rest);
    case ReleaseLocked(key, _) =>
      LastReference(s.refs, key);
      if key in s.refs { NothingToSweep(s.files - {s.refs[key]}, t.refs); }
    case _ =>
  }

  lemma NothingToSweep(files: set<Digest>, refs: map<Key, Digest>)
    ensures files - Unreferenced(refs, {}) == files
  {
  }

  lemma LastReference(refs: map<Key, Digest>, key: Key)
    ensures key in refs ==>
              (Referenced(refs - {key}, refs[key]) <==> exists k :: k in refs && k != key && refs[k] == refs[key])
  {
    if key in refs {
      if k :| k in refs && k != key && refs[k] == refs[key] {
        assert k in refs - {key};
      }
    }
  }

  lemma OrphansAreUnreferenced(refs: map<Key, Digest>, keys: set<Key>)
    ensures Unreferenced(refs - keys, Orphaned(refs, keys)) == Orphaned(refs, keys)
    ensures Orphaned(refs, keys)
            == set k | k in keys && k in refs && (forall x :: x in refs && x !in keys ==> refs[x] != refs[k]) :: refs[k]
  {
    forall k | k in keys && k in refs
      ensures !Referenced(refs - keys, refs[k]) <==> forall x :: x in refs && x !in keys ==> refs[x] != refs[k]
    {
      assert forall x :: x in refs - keys <==> x in refs && x !in keys;
    }
  }

  lemma SweepOne(files: set<Digest>, refs: map<Key, Digest>, d: Digest, rest: set<Digest>)
    ensures files - Unreferenced(refs, {d} + rest)
            == (if d in files && !Referenced(refs, d) then files - {d} else files) - Unreferenced(refs, rest)
  {
    forall x
      ensures x in Unreferenced(refs, {d} + rest) <==> x in Unreferenced(refs, rest) || (x == d && !Referenced(refs, d))
    {
    }
    hide Unreferenced;
  }

  lemma {:induction false} AloneKeeps(s: System, a: Actor, ms: seq<Move>)
    requires IsAlone(ms, a)
    ensures var t := ApplyAll(s, ms); ToCome(t, PcOf(t, a)) == ToCome(s, PcOf(s, a))
    decreases |ms|
  {
    if ms != [] {
      var last := |ms| - 1;
      AloneKeeps(s, a, ms[..last]);
      OwnStepKeeps(ApplyAll(s, ms[..last]), a, ms[last].pick);
      assert ms[last] in ms;
    }
  }

  /**
   An operation that runs to its end while nobody else moves leaves exactly what it
   is to leave: a publication its object and binding; a release one reference less,
   and without the object exactly if that was the last one; a thread deletion none
   of its keys, and without exactly the objects that only they named; a sweep none
   of its objects that nothing refers to.
   */
  lemma AloneExact(s: System, a: Actor, op: Operation, ms: seq<Move>)
    requires PcOf(s, a) == Idle && IsAlone(ms, a)
    requires PcOf(ApplyAll(Apply(s, Begin(a, op)), ms), a) == Idle
    ensures var t := ApplyAll(Apply(s, Begin(a, op)), ms); (t.files, t.refs) == Outcome(s, op)
  {
    var begun := Apply(s, Begin(a, op));
    AloneKeeps(begun, a, ms);
    assert PcOf(begun, a) == Starting(op);
  }

  /** How many steps an actor still has to go. */
  function StepsLeft(s: System, a: Actor): nat {
    match PcOf(s, a)
    case Idle => 0
    case PublishWaiting(_, _, _) => 5
    case PublishLocked(_, _, _) => 4
    case PublishWritten(_, _, _) => 3
    case ReleaseReading(_) => 6
    case ReleaseWaiting(_, _) => 5
    case ReleaseLocked(_, _) => 4
    case ThreadStarting(keys) => 4 * |Orphaned(s.refs, keys)| + 2
    case SweepWaiting(rest) => 4 * |rest| + 1
    case SweepLocked(_, rest) => 4 * |rest| + 4
    case Deleting(_, _, rest) => 4 * |rest| + 3
    case Leaving(_, rest) => 4 * |rest| + 2
  }

  lemma SomeOf(pc: Pc) returns (pick: Digest)
    ensures pc.SweepWaiting? && pc.rest != {} ==> pick in pc.rest
  {
    pick := "";
    if pc.SweepWaiting? && pc.rest != {} {
      pick :| pick in pc.rest;
    }
  }

  lemma OwnStepAdvances(s: System, a: Actor, pick: Digest)
    requires LocksOk(s) && (forall d :: d in s.locks ==> s.locks[d] == a) && PcOf(s, a) != Idle
    requires PcOf(s, a).SweepWaiting? && PcOf(s, a).rest != {} ==> pick in PcOf(s, a).rest
    ensures var t := Apply(s, Next(a, true, pick));
            StepsLeft(t, a) < StepsLeft(s, a) && forall d :: d in t.locks ==> t.locks[d] == a
  {
    var pc := PcOf(s, a);
    if Held(pc).None? {
      assert forall d :: d !in s.locks;
    }
    if pc.SweepWaiting? && pc.rest != {} {
      assert |pc.rest - {pick}| == |pc.rest| - 1;
    }
  }

  /** And it can always run to its end, when nobody else holds a lock. */
  lemma {:induction false} AloneFinishes(s: System, a: Actor) returns (ms: seq<Move>)
    requires LocksOk(s) && forall d :: d in s.locks ==> s.locks[d] == a
    ensures IsAlone(ms, a) && PcOf(ApplyAll(s, ms), a) == Idle
    decreases StepsLeft(s, a)
  {
    ms := [];
    if PcOf(s, a) != Idle {
      var pick := SomeOf(PcOf(s, a));
      var m := Next(a, true, pick);
      var t := Apply(s, m);
      LocksAreKept(s, m);
      OwnStepAdvances(s, a, pick);
      var rest := AloneFinishes(t, a);
      ms := [m] + rest;
      ApplyAllConcat(s, [m], rest);
      ApplyOne(s, m);
    }
  }
}
