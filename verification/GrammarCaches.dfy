/**
 The bounded cache of grammar results and the per-grammar circuit breaker
 (`analysis/grammar.py`), against the trace of accesses.
 */
module GrammarCaches {
  import opened Counting
  import opened Options

  datatype Key = Key(snapshot: string, path: string, grammar: string)

  datatype Entry<T> = Entry(key: Key, value: T)

  // ----- the trace view: the distinct keys, last used last -----

  function Without(keys: seq<Key>, key: Key): (r: seq<Key>)
    ensures forall x :: x in r <==> x in keys && x != key
    ensures |r| <= |keys|
  {
    if keys == [] then [] else (if keys[0] == key then [] else [keys[0]]) + Without(keys[1..], key)
  }

  /** Every key of a trace once, in the order of its last use. */
  function LastUseOrder(trace: seq<Key>): (r: seq<Key>)
    ensures forall x :: x in r <==> x in trace
  {
    if trace == [] then []
    else
      var last := |trace| - 1;
      assert trace == trace[..last] + [trace[last]];
      Without(LastUseOrder(trace[..last]), trace[last]) + [trace[last]]
  }

  /** The last `n` of a sequence, or all of it. */
  function Suffix(keys: seq<Key>, n: nat): seq<Key> {
    if |keys| <= n then keys else keys[|keys| - n..]
  }

  lemma {:induction false} WithoutNoRepeats(keys: seq<Key>, key: Key)
    requires Distinct(keys)
    ensures Distinct(Without(keys, key))
    ensures |Without(keys, key)| == |keys| - (if key in keys then 1 else 0)
  {
    if keys != [] {
      WithoutNoRepeats(keys[1..], key);
      assert keys == [keys[0]] + keys[1..];
      assert keys[0] !in keys[1..];
    }
  }

  lemma {:induction false} OrderHasNoRepeats(trace: seq<Key>)
    ensures Distinct(LastUseOrder(trace))
  {
    if trace != [] {
      OrderHasNoRepeats(trace[..|trace| - 1]);
      WithoutNoRepeats(LastUseOrder(trace[..|trace| - 1]), trace[|trace| - 1]);
    }
  }

  /** The position of a key in the last-use order reflects its last use in the trace, whatever the trace. */
  lemma {:induction false} OrderIsByLastUse(trace: seq<Key>, i: nat, j: nat)
    requires i < j < |LastUseOrder(trace)|
    ensures exists p :: 0 <= p < |trace| && trace[p] == LastUseOrder(trace)[j]
                        && forall q :: p <= q < |trace| ==> trace[q] != LastUseOrder(trace)[i]
  {
    var last := |trace| - 1;
    var before := LastUseOrder(trace[..last]);
    var order := LastUseOrder(trace);
    OrderHasNoRepeats(trace);
    if j == |order| - 1 {
      assert trace[last] == order[j];
      assert forall q :: last <= q < |trace| ==> trace[q] != order[i];
    } else {
      OrderHasNoRepeats(trace[..last]);
      var i', j' := WithoutKeepsOrder(before, trace[last], i, j);
      OrderIsByLastUse(trace[..last], i', j');
      var p :| && 0 <= p < last && trace[..last][p] == before[j']
               && forall q :: p <= q < last ==> trace[..last][q] != before[i'];
      assert trace[p] == order[j];
      forall q | p <= q < |trace|
        ensures trace[q] != order[i]
      {
        if q < last {
          assert trace[..last][q] == trace[q] && before[i'] == order[i];
        } else {
          assert order[|order| - 1] == trace[last];
        }
      }
    }
  }

  lemma {:induction false} WithoutKeepsOrder(keys: seq<Key>, key: Key, i: nat, j: nat) returns (i': nat, j': nat)
    requires i < j < |Without(keys, key)|
    ensures i' < j' < |keys| && keys[i'] == Without(keys, key)[i] && keys[j'] == Without(keys, key)[j]
  {
    if keys[0] == key {
      i', j' := WithoutKeepsOrder(keys[1..], key, i, j);
      i', j' := i' + 1, j' + 1;
    } else if i == 0 {
      i' := 0;
      j' := WithoutFinds(keys[1..], key, j - 1);
      j' := j' + 1;
    } else {
      i', j' := WithoutKeepsOrder(keys[1..], key, i - 1, j - 1);
      i', j' := i' + 1, j' + 1;
    }
  }

  lemma {:induction false} WithoutFinds(keys: seq<Key>, key: Key, j: nat) returns (k: nat)
    requires j < |Without(keys, key)|
    ensures k < |keys| && keys[k] == Without(keys, key)[j]
  {
    if keys[0] == key {
      k := WithoutFinds(keys[1..], key, j);
      k := k + 1;
    } else if j == 0 {
      k := 0;
    } else {
      k := WithoutFinds(keys[1..], key, j - 1);
      k := k + 1;
    }
  }

  // ----- one access -----

  lemma {:induction false} WithoutAppend(a: seq<Key>, b: seq<Key>, key: Key)
    ensures Without(a + b, key) == Without(a, key) + Without(b, key)
  {
    if a == [] {
      assert a + b == b;
    } else {
      assert (a + b)[1..] == a[1..] + b;
      WithoutAppend(a[1..], b, key);
    }
  }

  lemma {:induction false} WithoutAbsent(keys: seq<Key>, key: Key)
    requires key !in keys
    ensures Without(keys, key) == keys
  {
    if keys != [] { WithoutAbsent(keys[1..], key); }
  }

  lemma HitAccess(gone: seq<Key>, held: seq<Key>, key: Key)
    requires Distinct(gone + held) && key in held
    ensures Without(gone + held, key) == gone + Without(held, key)
    ensures |Without(held, key)| == |held| - 1
  {
    var all := gone + held;
    var k :| 0 <= k < |held| && held[k] == key;
    forall i | 0 <= i < |gone|
      ensures gone[i] != key
    {
      assert all[i] == gone[i] && all[|gone| + k] == key;
    }
    assert forall i :: 0 <= i < |held| ==> all[|gone| + i] == held[i];
    assert Distinct(held);
    hide Without, Distinct;
    WithoutAppend(gone, held, key);
    WithoutAbsent(gone, key);
    WithoutNoRepeats(held, key);
  }

  lemma MissAccess(gone: seq<Key>, held: seq<Key>, key: Key, n: nat)
    requires n >= 1 && key !in held && (if gone == [] then |held| <= n else |held| == n)
    ensures Suffix(Without(gone + held, key) + [key], n) == Suffix(held + [key], n)
  {
    WithoutAppend(gone, held, key);
    WithoutAbsent(held, key);
    var rest := Without(gone, key);
    assert Without(gone + held, key) + [key] == rest + (held + [key]);
    if gone == [] {
      assert rest + (held + [key]) == held + [key];
    } else {
      SuffixOfAppend(rest, held + [key], n);
    }
  }

  lemma SuffixOfAppend(a: seq<Key>, b: seq<Key>, n: nat)
    requires |b| >= n
    ensures Suffix(a + b, n) == Suffix(b, n)
  {
    assert (a + b)[|a + b| - n..] == b[|b| - n..];
  }

  lemma BoundedHit(gone: seq<Key>, held: seq<Key>, key: Key, n: nat)
    requires Distinct(gone + held) && key in held && (if gone == [] then |held| <= n else |held| == n)
    ensures Suffix(Without(gone + held, key) + [key], n) == Without(held, key) + [key]
  {
    HitAccess(gone, held, key);
    var kept := Without(held, key) + [key];
    assert Without(gone + held, key) + [key] == gone + kept;
    if gone == [] {
      assert gone + kept == kept;
    } else {
      SuffixOfAppend(gone, kept, n);
    }
  }

  /** One more access, seen on the bounded order: a cached key moves to the end, a new one pushes the oldest out. */
  lemma BoundedAccess(order: seq<Key>, key: Key, n: nat)
    requires n >= 1 && Distinct(order)
    ensures var held := Suffix(order, n);
            Suffix(Without(order, key) + [key], n)
            == if key in held then Without(held, key) + [key] else Suffix(held + [key], n)
  {
    var held := Suffix(order, n);
    var gone := order[..|order| - |held|];
    assert order == gone + held;
    if key in held {
      BoundedHit(gone, held, key, n);
    } else {
      MissAccess(gone, held, key, n);
    }
  }

  /** The same on the trace: what the cache must hold after one more access. */
  lemma AccessKeeps(trace: seq<Key>, keys: seq<Key>, key: Key, n: nat)
    requires n >= 1 && keys == Suffix(LastUseOrder(trace), n)
    ensures Distinct(keys)
    ensures forall k :: 0 <= k < |keys| && keys[k] == key ==>
              Suffix(LastUseOrder(trace + [key]), n) == keys[..k] + keys[k + 1..] + [key]
    ensures key !in keys ==> Suffix(LastUseOrder(trace + [key]), n) == Suffix(keys + [key], n)
  {
    var order := LastUseOrder(trace);
    OrderHasNoRepeats(trace);
    assert (trace + [key])[..|trace|] == trace;
    assert LastUseOrder(trace + [key]) == Without(order, key) + [key];
    BoundedAccess(order, key, n);
    assert Distinct(keys);
    forall k | 0 <= k < |keys| && keys[k] == key
      ensures Suffix(LastUseOrder(trace + [key]), n) == keys[..k] + keys[k + 1..] + [key]
    {
      MovedToEnd(keys, k);
    }
  }

  function KeysOf<T>(entries: seq<Entry<T>>): (r: seq<Key>)
    ensures |r| == |entries| && forall i :: 0 <= i < |r| ==> r[i] == entries[i].key
  {
    seq(|entries|, i requires 0 <= i < |entries| => entries[i].key)
  }

  function Moved<T>(entries: seq<Entry<T>>, k: nat): seq<Entry<T>>
    requires k < |entries|
  {
    entries[..k] + entries[k + 1..] + [entries[k]]
  }

  function Pushed<T>(entries: seq<Entry<T>>, e: Entry<T>, n: nat): seq<Entry<T>> {
    var longer := entries + [e];
    if |longer| > n then longer[1..] else longer
  }

  lemma MovedKeys<T>(entries: seq<Entry<T>>, k: nat)
    requires k < |entries|
    ensures var keys := KeysOf(entries); KeysOf(Moved(entries, k)) == keys[..k] + keys[k + 1..] + [keys[k]]
  {
  }

  lemma PushedKeys<T>(entries: seq<Entry<T>>, e: Entry<T>, n: nat)
    requires n >= 1 && |entries| <= n
    ensures KeysOf(Pushed(entries, e, n)) == Suffix(KeysOf(entries) + [e.key], n)
  {
  }

  /**
   The cache; `load` is the loader as a function of the key, and the ghost trace
   records the accesses that returned a value.
   */
  class GrammarCache<T(==)> {
    const maxEntries: nat
    ghost const load: Key -> T
    var entries: seq<Entry<T>>
    ghost var trace: seq<Key>

    /** Exactly the most recently used keys, in last-use order, each with its loaded value. */
    ghost predicate Valid()
      reads this
    {
      && maxEntries >= 1
      && KeysOf(entries) == Suffix(LastUseOrder(trace), maxEntries)
      && forall i :: 0 <= i < |entries| ==> entries[i].value == load(entries[i].key)
    }

    constructor (maxEntries: nat, ghost load: Key -> T)
      requires maxEntries >= 1
      ensures Valid() && this.maxEntries == maxEntries && this.load == load && entries == [] && trace == []
    {
      this.maxEntries, this.load := maxEntries, load;
      entries, trace := [], [];
    }

    method Find(key: Key) returns (k: nat)
      ensures k <= |entries|
      ensures k < |entries| ==> entries[k].key == key
      ensures forall i :: 0 <= i < k ==> entries[i].key != key
    {
      k := 0;
      while k < |entries| && entries[k].key != key
        invariant k <= |entries| && forall i :: 0 <= i < k ==> entries[i].key != key
      {
        k := k + 1;
      }
    }

    method MoveToEnd(k: nat)
      requires Valid() && k < |entries|
      modifies this
      ensures Valid() && entries == Moved(old(entries), k) && trace == old(trace) + [old(entries)[k].key]
    {
      hide LastUseOrder, Suffix;
      var key := entries[k].key;
      AccessKeeps(trace, KeysOf(entries), key, maxEntries);
      assert KeysOf(entries)[k] == key;
      MovedKeys(entries, k);
      entries := entries[..k] + entries[k + 1..] + [entries[k]];
      trace := trace + [key];
    }

    method Insert(key: Key, value: T)
      requires Valid() && value == load(key) && key !in KeysOf(entries)
      modifies this
      ensures Valid() && entries == Pushed(old(entries), Entry(key, value), maxEntries) && trace == old(trace) + [key]
    {
      AccessKeeps(trace, KeysOf(entries), key, maxEntries);
      PushedKeys(entries, Entry(key, value), maxEntries);
      entries := entries + [Entry(key, value)];
      if |entries| > maxEntries {
        entries := entries[1..];
      }
      trace := trace + [key];
    }

    /** The answer is always the loaded value; `loaded` is what the loader returns, or nothing when it raises. */
    method GetOrLoad(key: Key, loaded: Option<T>) returns (value: Option<T>)
      requires Valid() && (loaded.Some? ==> loaded.value == load(key))
      modifies this
      ensures Valid()
      ensures value.Some? ==> value.value == load(key) && trace == old(trace) + [key]
      ensures value.None? ==> trace == old(trace) && entries == old(entries)
      ensures value.None? <==> loaded.None? && key !in KeysOf(old(entries))
    {
      var k := Find(key);
      if k < |entries| {
        var entry := entries[k];
        assert KeysOf(entries)[k] == key;
        MoveToEnd(k);
        return Some(entry.value);
      }
      if loaded.None? {
        return None;
      }
      Insert(key, loaded.value);
      return loaded;
    }
  }

  lemma {:induction false} MovedToEnd(keys: seq<Key>, k: nat)
    requires Distinct(keys) && k < |keys|
    ensures Without(keys, keys[k]) == keys[..k] + keys[k + 1..]
    decreases |keys|
  {
    if k == 0 {
      WithoutAbsent(keys[1..], keys[0]);
    } else {
      MovedToEnd(keys[1..], k - 1);
      assert keys[0] != keys[k] && keys[1..][k - 1] == keys[k];
      assert keys[1..][..k - 1] == keys[1..k] && keys[1..][k..] == keys[k + 1..];
      assert keys[..k] == [keys[0]] + keys[1..k];
    }
  }

  // ----- the circuit breaker -----

  /** Whether a grammar's outcomes end with two crashes in a row anywhere before the circuit could close. */
  function CrashesInARow(outcomes: seq<bool>): nat {
    if outcomes == [] then 0
    else
      var before := CrashesInARow(outcomes[..|outcomes| - 1]);
      if before >= 2 then before else if outcomes[|outcomes| - 1] then 0 else before + 1
  }

  lemma OneMoreOutcome(before: seq<bool>, success: bool)
    ensures CrashesInARow(before + [success])
            == if CrashesInARow(before) >= 2 then CrashesInARow(before)
               else if success then 0 else CrashesInARow(before) + 1
  {
    assert (before + [success])[..|before|] == before;
  }

  /** Two consecutive crashes occur somewhere. */
  ghost predicate TwoCrashes(outcomes: seq<bool>) {
    exists i, j :: 0 <= i && j == i + 1 && j < |outcomes| && !outcomes[i] && !outcomes[j]
  }

  /** The counter reaches two exactly when some two consecutive runs crashed, and then it never recovers. */
  lemma {:induction false} OpensOnTwoCrashes(outcomes: seq<bool>)
    ensures CrashesInARow(outcomes) >= 2 <==> TwoCrashes(outcomes)
    ensures CrashesInARow(outcomes) <= 2
    ensures CrashesInARow(outcomes) == 1 ==> outcomes != [] && !outcomes[|outcomes| - 1]
    ensures outcomes != [] && !outcomes[|outcomes| - 1] ==> CrashesInARow(outcomes) >= 1
  {
    if outcomes != [] {
      var last := |outcomes| - 1;
      var front := outcomes[..last];
      OpensOnTwoCrashes(front);
      if CrashesInARow(outcomes) >= 2 && CrashesInARow(front) < 2 {
        assert !outcomes[last - 1] && !outcomes[last];
      }
      if TwoCrashes(front) {
        var i, j :| 0 <= i && j == i + 1 && j < |front| && !front[i] && !front[j];
        assert !outcomes[i] && !outcomes[j];
      }
      if TwoCrashes(outcomes) {
        var i, j :| 0 <= i && j == i + 1 && j < |outcomes| && !outcomes[i] && !outcomes[j];
        if j < last {
          assert !front[i] && !front[j];
        }
      }
    }
  }

  datatype Answer = Ran | Crashed | CircuitOpen

  function OutcomesIn(outcomes: map<string, seq<bool>>, grammar: string): seq<bool> {
    if grammar in outcomes then outcomes[grammar] else []
  }

  function FailuresIn(failures: map<string, nat>, grammar: string): nat {
    if grammar in failures then failures[grammar] else 0
  }

  /** The counters are the crashes in a row, and a circuit is open when they reached two. */
  ghost predicate Tracks(failures: map<string, nat>, open: set<string>, outcomes: map<string, seq<bool>>) {
    forall g ::
      && FailuresIn(failures, g) == CrashesInARow(OutcomesIn(outcomes, g))
      && (g in open <==> CrashesInARow(OutcomesIn(outcomes, g)) >= 2)
  }

  lemma OutcomeTracked(
    failures: map<string, nat>, open: set<string>, outcomes: map<string, seq<bool>>, grammar: string, success: bool)
    requires Tracks(failures, open, outcomes) && grammar !in open
    ensures var more := outcomes[grammar := OutcomesIn(outcomes, grammar) + [success]];
            var count := FailuresIn(failures, grammar) + 1;
            if success then Tracks(failures - {grammar}, open, more)
            else Tracks(failures[grammar := count], if count >= 2 then open + {grammar} else open, more)
  {
    var more := outcomes[grammar := OutcomesIn(outcomes, grammar) + [success]];
    hide CrashesInARow;
    OneMoreOutcome(OutcomesIn(outcomes, grammar), success);
    assert forall g :: g != grammar ==> OutcomesIn(more, g) == OutcomesIn(outcomes, g);
  }

  class CircuitBreaker {
    var failures: map<string, nat>
    var open: set<string>
    ghost var outcomes: map<string, seq<bool>>

    ghost predicate Valid()
      reads this
    {
      Tracks(failures, open, outcomes)
    }

    constructor ()
      ensures Valid() && outcomes == map[]
    {
      failures, open, outcomes := map[], {}, map[];
    }

    /** A grammar runs until two crashes in a row; another grammar's crashes do not count. */
    method Run(grammar: string, crashes: bool) returns (answer: Answer)
      requires Valid()
      modifies this
      ensures Valid()
      ensures answer == CircuitOpen <==> TwoCrashes(OutcomesIn(old(outcomes), grammar))
      ensures answer != CircuitOpen ==> (answer == Crashed <==> crashes)
      ensures outcomes == if answer == CircuitOpen then old(outcomes)
                          else old(outcomes)[grammar := OutcomesIn(old(outcomes), grammar) + [!crashes]]
    {
      OpensOnTwoCrashes(OutcomesIn(outcomes, grammar));
      if grammar in open {
        return CircuitOpen;
      }
      assert !TwoCrashes(OutcomesIn(outcomes, grammar));
      OutcomeTracked(failures, open, outcomes, grammar, !crashes);
      hide Tracks, TwoCrashes, CrashesInARow;
      outcomes := outcomes[grammar := OutcomesIn(outcomes, grammar) + [!crashes]];
      if crashes {
        var count := (if grammar in failures then failures[grammar] else 0) + 1;
        failures := failures[grammar := count];
        if count >= 2 {
          open := open + {grammar};
        }
        return Crashed;
      }
      failures := failures - {grammar};
      return Ran;
    }
  }
}
