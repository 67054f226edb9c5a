/**
 Event streaming over an append-only ledger (`api/sse.py`): the producer loop,
 the bounded queue in front of the client, and the stream a client may rely on.
 The event at index i of a ledger has sequence i + 1.
 */
module SseReplay {
  import opened Sorting

  /** Whether each event is terminal. */
  type Ledger = seq<bool>

  datatype Record = Record(sequence: nat, terminal: bool)

  datatype Item = Data(id: nat) | Heartbeat

  /** A terminal event above `low` and at or before the cursor. */
  predicate Reached(l: Ledger, low: nat, cursor: nat) {
    exists i :: low <= i < |l| && i < cursor && l[i]
  }

  /** The ids above `cursor` up to and with the first terminal event above `low`. */
  function Stream(l: Ledger, low: nat, cursor: nat): seq<nat>
    decreases |l| - cursor
  {
    if cursor >= |l| || Reached(l, low, cursor) then [] else [cursor + 1] + Stream(l, low, cursor + 1)
  }

  /** What a client that has seen `cursor` is owed: nothing once the Run has ended at or before it. */
  function Owed(l: Ledger, cursor: nat): seq<nat> {
    Stream(l, 0, cursor)
  }

  // ----- the stream -----

  /** No gap and no repetition: the ids are consecutive. */
  lemma {:induction false} StreamIsConsecutive(l: Ledger, low: nat, cursor: nat, i: nat)
    requires i < |Stream(l, low, cursor)|
    ensures Stream(l, low, cursor)[i] == cursor + 1 + i && cursor + i < |l|
    decreases i
  {
    if i > 0 { StreamIsConsecutive(l, low, cursor + 1, i - 1); }
  }

  lemma {:induction false} StreamSplits(l: Ledger, low: nat, cursor: nat, k: nat)
    requires k <= |Stream(l, low, cursor)|
    ensures Stream(l, low, cursor) == Stream(l, low, cursor)[..k] + Stream(l, low, cursor + k)
    decreases k
  {
    if k > 0 {
      StreamSplits(l, low, cursor + 1, k - 1);
      var rest := Stream(l, low, cursor + 1);
      assert Stream(l, low, cursor)[..k] == [cursor + 1] + rest[..k - 1];
    }
  }

  lemma ReachedGrows(l: Ledger, more: Ledger, low: nat, cursor: nat)
    requires l <= more
    ensures Reached(l, low, cursor) ==> Reached(more, low, cursor)
    ensures (cursor <= |l| || cursor <= low) && Reached(more, low, cursor) ==> Reached(l, low, cursor)
  {
    if Reached(l, low, cursor) {
      var i :| low <= i < |l| && i < cursor && l[i];
      assert more[i];
    }
  }

  /** What is owed never changes as the ledger grows; more may be added at the end. */
  lemma {:induction false} StreamGrows(l: Ledger, more: Ledger, low: nat, cursor: nat)
    requires l <= more
    ensures Stream(l, low, cursor) <= Stream(more, low, cursor)
    decreases |l| - cursor
  {
    if cursor < |l| && !Reached(l, low, cursor) {
      ReachedGrows(l, more, low, cursor);
      StreamGrows(l, more, low, cursor + 1);
    }
  }

  /** After a terminal event nothing is ever added. */
  lemma StreamEnds(l: Ledger, more: Ledger, low: nat, cursor: nat, k: nat)
    requires l <= more && k <= |Stream(l, low, cursor)| && Reached(l, low, cursor + k)
    ensures Stream(more, low, cursor) == Stream(l, low, cursor)[..k]
  {
    StreamGrows(l, more, low, cursor);
    StreamSplits(more, low, cursor, k);
    ReachedGrows(l, more, low, cursor + k);
    assert Stream(more, low, cursor + k) == [];
  }

  /** Reconnecting with the last delivered id continues the same stream. */
  lemma ReconnectContinues(l: Ledger, more: Ledger, start: nat, delivered: seq<nat>)
    requires l <= more && delivered <= Owed(l, start)
    ensures var last := if delivered == [] then start else delivered[|delivered| - 1];
            Owed(more, start) == delivered + Owed(more, last)
  {
    StreamGrows(l, more, 0, start);
    StreamSplits(more, 0, start, |delivered|);
    if delivered != [] { StreamIsConsecutive(l, 0, start, |delivered| - 1); }
  }

  /** Terminal events below the cursor matter only if there are any. */
  lemma {:induction false} LowerTerminals(l: Ledger, low: nat, cursor: nat)
    requires low <= cursor && !Reached(l, 0, low)
    ensures Stream(l, 0, cursor) == Stream(l, low, cursor)
    decreases |l| - cursor
  {
    assert Reached(l, 0, cursor) <==> Reached(l, low, cursor) by {
      if Reached(l, 0, cursor) {
        var i :| 0 <= i < |l| && i < cursor && l[i];
        assert low <= i;
      }
    }
    if cursor < |l| { LowerTerminals(l, low, cursor + 1); }
  }

  // ----- reading -----

  function SequenceKey(): Record -> nat {
    (r: Record) => r.sequence
  }

  /** The records above a cursor, in ledger order. */
  function RecordsAfter(l: Ledger, cursor: nat): (r: seq<Record>)
    ensures |r| == if cursor < |l| then |l| - cursor else 0
    ensures forall i :: 0 <= i < |r| ==> r[i] == Record(cursor + i + 1, l[cursor + i])
    decreases |l| - cursor
  {
    if cursor >= |l| then [] else [Record(cursor + 1, l[cursor])] + RecordsAfter(l, cursor + 1)
  }

  lemma SortedRead(l: Ledger, cursor: nat, read: seq<Record>)
    requires multiset(read) == multiset(RecordsAfter(l, cursor))
    ensures SortBy(read, SequenceKey()) == RecordsAfter(l, cursor)
  {
    var r := RecordsAfter(l, cursor);
    assert forall i :: 0 <= i < |r| ==> SequenceKey()(r[i]) == cursor + i + 1;
    SortRecovers(r, read, SequenceKey());
  }

  function Ids(items: seq<Item>): seq<nat> {
    if items == [] then []
    else
      var last := items[|items| - 1];
      Ids(items[..|items| - 1]) + (if last.Data? then [last.id] else [])
  }

  lemma IdsAppend(items: seq<Item>, x: Item)
    ensures Ids(items + [x]) == Ids(items) + (if x.Data? then [x.id] else [])
  {
    assert (items + [x])[..|items|] == items;
  }

  lemma {:induction false} IdsConcat(a: seq<Item>, b: seq<Item>)
    ensures Ids(a + b) == Ids(a) + Ids(b)
    decreases |b|
  {
    if b == [] {
      assert a + b == a;
    } else {
      var last := |b| - 1;
      assert a + b == (a + b[..last]) + [b[last]];
      assert b == b[..last] + [b[last]];
      IdsConcat(a, b[..last]);
      IdsAppend(a + b[..last], b[last]);
      IdsAppend(b[..last], b[last]);
    }
  }

  /** One more event is owed, and the stream with it ends or goes on. */
  lemma NextIsOwed(l: Ledger, low: nat, start: nat, sent: seq<nat>, cursor: nat)
    requires sent <= Stream(l, low, start) && cursor == start + |sent|
    requires low <= cursor < |l| && !Reached(l, low, cursor)
    ensures sent + [cursor + 1] <= Stream(l, low, start)
    ensures Reached(l, low, cursor + 1) <==> l[cursor]
  {
    StreamSplits(l, low, start, |sent|);
    assert Stream(l, low, cursor)[0] == cursor + 1;
    if l[cursor] { assert Reached(l, low, cursor + 1); }
  }

  // ----- the connection -----

  datatype Status = Open | Ended | Overflowed

  /** How a wait for new events ended, and what was then observed. */
  datatype Wait = Woken | TimedOut(more: bool, terminal: bool)

  /** One round as the producer meets it: the ledger at its observations, and how many items the client then takes. */
  datatype Turn = Turn(atCheck: Ledger, atRead: Ledger, atWait: Ledger, woken: bool, takes: nat)

  ghost predicate Arranges(arrange: seq<Record> -> seq<Record>) {
    forall r :: multiset(arrange(r)) == multiset(r)
  }

  /** A read of the ledger above a cursor, in any order. */
  function Read(l: Ledger, cursor: nat, arrange: seq<Record> -> seq<Record>): (r: seq<Record>)
    requires Arranges(arrange)
    ensures multiset(r) == multiset(RecordsAfter(l, cursor))
  {
    arrange(RecordsAfter(l, cursor))
  }

  /** The ledger only grows from one observation to the next. */
  ghost predicate Growing(l: Ledger, turns: seq<Turn>) {
    forall k :: 0 <= k < |turns| ==> InOrder(Before(l, turns, k), turns[k])
  }

  ghost predicate InOrder(l: Ledger, t: Turn) {
    l <= t.atCheck <= t.atRead <= t.atWait
  }

  /** The ledger as the last round before round k left it. */
  ghost function Before(l: Ledger, turns: seq<Turn>, k: nat): Ledger
    requires k <= |turns|
  {
    if k == 0 then l else turns[k - 1].atWait
  }

  lemma ReadSize(l: Ledger, cursor: nat, read: seq<Record>)
    requires multiset(read) == multiset(RecordsAfter(l, cursor))
    ensures |read| == if cursor < |l| then |l| - cursor else 0
  {
    assert |multiset(read)| == |read| && |multiset(RecordsAfter(l, cursor))| == |RecordsAfter(l, cursor)|;
  }

  /** How many records of a ledger lie above a cursor. */
  function Unread(l: Ledger, cursor: nat): nat {
    if cursor < |l| then |l| - cursor else 0
  }

  /** The queue holds at most what it held at first, what was read since, and one sign of life for each round. */
  ghost predicate Fits(first: nat, cursor: nat, size: nat, room: nat, k: nat, reach: nat) {
    first <= cursor && size <= room + (cursor - first) + k && (cursor == first || cursor <= reach)
  }

  lemma FitsAtFirst(first: nat, room: nat, reach: nat)
    ensures Fits(first, first, room, room, 0, reach)
  {
  }

  lemma FitsEnough(
    first: nat, cursor: nat, size: nat, room: nat, k: nat, reach: nat, read: Ledger, longest: nat, n: nat,
    capacity: nat)
    requires Fits(first, cursor, size, room, k, reach) && reach <= |read| <= longest && k < n
    ensures room + longest + n < capacity ==> size + Unread(read, cursor) < capacity
  {
  }

  lemma FitsNext(
    first: nat, cursor: nat, size: nat, room: nat, k: nat, reach: nat, atRead: nat, next: nat, left: nat,
    further: nat)
    requires Fits(first, cursor, size, room, k, reach) && reach <= atRead <= further
    requires next == if cursor < atRead then atRead else cursor
    requires left <= size + (next - cursor) + 1
    ensures Fits(first, next, left, room, k + 1, further)
  {
  }

  lemma TurnInOrder(l: Ledger, turns: seq<Turn>, k: nat)
    requires Growing(l, turns) && k < |turns|
    ensures InOrder(Before(l, turns, k), turns[k]) && Before(l, turns, k + 1) == turns[k].atWait
    ensures |Before(l, turns, k)| <= |turns[k].atRead| <= |turns[k].atWait|
  {
  }

  /** No round reads more than the last one leaves. */
  lemma {:induction false} LastIsLongest(l: Ledger, turns: seq<Turn>, k: nat)
    requires Growing(l, turns) && k < |turns|
    ensures |turns[k].atRead| <= |Before(l, turns, |turns|)|
    decreases |turns| - k
  {
    assert InOrder(Before(l, turns, k), turns[k]);
    if k + 1 < |turns| {
      LastIsLongest(l, turns, k + 1);
      assert InOrder(Before(l, turns, k + 1), turns[k + 1]);
    }
  }

  /** A start the ledger has reached, or one whose stream had already ended. */
  ghost predicate Anchored(start: nat, origin: Ledger) {
    start <= |origin| || Reached(origin, 0, start)
  }

  /** The state of a connection: what it has sent, given the ledger at its start and now. */
  ghost predicate Sound(start: nat, origin: Ledger, seen: Ledger, sent: seq<nat>, cursor: nat, status: Status) {
    && origin <= seen && cursor == start + |sent| && sent <= Stream(seen, start, start)
    && (Reached(origin, 0, start) ==> sent == [])
    && (status == Ended ==> Reached(seen, 0, cursor))
  }

  lemma SoundGrows(
    start: nat, origin: Ledger, seen: Ledger, more: Ledger, sent: seq<nat>, cursor: nat, status: Status)
    requires Sound(start, origin, seen, sent, cursor, status) && seen <= more
    ensures Sound(start, origin, more, sent, cursor, status)
    ensures Reached(more, start, cursor) ==> Reached(seen, start, cursor)
  {
    StreamGrows(seen, more, start, start);
    ReachedGrows(seen, more, 0, cursor);
    if sent != [] { StreamIsConsecutive(seen, start, start, |sent| - 1); }
    ReachedGrows(seen, more, start, cursor);
  }

  /**
   An anchored connection has sent a prefix of what the client is owed, and all
   of it once the stream has ended.
   */
  lemma SentIsOwed(start: nat, origin: Ledger, seen: Ledger, sent: seq<nat>, cursor: nat, status: Status, more: Ledger)
    requires Sound(start, origin, seen, sent, cursor, status) && Anchored(start, origin) && seen <= more
    ensures sent <= Owed(more, start)
    ensures status == Ended ==> sent == Owed(more, start)
  {
    ReachedGrows(origin, seen, 0, start);
    ReachedGrows(seen, more, 0, start);
    if !Reached(origin, 0, start) {
      LowerTerminals(seen, start, start);
      StreamGrows(seen, more, 0, start);
      if status == Ended {
        StreamEnds(seen, more, 0, start, |sent|);
      }
    }
  }

  /** An open connection that has caught up with the ledger has sent all of the stream. */
  lemma AllSent(start: nat, origin: Ledger, seen: Ledger, sent: seq<nat>, cursor: nat)
    requires Sound(start, origin, seen, sent, cursor, Open) && cursor >= |seen|
    ensures sent == Stream(seen, start, start)
    ensures start <= |origin| ==> sent == Owed(seen, start)
  {
    StreamSplits(seen, start, start, |sent|);
    assert Stream(seen, start, cursor) == [];
    if start <= |origin| && !Reached(origin, 0, start) {
      ReachedGrows(origin, seen, 0, start);
      LowerTerminals(seen, start, start);
    } else if start <= |origin| {
      ReachedGrows(origin, seen, 0, start);
    }
  }

  lemma EndedSentAll(start: nat, origin: Ledger, seen: Ledger, sent: seq<nat>, cursor: nat, status: Status)
    requires Sound(start, origin, seen, sent, cursor, status)
    ensures status == Ended && Anchored(start, origin) ==> sent == Owed(seen, start)
  {
    if Anchored(start, origin) { SentIsOwed(start, origin, seen, sent, cursor, status, seen); }
  }

  lemma SendKeeps(
    start: nat, origin: Ledger, seen: Ledger, sent: seq<nat>, cursor: nat, ended: bool)
    requires Sound(start, origin, seen, sent, cursor, Open) && cursor < |seen| && !Reached(seen, start, cursor)
    requires !Reached(origin, 0, start) && ended == seen[cursor]
    ensures Sound(start, origin, seen, sent + [cursor + 1], cursor + 1, if ended then Ended else Open)
    ensures Reached(seen, start, cursor + 1) <==> ended
  {
    NextIsOwed(seen, start, start, sent, cursor);
    if ended { assert seen[cursor] && Reached(seen, 0, cursor + 1); }
  }

  class Connection {
    const start: nat
    const capacity: nat
    ghost const origin: Ledger
    var cursor: nat
    var queue: seq<Item>
    var status: Status
    ghost var seen: Ledger
    ghost var sent: seq<nat>
    ghost var yielded: seq<Item>

    /** What was yielded and is queued is what was sent, within the capacity. */
    ghost predicate Valid()
      reads this
    {
      && Sound(start, origin, seen, sent, cursor, status)
      && Ids(yielded + queue) == sent && |queue| <= capacity
    }

    constructor (start: nat, capacity: nat, ghost ledger: Ledger)
      ensures Valid() && this.start == start && this.capacity == capacity && seen == origin == ledger
      ensures status == Open && sent == [] && yielded == [] && queue == []
    {
      this.start, this.capacity, this.origin := start, capacity, ledger;
      cursor, queue, status := start, [], Open;
      seen, sent, yielded := ledger, [], [];
      new;
      assert yielded + queue == [];
    }

    /** The ledger has grown. */
    ghost method Observe(more: Ledger)
      requires Valid() && seen <= more
      modifies this`seen
      ensures Valid() && seen == more
      ensures Reached(more, start, cursor) ==> Reached(old(seen), start, cursor)
    {
      SoundGrows(start, origin, seen, more, sent, cursor, status);
      seen := more;
    }

    /** A full queue ends the connection. */
    method Enqueue(item: Item) returns (ok: bool)
      modifies this`queue, this`status
      ensures ok == (|old(queue)| < capacity)
      ensures status == if ok then old(status) else Overflowed
      ensures queue == if ok then old(queue) + [item] else old(queue)
    {
      if |queue| >= capacity {
        status := Overflowed;
        return false;
      }
      queue := queue + [item];
      return true;
    }

    /** Send the event that is owed next. */
    method Send(record: Record)
      requires Valid() && status == Open && cursor < |seen| && !Reached(seen, start, cursor)
      requires !Reached(origin, 0, start)
      requires record == Record(cursor + 1, seen[cursor])
      modifies this
      ensures Valid() && seen == old(seen) && yielded == old(yielded)
      ensures status == Overflowed <==> |old(queue)| == capacity
      ensures status == Overflowed ==> sent == old(sent)
      ensures status != Overflowed ==> sent == old(sent) + [record.sequence] && cursor == record.sequence
      ensures status != Overflowed ==> |queue| == |old(queue)| + 1
      ensures status == Ended <==> sent == old(sent) + [record.sequence] && record.terminal
      ensures status == Open ==> !Reached(seen, start, cursor)
      ensures status == Ended ==> Reached(seen, start, cursor)
    {
      SendKeeps(start, origin, seen, sent, cursor, record.terminal);
      IdsAppend(yielded + queue, Data(record.sequence));
      assert (yielded + queue) + [Data(record.sequence)] == yielded + (queue + [Data(record.sequence)]);
      var ok := Enqueue(Data(record.sequence));
      if !ok {
        return;
      }
      cursor := record.sequence;
      sent := sent + [record.sequence];
      if record.terminal {
        status := Ended;
      }
    }

    /** Deliver the records of one read, whatever order they came in. */
    method Deliver(read: seq<Record>) returns (delivered: bool)
      requires Valid() && status == Open && !Reached(seen, start, cursor)
      requires !Reached(origin, 0, start)
      requires multiset(read) == multiset(RecordsAfter(seen, cursor))
      modifies this
      ensures Valid() && seen == old(seen) && yielded == old(yielded) && old(sent) <= sent
      ensures status == Open ==> cursor >= |seen| && !Reached(seen, start, cursor) && (delivered <==> sent != old(sent))
      ensures status == Open && !delivered ==> queue == old(queue) && cursor == old(cursor)
      ensures |old(queue)| + |read| <= capacity ==> status != Overflowed
      ensures status == Open ==> cursor == old(cursor) + |read| && |queue| == |old(queue)| + |read|
      ensures status == Ended ==> Reached(seen, start, cursor)
    {
      hide Ids, Stream, Sound, RecordsAfter, SortBy;
      var records := SortBy(read, SequenceKey());
      SortedRead(seen, cursor, read);
      ghost var first := cursor;
      delivered := false;
      for i := 0 to |records|
        invariant Valid() && status == Open && !Reached(seen, start, cursor)
        invariant seen == old(seen) && yielded == old(yielded) && old(sent) <= sent
        invariant cursor == first + i && records == RecordsAfter(seen, first)
        invariant delivered <==> i > 0
        invariant |sent| == |old(sent)| + i && (i == 0 ==> queue == old(queue))
        invariant |queue| == |old(queue)| + i && |records| == |read|
      {
        var record := records[i];
        if record.sequence <= cursor {
          continue;
        }
        Send(record);
        if status != Open {
          return;
        }
        delivered := true;
      }
    }

    /**
     One round of the producer.  The ledger may grow before each observation:
     `atCheck`, `atRead` and `atWait` are what it then is.  A round that leaves
     the connection open has sent everything it read; one that read or found a
     terminal event has ended; the queue overflows only if it lacks the room.
     */
    method Round(
      ghost atCheck: Ledger, terminal: bool, ghost atRead: Ledger, read: seq<Record>, ghost atWait: Ledger, wait: Wait)
      requires Valid() && status == Open && !Reached(seen, start, cursor)
      requires seen <= atCheck <= atRead <= atWait
      requires terminal == Reached(atCheck, 0, cursor)
      requires multiset(read) == multiset(RecordsAfter(atRead, cursor))
      requires wait.TimedOut? ==> wait.more == (cursor < |atWait|) && wait.terminal == Reached(atWait, 0, cursor)
      modifies this
      ensures Valid() && seen == atWait && old(sent) <= sent && yielded == old(yielded)
      ensures status == Open ==> !Reached(seen, start, cursor)
      ensures Reached(atCheck, 0, old(cursor)) ==> status == Ended
      ensures status == Ended ==> terminal || Reached(atRead, start, cursor) || (wait.TimedOut? && wait.terminal)
      ensures Reached(atRead, start, |atRead|) ==> status != Open
      ensures status == Open ==> cursor >= |atRead| && sent == Stream(atRead, start, start)
      ensures status == Open && start <= |origin| ==> sent == Owed(atRead, start)
      ensures status == Ended && Anchored(start, origin) ==> sent == Owed(atWait, start)
      ensures |old(queue)| + |read| < capacity ==> status != Overflowed
      ensures status == Open ==>
                && cursor == (if old(cursor) < |atRead| then |atRead| else old(cursor))
                && |queue| <= |old(queue)| + (cursor - old(cursor)) + 1
    {
      hide Ids, RecordsAfter, Stream;
      Observe(atCheck);
      if terminal {
        status := Ended;
        Observe(atRead);
        Observe(atWait);
        EndedSentAll(start, origin, seen, sent, cursor, status);
        return;
      }
      NotEndedAtStart(start, origin, atCheck, cursor);
      Observe(atRead);
      ReadSize(atRead, cursor, read);
      var delivered := Deliver(read);
      if status == Open { AllSent(start, origin, seen, sent, cursor); }
      Observe(atWait);
      EndedSentAll(start, origin, seen, sent, cursor, status);
      if status != Open || delivered || wait == Woken || wait.more {
        return;
      }
      Rest(wait.terminal);
      EndedSentAll(start, origin, seen, sent, cursor, status);
    }

    /** One turn of the producer's loop: a round, and what the client takes before the next. */
    method Serve(t: Turn, arrange: seq<Record> -> seq<Record>)
      requires Valid() && status == Open && !Reached(seen, start, cursor) && InOrder(seen, t) && Arranges(arrange)
      modifies this
      ensures Valid() && seen == t.atWait && old(sent) <= sent && old(yielded) <= yielded
      ensures status == Open ==>
                && !Reached(seen, start, cursor) && !Reached(t.atRead, start, |t.atRead|)
                && sent == Stream(t.atRead, start, start) && (start <= |origin| ==> sent == Owed(t.atRead, start))
                && cursor == (if old(cursor) < |t.atRead| then |t.atRead| else old(cursor))
                && |queue| <= |old(queue)| + (cursor - old(cursor)) + 1
      ensures status == Ended && Anchored(start, origin) ==> sent == Owed(t.atWait, start)
      ensures |old(queue)| + Unread(t.atRead, old(cursor)) < capacity ==> status != Overflowed
    {
      hide Ids, Stream, Arranges, RecordsAfter, Sound, Owed;
      var wait := if t.woken then Woken else TimedOut(cursor < |t.atWait|, Reached(t.atWait, 0, cursor));
      var read := Read(t.atRead, cursor, arrange);
      ReadSize(t.atRead, cursor, read);
      Round(t.atCheck, Reached(t.atCheck, 0, cursor), t.atRead, read, t.atWait, wait);
      if status == Open {
        Take(t.takes);
      }
    }

    /**
     The producer's loop, with the ledger growing between any two observations
     and each read in any order.  While it stays open the client has been given
     exactly what the ledger owed it at the last read, and at the end all of it.
     */
    method Produce(turns: seq<Turn>, arrange: seq<Record> -> seq<Record>)
      requires Valid() && status == Open && !Reached(seen, start, cursor) && Growing(seen, turns)
      requires Arranges(arrange)
      modifies this
      ensures Valid() && old(sent) <= sent && old(yielded) <= yielded
      ensures status == Open && turns != [] ==>
                var last := turns[|turns| - 1].atRead;
                && Ids(yielded + queue) == Stream(last, start, start) && !Reached(last, start, |last|)
                && (start <= |origin| ==> Ids(yielded + queue) == Owed(last, start))
      ensures status == Ended && Anchored(start, origin) ==> Ids(yielded + queue) == Owed(seen, start)
      ensures |old(queue)| + |Before(old(seen), turns, |turns|)| + |turns| < capacity ==> status != Overflowed
    {
      ghost var first, room, longest := cursor, |queue|, |Before(seen, turns, |turns|)|;
      assert Before(seen, turns, 0) == seen;
      hide Ids, Stream, Arranges, Fits, RecordsAfter, Sound, Owed, Reached, Growing, InOrder, Before, Unread;
      FitsAtFirst(first, room, |seen|);
      for k := 0 to |turns|
        invariant Valid() && status == Open && !Reached(seen, start, cursor)
        invariant old(sent) <= sent && old(yielded) <= yielded && first == old(cursor) && room == |old(queue)|
        invariant longest == |Before(old(seen), turns, |turns|)|
        invariant seen == Before(old(seen), turns, k)
        invariant k > 0 ==> sent == Stream(turns[k - 1].atRead, start, start)
        invariant k > 0 ==> !Reached(turns[k - 1].atRead, start, |turns[k - 1].atRead|)
        invariant k > 0 && start <= |origin| ==> sent == Owed(turns[k - 1].atRead, start)
        invariant Fits(first, cursor, |queue|, room, k, |seen|)
      {
        TurnInOrder(old(seen), turns, k);
        LastIsLongest(old(seen), turns, k);
        FitsEnough(first, cursor, |queue|, room, k, |seen|, turns[k].atRead, longest, |turns|, capacity);
        ghost var before, size, reach := cursor, |queue|, |seen|;
        Serve(turns[k], arrange);
        if status != Open {
          return;
        }
        FitsNext(first, before, size, room, k, reach, |turns[k].atRead|, cursor, |queue|, |seen|);
      }
    }

    /** The client takes some of the queued items. */
    method Take(count: nat)
      requires Valid()
      modifies this`queue, this`yielded
      ensures Valid() && old(yielded) <= yielded && yielded + queue == old(yielded + queue) && |queue| <= |old(queue)|
    {
      for i := 0 to count
        invariant Valid() && old(yielded) <= yielded && yielded + queue == old(yielded + queue)
        invariant |queue| <= |old(queue)|
      {
        if queue != [] {
          var item := Yield();
        }
      }
    }

    /** Nothing came: the stream is over, or the client gets a sign of life. */
    method Rest(terminal: bool)
      requires Valid() && status == Open && terminal == Reached(seen, 0, cursor)
      modifies this
      ensures Valid() && seen == old(seen) && sent == old(sent) && yielded == old(yielded) && cursor == old(cursor)
      ensures terminal ==> status == Ended
      ensures |old(queue)| < capacity ==> status != Overflowed
      ensures |queue| <= |old(queue)| + 1
    {
      if terminal {
        status := Ended;
        return;
      }
      IdsAppend(yielded + queue, Heartbeat);
      assert (yielded + queue) + [Heartbeat] == yielded + (queue + [Heartbeat]);
      assert Ids(yielded + queue) + [] == Ids(yielded + queue);
      var ok := Enqueue(Heartbeat);
    }

    /** The client takes the next item. */
    method Yield() returns (item: Item)
      requires Valid() && queue != []
      modifies this`queue, this`yielded
      ensures Valid() && item == old(queue)[0] && queue == old(queue)[1..] && yielded == old(yielded) + [item]
    {
      item := queue[0];
      assert yielded + queue == (yielded + [item]) + queue[1..];
      queue, yielded := queue[1..], yielded + [item];
    }
  }

  lemma NotEndedAtStart(start: nat, origin: Ledger, l: Ledger, cursor: nat)
    requires origin <= l && start <= cursor
    ensures Reached(origin, 0, start) ==> Reached(l, 0, cursor)
  {
    if Reached(origin, 0, start) {
      var i :| 0 <= i < |origin| && i < start && origin[i];
      assert l[i];
    }
  }

  /** At any moment the ids the client has received are a prefix of what it is owed, without gap or repetition. */
  lemma ClientSeesPrefix(c: Connection, more: Ledger)
    requires c.Valid() && c.start <= |c.origin| && c.seen <= more
    ensures Ids(c.yielded) <= Owed(more, c.start)
    ensures c.status == Ended ==> Ids(c.yielded) + Ids(c.queue) == Owed(more, c.start)
  {
    SentIsOwed(c.start, c.origin, c.seen, c.sent, c.cursor, c.status, more);
    IdsConcat(c.yielded, c.queue);
  }

  /** What a connection has sent is owed, whatever happens, exactly when its start is anchored. */
  lemma OwedExactlyWhenAnchored(start: nat, origin: Ledger)
    ensures (forall seen, sent, cursor, status :: Sound(start, origin, seen, sent, cursor, status)
                                                  ==> sent <= Owed(seen, start))
            <==> Anchored(start, origin)
  {
    if Anchored(start, origin) {
      forall seen, sent, cursor, status | Sound(start, origin, seen, sent, cursor, status)
        ensures sent <= Owed(seen, start)
      {
        SentIsOwed(start, origin, seen, sent, cursor, status, seen);
      }
    } else {
      var seen := Overtaken(start, origin);
      UnowedIsStreamed(start, origin);
      assert Sound(start, origin, seen, [start + 1], start + 1, Open);
    }
  }

  /** How the ledger may overtake a start ahead of it: a terminal event below the start, one event above it. */
  function Overtaken(start: nat, origin: Ledger): (l: Ledger)
    requires start > |origin|
    ensures origin < l && |l| == start + 1 && l[|origin|]
    ensures forall i :: |origin| < i < |l| ==> !l[i]
  {
    origin + [true] + seq(start - |origin|, _ => false)
  }

  lemma UnowedIsStreamed(start: nat, origin: Ledger)
    requires start > |origin|
    ensures var l := Overtaken(start, origin);
            Stream(l, start, start) == [start + 1] && Owed(l, start) == [] && !Reached(l, start, start + 1)
  {
    var l := Overtaken(start, origin);
    assert l[|origin|] && Reached(l, 0, start);
    assert !l[start];
    assert !Reached(l, start, start) && !Reached(l, start, start + 1);
    assert Stream(l, start, start + 1) == [];
  }

  /**
   From every start that is not anchored a run of the producer sends what is not
   owed: the terminal event below the start is committed between the check and
   the read.
   */
  method AheadOfLedger(start: nat, origin: Ledger) returns (c: Connection)
    requires !Anchored(start, origin)
    ensures fresh(c) && c.Valid() && c.start == start && c.origin == origin && c.status == Open
    ensures c.sent == [start + 1] && Owed(c.seen, start) == []
  {
    var l := Overtaken(start, origin);
    UnowedIsStreamed(start, origin);
    c := new Connection(start, 2, origin);
    assert !Reached(origin, start, start);
    c.Round(origin, false, l, RecordsAfter(l, start), l, Woken);
  }

  // ----- admission -----

  /** The number of open connections, and one lease for each. */
  class ConnectionManager {
    const limit: nat
    var active: nat
    ghost var leases: set<Lease>

    ghost predicate Valid()
      reads this, leases
    {
      && limit >= 1 && active <= limit && active == |leases|
      && forall l :: l in leases ==> l.manager == this && !l.closed
    }

    constructor (limit: nat)
      requires limit >= 1
      ensures Valid() && active == 0 && leases == {} && this.limit == limit
    {
      this.limit, active, leases := limit, 0, {};
    }

    /** A lease is granted exactly while there is room. */
    method Acquire() returns (lease: Lease?)
      requires Valid()
      modifies this
      ensures Valid()
      ensures lease == null <==> old(active) == limit
      ensures lease != null ==> fresh(lease) && leases == old(leases) + {lease} && active == old(active) + 1
      ensures lease == null ==> leases == old(leases)
    {
      if active >= limit {
        return null;
      }
      lease := new Lease(this);
      active := active + 1;
      leases := leases + {lease};
    }
  }

  class Lease {
    const manager: ConnectionManager
    var closed: bool

    constructor (manager: ConnectionManager)
      ensures this.manager == manager && !closed
    {
      this.manager, closed := manager, false;
    }

    /** Closing returns the place once, however often it is called. */
    method Close()
      requires manager.Valid() && (closed || this in manager.leases)
      modifies this, manager
      ensures manager.Valid() && closed
      ensures manager.leases == old(manager.leases) - {this}
      ensures manager.active == old(manager.active) - (if old(closed) then 0 else 1)
    {
      if !closed {
        closed := true;
        manager.active := if manager.active == 0 then 0 else manager.active - 1;
        manager.leases := manager.leases - {this};
      }
    }
  }
}
