/**
 The in-memory FIFO in front of the verified ref (`runtime/integration.py`).
 */
module IntegrationQueue {
  import opened Options

  type Oid = string

  datatype Item = Item(
    run: string, slice: string, generation: Option<nat>, candidate: Oid, passed: bool,
    repair: bool, decision: Option<string>)

  datatype Start = Started(item: Item, base: Oid) | NotStarted | IllegalHead

  datatype Completion = Completion(item: Item) | NoActive | MissingOid

  /** An item without the mark that its prospective checks passed. */
  function Plain(item: Item): Item {
    item.(passed := false)
  }

  function PlainAll(items: seq<Item>): (r: seq<Item>)
    ensures |r| == |items|
  {
    if items == [] then [] else [Plain(items[0])] + PlainAll(items[1..])
  }

  lemma {:induction false} PlainAppend(items: seq<Item>, x: Item)
    ensures PlainAll(items + [x]) == PlainAll(items) + [Plain(x)]
  {
    if items == [] {
      assert items + [x] == [x];
    } else {
      assert (items + [x])[1..] == items[1..] + [x];
      PlainAppend(items[1..], x);
    }
  }

  predicate SameSlot(item: Item, run: string, slice: string, generation: Option<nat>) {
    item.run == run && item.slice == slice && item.generation == generation
  }

  function Mark(item: Item, run: string, slice: string, generation: Option<nat>): Item {
    if SameSlot(item, run, slice, generation) then item.(passed := true) else item
  }

  function MarkAll(items: seq<Item>, run: string, slice: string, generation: Option<nat>): (r: seq<Item>)
    ensures |r| == |items| && PlainAll(r) == PlainAll(items)
    ensures items != [] ==> r[0] == Mark(items[0], run, slice, generation)
  {
    if items == [] then [] else [Mark(items[0], run, slice, generation)] + MarkAll(items[1..], run, slice, generation)
  }

  function OfWholeRun(run: string): Item -> bool {
    (item: Item) => item.run == run
  }

  function OfSlice(run: string, slice: string): Item -> bool {
    (item: Item) => item.run == run && item.slice == slice
  }

  /** The items a filter keeps, in order. */
  function Keep(items: seq<Item>, drop: Item -> bool): seq<Item> {
    if items == [] then [] else (if drop(items[0]) then [] else [items[0]]) + Keep(items[1..], drop)
  }

  /** The items it removes, in order. */
  function Dropped(items: seq<Item>, drop: Item -> bool): seq<Item> {
    if items == [] then [] else (if drop(items[0]) then [items[0]] else []) + Dropped(items[1..], drop)
  }

  predicate NoneOf(items: seq<Item>, runs: set<string>) {
    if items == [] then true else items[0].run !in runs && NoneOf(items[1..], runs)
  }

  /** `a` is obtained from `b` by leaving items out. */
  ghost predicate Subsequence(a: seq<Item>, b: seq<Item>) {
    if a == [] then true
    else if b == [] then false
    else (a[0] == b[0] && Subsequence(a[1..], b[1..])) || Subsequence(a, b[1..])
  }

  lemma {:induction false} SubsequenceSelf(a: seq<Item>)
    ensures Subsequence(a, a)
  {
    if a != [] { SubsequenceSelf(a[1..]); }
  }

  lemma {:induction false} SubsequenceTail(a: seq<Item>, b: seq<Item>)
    requires a != [] && Subsequence(a, b)
    ensures Subsequence(a[1..], b)
  {
    if !(a[0] == b[0] && Subsequence(a[1..], b[1..])) {
      SubsequenceTail(a, b[1..]);
    }
    SubsequenceSkip(a[1..], b);
  }

  lemma SubsequenceSkip(a: seq<Item>, b: seq<Item>)
    requires b != [] && Subsequence(a, b[1..])
    ensures Subsequence(a, b)
  {
  }

  lemma {:induction false} SubsequenceAppend(a: seq<Item>, b: seq<Item>, x: Item)
    requires Subsequence(a, b)
    ensures Subsequence(a + [x], b + [x])
    decreases |b|
  {
    if b == [] {
      assert a + [x] == [x];
      SubsequenceSelf([x]);
    } else {
      assert (b + [x])[1..] == b[1..] + [x];
      if a == [] {
        SubsequenceAppend(a, b[1..], x);
        assert ([] + [x]) == a + [x];
        SubsequenceSkip(a + [x], b + [x]);
      } else if a[0] == b[0] && Subsequence(a[1..], b[1..]) {
        SubsequenceAppend(a[1..], b[1..], x);
        assert (a + [x])[1..] == a[1..] + [x];
      } else {
        SubsequenceAppend(a, b[1..], x);
      }
    }
  }

  lemma {:induction false} SubsequenceTransitive(a: seq<Item>, b: seq<Item>, c: seq<Item>)
    requires Subsequence(a, b) && Subsequence(b, c)
    ensures Subsequence(a, c)
    decreases |c|
  {
    if a != [] && b != [] {
      if b[0] == c[0] && Subsequence(b[1..], c[1..]) {
        if a[0] == b[0] && Subsequence(a[1..], b[1..]) {
          SubsequenceTransitive(a[1..], b[1..], c[1..]);
        } else {
          SubsequenceTransitive(a, b[1..], c[1..]);
        }
      } else {
        SubsequenceTransitive(a, b, c[1..]);
      }
    }
  }

  lemma {:induction false} SubsequenceUnder(prefix: seq<Item>, a: seq<Item>, b: seq<Item>)
    requires Subsequence(a, b)
    ensures Subsequence(prefix + a, prefix + b)
  {
    if prefix == [] {
      assert prefix + a == a && prefix + b == b;
    } else {
      assert (prefix + a)[1..] == prefix[1..] + a && (prefix + b)[1..] == prefix[1..] + b;
      SubsequenceUnder(prefix[1..], a, b);
    }
  }

  lemma {:induction false} KeepIsSubsequence(items: seq<Item>, drop: Item -> bool)
    ensures Subsequence(PlainAll(Keep(items, drop)), PlainAll(items))
  {
    if items != [] {
      var rest := Keep(items[1..], drop);
      KeepIsSubsequence(items[1..], drop);
      assert PlainAll(items)[1..] == PlainAll(items[1..]);
      if drop(items[0]) {
        assert Keep(items, drop) == rest;
        SubsequenceSkip(PlainAll(rest), PlainAll(items));
      } else {
        assert Keep(items, drop)[1..] == rest;
        assert PlainAll(Keep(items, drop))[1..] == PlainAll(rest);
      }
    }
  }

  lemma MultisetCons(x: Item, s: seq<Item>)
    ensures multiset([x] + s) == multiset{x} + multiset(s)
  {
  }

  lemma {:induction false} KeepConserves(items: seq<Item>, drop: Item -> bool)
    ensures multiset(PlainAll(items))
        == multiset(PlainAll(Keep(items, drop))) + multiset(PlainAll(Dropped(items, drop)))
  {
    if items != [] {
      var kept, gone := Keep(items[1..], drop), Dropped(items[1..], drop);
      var x := Plain(items[0]);
      KeepConserves(items[1..], drop);
      MultisetCons(x, PlainAll(items[1..]));
      if drop(items[0]) {
        assert Keep(items, drop) == kept;
        assert ([items[0]] + gone)[1..] == gone;
        assert PlainAll(Dropped(items, drop)) == [x] + PlainAll(gone);
        MultisetCons(x, PlainAll(gone));
      } else {
        assert Dropped(items, drop) == gone;
        assert ([items[0]] + kept)[1..] == kept;
        assert PlainAll(Keep(items, drop)) == [x] + PlainAll(kept);
        MultisetCons(x, PlainAll(kept));
      }
    }
  }

  /** A filter leaves every item it does not drop, as often as it was there, and in order. */
  lemma {:induction false} KeepExact(items: seq<Item>, drop: Item -> bool)
    ensures Subsequence(Keep(items, drop), items)
    ensures forall x :: multiset(Keep(items, drop))[x] == if drop(x) then 0 else multiset(items)[x]
  {
    if items != [] {
      var rest := Keep(items[1..], drop);
      KeepExact(items[1..], drop);
      MultisetCons(items[0], items[1..]);
      assert items == [items[0]] + items[1..];
      if !drop(items[0]) {
        MultisetCons(items[0], rest);
        assert Keep(items, drop)[1..] == rest;
      } else {
        assert Keep(items, drop) == rest;
        SubsequenceSkip(rest, items);
      }
    }
  }

  lemma ConsRuns(x: Item, items: seq<Item>, runs: set<string>)
    requires x.run !in runs && NoneOf(items, runs)
    ensures NoneOf([x] + items, runs)
  {
    assert ([x] + items)[1..] == items;
  }

  lemma KeepHead(items: seq<Item>, drop: Item -> bool)
    requires items != [] && !drop(items[0])
    ensures Keep(items, drop) != [] && Keep(items, drop)[0] == items[0]
  {
    assert Keep(items, drop) == [items[0]] + Keep(items[1..], drop);
  }

  lemma {:induction false} KeepRuns(items: seq<Item>, drop: Item -> bool, runs: set<string>)
    requires NoneOf(items, runs)
    ensures NoneOf(Keep(items, drop), runs)
  {
    if items != [] {
      var rest := Keep(items[1..], drop);
      KeepRuns(items[1..], drop, runs);
      if drop(items[0]) {
        assert Keep(items, drop) == rest;
      } else {
        ConsRuns(items[0], rest, runs);
      }
    }
  }

  lemma {:induction false} KeepExcludesRun(items: seq<Item>, run: string, runs: set<string>)
    requires NoneOf(items, runs)
    ensures NoneOf(Keep(items, OfWholeRun(run)), runs + {run})
  {
    if items != [] {
      var rest := Keep(items[1..], OfWholeRun(run));
      KeepExcludesRun(items[1..], run, runs);
      if items[0].run == run {
        assert Keep(items, OfWholeRun(run)) == rest;
      } else {
        ConsRuns(items[0], rest, runs + {run});
      }
    }
  }

  lemma {:induction false} MarkRuns(
    items: seq<Item>, run: string, slice: string, generation: Option<nat>, runs: set<string>)
    requires NoneOf(items, runs)
    ensures NoneOf(MarkAll(items, run, slice, generation), runs)
  {
    if items != [] {
      MarkRuns(items[1..], run, slice, generation, runs);
      assert MarkAll(items, run, slice, generation)[1..] == MarkAll(items[1..], run, slice, generation);
    }
  }

  lemma {:induction false} AppendRuns(items: seq<Item>, x: Item, runs: set<string>)
    requires NoneOf(items, runs) && x.run !in runs
    ensures NoneOf(items + [x], runs)
  {
    if items == [] {
      assert items + [x] == [x];
    } else {
      assert (items + [x])[1..] == items[1..] + [x];
      AppendRuns(items[1..], x, runs);
    }
  }

  // ----- the account of a channel -----

  /** Items leave in the order they were accepted, and every accepted one is finished, queued or removed. */
  ghost predicate Accounted(accepted: seq<Item>, finished: seq<Item>, queue: seq<Item>, removed: seq<Item>) {
    && Subsequence(finished + PlainAll(queue), accepted)
    && multiset(accepted) == multiset(finished) + multiset(PlainAll(queue)) + multiset(removed)
  }

  lemma AcceptAccounts(accepted: seq<Item>, finished: seq<Item>, queue: seq<Item>, removed: seq<Item>, x: Item)
    requires Accounted(accepted, finished, queue, removed)
    ensures Accounted(accepted + [Plain(x)], finished, queue + [x], removed)
  {
    hide Subsequence;
    PlainAppend(queue, x);
    SubsequenceAppend(finished + PlainAll(queue), accepted, Plain(x));
    assert finished + (PlainAll(queue) + [Plain(x)]) == (finished + PlainAll(queue)) + [Plain(x)];
  }

  lemma FilterAccounts(
    accepted: seq<Item>, finished: seq<Item>, queue: seq<Item>, removed: seq<Item>, drop: Item -> bool)
    requires Accounted(accepted, finished, queue, removed)
    ensures Accounted(accepted, finished, Keep(queue, drop), removed + PlainAll(Dropped(queue, drop)))
  {
    KeepConserves(queue, drop);
    KeepIsSubsequence(queue, drop);
    SubsequenceUnder(finished, PlainAll(Keep(queue, drop)), PlainAll(queue));
    SubsequenceTransitive(finished + PlainAll(Keep(queue, drop)), finished + PlainAll(queue), accepted);
  }

  lemma FinishAccounts(accepted: seq<Item>, finished: seq<Item>, queue: seq<Item>, removed: seq<Item>)
    requires queue != [] && Accounted(accepted, finished, queue, removed)
    ensures Accounted(accepted, finished + [Plain(queue[0])], queue[1..], removed)
  {
    assert (finished + [Plain(queue[0])]) + PlainAll(queue[1..]) == finished + PlainAll(queue);
    MultisetCons(Plain(queue[0]), PlainAll(queue[1..]));
  }

  /** The active item is the queue head, its checks passed and its head is known; the account holds. */
  ghost predicate Sound(
    queue: seq<Item>, active: Option<Item>, heads: map<string, Oid>, cancelled: set<string>,
    accepted: seq<Item>, finished: seq<Item>, removed: seq<Item>)
  {
    && (active.Some? ==>
          queue != [] && queue[0] == active.value && active.value.passed && active.value.run in heads)
    && NoneOf(queue, cancelled)
    && Accounted(accepted, finished, queue, removed)
  }

  lemma FilterIsSound(
    queue: seq<Item>, active: Option<Item>, heads: map<string, Oid>, cancelled: set<string>,
    accepted: seq<Item>, finished: seq<Item>, removed: seq<Item>, drop: Item -> bool)
    requires Sound(queue, active, heads, cancelled, accepted, finished, removed)
    requires active.Some? ==> !drop(active.value)
    ensures var gone := removed + PlainAll(Dropped(queue, drop));
            Sound(Keep(queue, drop), active, heads, cancelled, accepted, finished, gone)
  {
    FilterAccounts(accepted, finished, queue, removed, drop);
    KeepRuns(queue, drop, cancelled);
    if active.Some? { KeepHead(queue, drop); }
  }

  lemma CancelIsSound(
    queue: seq<Item>, active: Option<Item>, heads: map<string, Oid>, cancelled: set<string>,
    accepted: seq<Item>, finished: seq<Item>, removed: seq<Item>, run: string)
    requires Sound(queue, active, heads, cancelled, accepted, finished, removed)
    requires active.Some? ==> active.value.run != run
    ensures Sound(
              Keep(queue, OfWholeRun(run)), active, heads, cancelled + {run},
              accepted, finished, removed + PlainAll(Dropped(queue, OfWholeRun(run))))
  {
    FilterIsSound(queue, active, heads, cancelled, accepted, finished, removed, OfWholeRun(run));
    KeepExcludesRun(queue, run, cancelled);
  }

  lemma FinishIsSound(
    queue: seq<Item>, active: Option<Item>, heads: map<string, Oid>, cancelled: set<string>,
    accepted: seq<Item>, finished: seq<Item>, removed: seq<Item>, newHeads: map<string, Oid>)
    requires active.Some? && Sound(queue, active, heads, cancelled, accepted, finished, removed)
    ensures Sound(queue[1..], None, newHeads, cancelled, accepted, finished + [Plain(queue[0])], removed)
  {
    FinishAccounts(accepted, finished, queue, removed);
  }

  /** The head that the last finished item of a Run left. */
  ghost function LastHead(finished: seq<Item>, left: seq<Oid>, run: string): Option<Oid>
    requires |left| == |finished|
  {
    if finished == [] then None
    else if finished[|finished| - 1].run == run then Some(left[|left| - 1])
    else LastHead(finished[..|finished| - 1], left[..|left| - 1], run)
  }

  /** The known head of a Run is the one its last success left, or else the registered one. */
  ghost predicate HeadsTraced(
    heads: map<string, Oid>, registered: map<string, Oid>, finished: seq<Item>, left: seq<Oid>)
  {
    && |left| == |finished|
    && forall run ::
         match LastHead(finished, left, run)
         case Some(head) => run in heads && heads[run] == head
         case None => (run in heads <==> run in registered) && (run in heads ==> heads[run] == registered[run])
  }

  lemma FinishTraces(
    heads: map<string, Oid>, registered: map<string, Oid>, finished: seq<Item>, left: seq<Oid>, item: Item, head: Oid)
    requires HeadsTraced(heads, registered, finished, left)
    ensures HeadsTraced(heads[item.run := head], registered, finished + [Plain(item)], left + [head])
  {
    assert (finished + [Plain(item)])[..|finished|] == finished && (left + [head])[..|left|] == left;
  }

  /**
   One FIFO channel.  The ghost fields record what was accepted, finished and
   removed since construction, the heads the finished items left, and the heads
   that were registered.
   */
  class IntegrationCoordinator {
    var queue: seq<Item>
    var active: Option<Item>
    var verifiedHeads: map<string, Oid>
    var cancelledRuns: set<string>
    ghost var accepted: seq<Item>
    ghost var finished: seq<Item>
    ghost var removed: seq<Item>
    ghost var left: seq<Oid>
    ghost var registered: map<string, Oid>

    ghost predicate Valid()
      reads this
    {
      && Sound(queue, active, verifiedHeads, cancelledRuns, accepted, finished, removed)
      && HeadsTraced(verifiedHeads, registered, finished, left)
    }

    constructor ()
      ensures Valid() && queue == [] && active == None && verifiedHeads == map[] && cancelledRuns == {}
      ensures accepted == finished == removed == [] && left == [] && registered == map[]
    {
      queue, active, verifiedHeads, cancelledRuns := [], None, map[], {};
      accepted, finished, removed, left, registered := [], [], [], [], map[];
    }

    method Enqueue(item: Item) returns (ok: bool)
      requires Valid()
      modifies this`queue, this`accepted
      ensures Valid()
      ensures ok <==> item.run !in cancelledRuns
      ensures queue == old(queue) + (if ok then [item] else [])
      ensures accepted == old(accepted) + (if ok then [Plain(item)] else [])
    {
      if item.run in cancelledRuns {
        return false;
      }
      AcceptAccounts(accepted, finished, queue, removed, item);
      AppendRuns(queue, item, cancelledRuns);
      queue := queue + [item];
      accepted := accepted + [Plain(item)];
      return true;
    }

    /** A repair result enters like any other item, once it is marked as one. */
    method EnqueueRepair(item: Item) returns (legal: bool, ok: bool)
      requires Valid()
      modifies this`queue, this`accepted
      ensures Valid()
      ensures legal <==> item.repair && item.generation.None? && item.decision.Some? && item.decision.value != ""
      ensures !legal ==> queue == old(queue) && accepted == old(accepted)
      ensures legal ==> (ok <==> item.run !in cancelledRuns) && queue == old(queue) + (if ok then [item] else [])
    {
      if !item.repair || item.generation.Some? || item.decision.None? || item.decision.value == "" {
        return false, false;
      }
      ok := Enqueue(item);
      legal := true;
    }

    /** The queue loses the items of a filter; they are recorded as removed. */
    method RemoveWhere(drop: Item -> bool)
      requires Valid()
      requires active.Some? ==> !drop(active.value)
      modifies this`queue, this`removed
      ensures Valid()
      ensures queue == Keep(old(queue), drop) && removed == old(removed) + PlainAll(Dropped(old(queue), drop))
    {
      FilterIsSound(queue, active, verifiedHeads, cancelledRuns, accepted, finished, removed, drop);
      queue, removed := Keep(queue, drop), removed + PlainAll(Dropped(queue, drop));
    }

    method CancelRun(run: string)
      requires Valid()
      modifies this`queue, this`removed, this`active, this`cancelledRuns
      ensures Valid()
      ensures cancelledRuns == old(cancelledRuns) + {run}
      ensures queue == Keep(old(queue), OfWholeRun(run))
      ensures forall item :: item in queue <==> item in old(queue) && item.run != run
      ensures removed == old(removed) + PlainAll(Dropped(old(queue), OfWholeRun(run)))
      ensures active == if old(active).Some? && old(active).value.run == run then None else old(active)
    {
      hide HeadsTraced, LastHead, Accounted, NoneOf, Keep, Dropped, PlainAll;
      KeepMembers(queue, OfWholeRun(run));
      if active.Some? && active.value.run == run {
        active := None;
      }
      CancelIsSound(queue, active, verifiedHeads, cancelledRuns, accepted, finished, removed, run);
      queue, removed := Keep(queue, OfWholeRun(run)), removed + PlainAll(Dropped(queue, OfWholeRun(run)));
      cancelledRuns := cancelledRuns + {run};
    }

    /** Withdraw the unstarted items of a slice; the active item is never withdrawn. */
    method RevokeSlice(run: string, slice: string) returns (legal: bool, changed: bool)
      requires Valid()
      modifies this`queue, this`removed
      ensures Valid()
      ensures legal <==> !(active.Some? && active.value.run == run && active.value.slice == slice)
      ensures !legal ==> queue == old(queue) && removed == old(removed)
      ensures legal ==> queue == Keep(old(queue), OfSlice(run, slice))
      ensures legal ==>
                forall item :: item in queue <==> item in old(queue) && !(item.run == run && item.slice == slice)
      ensures legal ==> (changed <==> exists item :: item in old(queue) && item.run == run && item.slice == slice)
    {
      if active.Some? && active.value.run == run && active.value.slice == slice {
        return false, false;
      }
      ghost var before := queue;
      var count := |queue|;
      RemoveWhere(OfSlice(run, slice));
      KeepLength(before, OfSlice(run, slice));
      KeepMembers(before, OfSlice(run, slice));
      return true, |queue| != count;
    }

    method MarkProspectivePassed(run: string, slice: string, generation: Option<nat>)
      requires Valid()
      modifies this`queue
      ensures Valid()
      ensures queue == MarkAll(old(queue), run, slice, generation)
      ensures |queue| == |old(queue)| && forall i :: 0 <= i < |queue| ==>
                var item := old(queue)[i];
                var meant := item.run == run && item.slice == slice && item.generation == generation;
                queue[i] == item.(passed := item.passed || meant)
    {
      MarkedAt(queue, run, slice, generation);
      MarkRuns(queue, run, slice, generation, cancelledRuns);
      queue := MarkAll(queue, run, slice, generation);
    }

    /** A known head is never replaced by registration. */
    method RegisterVerifiedHead(run: string, head: Oid) returns (ok: bool)
      requires Valid()
      modifies this`verifiedHeads, this`registered
      ensures Valid()
      ensures registered == if ok && run !in old(verifiedHeads) then old(registered)[run := head] else old(registered)
      ensures ok <==> run != "" && head != "" && (run in old(verifiedHeads) ==> old(verifiedHeads)[run] == head)
      ensures verifiedHeads == if ok then old(verifiedHeads)[run := head] else old(verifiedHeads)
    {
      if run == "" || head == "" || (run in verifiedHeads && verifiedHeads[run] != head) {
        return false;
      }
      if run !in verifiedHeads {
        registered := registered[run := head];
      }
      verifiedHeads := verifiedHeads[run := head];
      return true;
    }

    /**
     Start only the queue head, only when nothing is active, and from the head
     the previous success of its Run left, or from the given one if there is none.
     */
    method StartNext(run: string, latest: Option<Oid>) returns (start: Start)
      requires Valid()
      modifies this`active, this`verifiedHeads, this`registered
      ensures Valid()
      ensures start.Started? <==>
              && old(active) == None && run !in cancelledRuns
              && queue != [] && queue[0].run == run && queue[0].passed
              && (run in old(verifiedHeads) || (latest.Some? && run != "" && latest.value != ""))
      ensures start.Started? ==>
              && start.item == queue[0] && active == Some(queue[0])
              && verifiedHeads == old(verifiedHeads)[run := start.base]
              && match LastHead(finished, left, run)
                 case Some(head) => start.base == head && registered == old(registered)
                 case None =>
                   && start.base == (if run in old(registered) then old(registered)[run] else latest.value)
                   && registered == old(registered)[run := start.base]
      ensures !start.Started? ==>
                active == old(active) && verifiedHeads == old(verifiedHeads) && registered == old(registered)
    {
      hide Accounted, NoneOf, Subsequence, PlainAll;
      if active.Some? || run in cancelledRuns || queue == [] || queue[0].run != run || !queue[0].passed {
        return NotStarted;
      }
      if run !in verifiedHeads {
        if latest.None? {
          return NotStarted;
        }
        var ok := RegisterVerifiedHead(run, latest.value);
        if !ok {
          return IllegalHead;
        }
      }
      active := Some(queue[0]);
      return Started(queue[0], verifiedHeads[run]);
    }

    /** Success moves the active item from the queue to the finished ones and advances its Run's head. */
    method Complete(success: bool, newHead: Option<Oid>) returns (completion: Completion)
      requires Valid()
      modifies this`queue, this`active, this`verifiedHeads, this`finished, this`left
      ensures Valid()
      ensures completion.NoActive? <==> old(active) == None
      ensures completion.MissingOid? <==> old(active).Some? && success && newHead.None?
      ensures !completion.Completion? ==>
              && queue == old(queue) && active == old(active)
              && verifiedHeads == old(verifiedHeads) && finished == old(finished) && left == old(left)
      ensures completion.Completion? ==> completion.item == old(active).value && active == None
      ensures completion.Completion? && success ==>
              && queue == old(queue)[1..] && finished == old(finished) + [Plain(old(queue)[0])]
              && left == old(left) + [newHead.value]
              && verifiedHeads == old(verifiedHeads)[completion.item.run := newHead.value]
      ensures completion.Completion? && !success ==>
              && queue == old(queue) && finished == old(finished) && left == old(left)
              && verifiedHeads == old(verifiedHeads)
    {
      hide Accounted, NoneOf, Subsequence, PlainAll, LastHead, HeadsTraced;
      if active.None? {
        return NoActive;
      }
      var item := active.value;
      if success {
        if newHead.None? {
          return MissingOid;
        }
        ghost var heads := verifiedHeads;
        verifiedHeads := verifiedHeads[item.run := newHead.value];
        FinishIsSound(queue, active, heads, cancelledRuns, accepted, finished, removed, verifiedHeads);
        FinishTraces(heads, registered, finished, left, item, newHead.value);
        finished, left := finished + [Plain(queue[0])], left + [newHead.value];
        queue := queue[1..];
      }
      active := None;
      return Completion(item);
    }
  }

  lemma KeepMembers(items: seq<Item>, drop: Item -> bool)
    ensures forall item :: item in Keep(items, drop) <==> item in items && !drop(item)
  {
    KeepExact(items, drop);
    assert forall item :: item in Keep(items, drop) <==> multiset(Keep(items, drop))[item] > 0;
    assert forall item :: item in items <==> multiset(items)[item] > 0;
  }

  lemma {:induction false} MarkedAt(items: seq<Item>, run: string, slice: string, generation: Option<nat>)
    ensures forall i :: 0 <= i < |items| ==>
              MarkAll(items, run, slice, generation)[i] == Mark(items[i], run, slice, generation)
  {
    if items != [] {
      MarkedAt(items[1..], run, slice, generation);
      var rest := MarkAll(items[1..], run, slice, generation);
      assert MarkAll(items, run, slice, generation) == [Mark(items[0], run, slice, generation)] + rest;
    }
  }

  lemma {:induction false} KeepLength(items: seq<Item>, drop: Item -> bool)
    ensures |Keep(items, drop)| <= |items|
    ensures |Keep(items, drop)| != |items| <==> exists item :: item in items && drop(item)
  {
    if items != [] {
      KeepLength(items[1..], drop);
      assert items == [items[0]] + items[1..];
      if drop(items[0]) { assert items[0] in items; }
    }
  }

  function OfRun(items: seq<Item>, run: string): seq<Item> {
    if items == [] then [] else (if items[0].run == run then [items[0]] else []) + OfRun(items[1..], run)
  }

  /** Leaving items out of the channel leaves them out of each Run's part of it. */
  lemma {:induction false} RunSubsequence(a: seq<Item>, b: seq<Item>, run: string)
    requires Subsequence(a, b)
    ensures Subsequence(OfRun(a, run), OfRun(b, run))
    decreases |b|
  {
    if a != [] {
      if a[0] == b[0] && Subsequence(a[1..], b[1..]) {
        RunSubsequence(a[1..], b[1..], run);
        if a[0].run == run {
          SubsequenceUnder([a[0]], OfRun(a[1..], run), OfRun(b[1..], run));
        } else {
          assert OfRun(a, run) == OfRun(a[1..], run) && OfRun(b, run) == OfRun(b[1..], run);
        }
      } else {
        RunSubsequence(a, b[1..], run);
        var rest := OfRun(b[1..], run);
        if b[0].run == run {
          assert OfRun(b, run)[1..] == rest;
          SubsequenceSkip(OfRun(a, run), OfRun(b, run));
        } else {
          assert OfRun(b, run) == rest;
        }
      }
    }
  }

  lemma {:induction false} PrefixSubsequence(a: seq<Item>, b: seq<Item>)
    ensures Subsequence(a, a + b)
    decreases |a|
  {
    if a != [] {
      assert (a + b)[1..] == a[1..] + b && (a + b)[0] == a[0];
      PrefixSubsequence(a[1..], b);
    }
  }

  /** Each Run's items finish in the order in which they were accepted, and no accepted item is lost or duplicated. */
  lemma FinishedInOrder(c: IntegrationCoordinator, run: string)
    requires c.Valid()
    ensures Subsequence(OfRun(c.finished, run), OfRun(c.accepted, run))
    ensures multiset(c.accepted) == multiset(c.finished) + multiset(PlainAll(c.queue)) + multiset(c.removed)
  {
    PrefixSubsequence(c.finished, PlainAll(c.queue));
    SubsequenceTransitive(c.finished, c.finished + PlainAll(c.queue), c.accepted);
    RunSubsequence(c.finished, c.accepted, run);
  }
}
