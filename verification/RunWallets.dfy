/** The Run wallet (`runtime/budget.py`): usage is the sum over distinct receipts, whatever their order. */
module RunWallets {
  import opened RunMachine

  datatype Receipt = Receipt(id: string, usage: Usage)

  function Plus(a: Usage, b: Usage): Usage {
    Usage(a.input + b.input, a.output + b.output, a.cost + b.cost)
  }

  function Total(receipts: seq<Receipt>): Usage {
    if receipts == [] then Usage(0, 0, 0) else Plus(receipts[0].usage, Total(receipts[1..]))
  }

  /** The first receipt of each identifier, in order. */
  function FirstOfEach(receipts: seq<Receipt>): seq<Receipt> {
    if receipts == [] then []
    else
      var last := receipts[|receipts| - 1];
      var before := FirstOfEach(receipts[..|receipts| - 1]);
      if Known(before, last.id) then before else before + [last]
  }

  predicate Known(receipts: seq<Receipt>, id: string) {
    exists x :: x in receipts && x.id == id
  }

  lemma {:induction false} FirstMembers(receipts: seq<Receipt>)
    ensures forall x :: x in FirstOfEach(receipts) ==> x in receipts
    ensures forall x :: x in receipts ==> Known(FirstOfEach(receipts), x.id)
  {
    if receipts != [] {
      var last := receipts[|receipts| - 1];
      var front := receipts[..|receipts| - 1];
      assert receipts == front + [last];
      FirstMembers(front);
      forall x | x in receipts
        ensures Known(FirstOfEach(receipts), x.id)
      {
        if x in front {
          var y :| y in FirstOfEach(front) && y.id == x.id;
          assert y in FirstOfEach(receipts);
        } else {
          assert x == last;
          assert !Known(FirstOfEach(front), last.id) ==> last in FirstOfEach(receipts);
        }
      }
    }
  }

  lemma {:induction false} TotalAppend(a: seq<Receipt>, b: seq<Receipt>)
    ensures Total(a + b) == Plus(Total(a), Total(b))
  {
    if a == [] {
      assert a + b == b;
    } else {
      assert (a + b)[1..] == a[1..] + b;
      TotalAppend(a[1..], b);
    }
  }

  lemma ElementsWithout(b: seq<Receipt>, k: nat)
    requires k < |b|
    ensures multiset(b[..k] + b[k + 1..]) == multiset(b) - multiset{b[k]}
  {
    assert b == b[..k] + [b[k]] + b[k + 1..];
  }

  lemma TotalCons(x: Receipt, rest: seq<Receipt>)
    ensures Total([x] + rest) == Plus(x.usage, Total(rest))
  {
    assert ([x] + rest)[1..] == rest;
  }

  lemma TotalRemove(b: seq<Receipt>, k: nat)
    requires k < |b|
    ensures Total(b) == Plus(b[k].usage, Total(b[..k] + b[k + 1..]))
  {
    hide Total;
    assert b == b[..k] + ([b[k]] + b[k + 1..]);
    TotalAppend(b[..k], [b[k]] + b[k + 1..]);
    TotalCons(b[k], b[k + 1..]);
    TotalAppend(b[..k], b[k + 1..]);
  }

  /** Any arrangement of the same receipts has the same total. */
  lemma {:induction false} TotalIgnoresOrder(a: seq<Receipt>, b: seq<Receipt>)
    requires multiset(a) == multiset(b)
    ensures Total(a) == Total(b)
  {
    if a == [] {
      assert |multiset(b)| == |b|;
    } else {
      var k := FirstAmong(a, b);
      TotalRemove(b, k);
      TotalIgnoresOrder(a[1..], b[..k] + b[k + 1..]);
    }
  }

  lemma FirstAmong(a: seq<Receipt>, b: seq<Receipt>) returns (k: nat)
    requires a != [] && multiset(a) == multiset(b)
    ensures k < |b| && b[k] == a[0] && multiset(a[1..]) == multiset(b[..k] + b[k + 1..])
  {
    assert a[0] in multiset(b);
    k :| k < |b| && b[k] == a[0];
    ElementsWithout(b, k);
    assert a == [a[0]] + a[1..];
  }

  /** Receipts that agree on their identifiers: the same identifier always carries the same usage. */
  ghost predicate Consistent(receipts: seq<Receipt>) {
    forall x, y :: x in receipts && y in receipts && x.id == y.id ==> x == y
  }

  lemma {:induction false} FirstOnce(receipts: seq<Receipt>, x: Receipt)
    requires Consistent(receipts)
    ensures multiset(FirstOfEach(receipts))[x] == if x in receipts then 1 else 0
  {
    if receipts != [] {
      var last := receipts[|receipts| - 1];
      var front := receipts[..|receipts| - 1];
      assert receipts == front + [last];
      FirstOnce(front, x);
      FirstMembers(front);
      if Known(FirstOfEach(front), last.id) {
        var y :| y in FirstOfEach(front) && y.id == last.id;
        assert y in front && last in front;
      } else {
        assert last !in front;
      }
    }
  }

  /** Delivered in any order, with any repetitions, the same receipts come to the same usage. */
  lemma DeliveryOrderIrrelevant(a: seq<Receipt>, b: seq<Receipt>)
    requires Consistent(a) && (forall x :: x in a <==> x in b)
    ensures Total(FirstOfEach(a)) == Total(FirstOfEach(b))
  {
    assert Consistent(b);
    forall x
      ensures multiset(FirstOfEach(a))[x] == multiset(FirstOfEach(b))[x]
    {
      FirstOnce(a, x);
      FirstOnce(b, x);
    }
    assert multiset(FirstOfEach(a)) == multiset(FirstOfEach(b));
    TotalIgnoresOrder(FirstOfEach(a), FirstOfEach(b));
  }

  /** One more delivery: counted exactly when its identifier is new. */
  lemma RecordKeeps(delivered: seq<Receipt>, receipt: Receipt)
    ensures var before, after := FirstOfEach(delivered), FirstOfEach(delivered + [receipt]);
            && after == (if Known(before, receipt.id) then before else before + [receipt])
            && Total(after) == (if Known(before, receipt.id) then Total(before) else Plus(Total(before), receipt.usage))
            && forall id :: Known(after, id) <==> Known(before, id) || id == receipt.id
  {
    var before := FirstOfEach(delivered);
    assert (delivered + [receipt])[..|delivered|] == delivered;
    TotalAppend(before, [receipt]);
    assert [receipt][1..] == [];
    if !Known(before, receipt.id) {
      var after := before + [receipt];
      forall id
        ensures Known(after, id) <==> Known(before, id) || id == receipt.id
      {
        if Known(before, id) {
          var x :| x in before && x.id == id;
          assert x in after;
        }
        assert receipt in after;
      }
    }
  }

  /** What the deliveries come to has reached a limit. */
  ghost predicate Exhausted(delivered: seq<Receipt>, limits: Limits) {
    Exhausts(Total(FirstOfEach(delivered)), limits)
  }

  /** More deliveries never bring usage below a limit again: a refusal is final. */
  lemma {:induction false} RefusalIsFinal(delivered: seq<Receipt>, more: seq<Receipt>, limits: Limits)
    requires Exhausted(delivered, limits)
    ensures Exhausted(delivered + more, limits)
  {
    if more == [] {
      assert delivered + more == delivered;
    } else {
      var front := more[..|more| - 1];
      RefusalIsFinal(delivered, front, limits);
      RecordKeeps(delivered + front, more[|more| - 1]);
      assert delivered + more == (delivered + front) + [more[|more| - 1]];
    }
  }

  class RunWallet {
    const limits: Limits
    var usage: Usage
    var ids: set<string>
    ghost var delivered: seq<Receipt>

    ghost predicate Valid()
      reads this
    {
      && usage == Total(FirstOfEach(delivered))
      && forall id :: id in ids <==> Known(FirstOfEach(delivered), id)
    }

    constructor (limits: Limits)
      ensures Valid() && delivered == [] && this.limits == limits
    {
      this.limits, usage, ids, delivered := limits, Usage(0, 0, 0), {}, [];
    }

    /** Every delivery is recorded; a repeated identifier is not counted again. */
    method Record(receipt: Receipt) returns (admitted: bool)
      requires Valid()
      modifies this
      ensures Valid() && delivered == old(delivered) + [receipt]
      ensures admitted <==> !Exhausted(delivered, limits)
    {
      ghost var before := FirstOfEach(delivered);
      RecordKeeps(delivered, receipt);
      if receipt.id !in ids {
        var evaluation :=
          EvaluateBudget(usage, limits, receipt.usage.input, receipt.usage.output, receipt.usage.cost, false);
        ids := ids + {receipt.id};
        usage := evaluation.usage;
      }
      delivered := delivered + [receipt];
      return !Exhausts(usage, limits);
    }

    /** Admitted exactly while what was delivered, each receipt once, stays below every limit, and it always did. */
    method Admit() returns (admitted: bool)
      requires Valid()
      ensures admitted <==> !Exhausted(delivered, limits)
      ensures admitted <==> forall n :: 0 <= n <= |delivered| ==> !Exhausted(delivered[..n], limits)
    {
      assert delivered[..|delivered|] == delivered;
      forall n | 0 <= n <= |delivered| && Exhausted(delivered[..n], limits)
        ensures Exhausted(delivered, limits)
      {
        assert delivered == delivered[..n] + delivered[n..];
        RefusalIsFinal(delivered[..n], delivered[n..], limits);
      }
      admitted := !Exhausts(usage, limits);
    }
  }
}
