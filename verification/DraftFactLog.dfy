/**
 The Draft owner (`runtime/draft_graph.py`) commits the facts of its live ledger
 to a store one at a time; a fact is never changed, and none of these is added
 after the freeze (`runtime/store.py`).
 */
module DraftFactLog {
  import opened Options
  import opened DraftLedgers

  datatype Fact =
    | RevisionFact(revision: Revision)
    | QuestionFact(question: Question)
    | AnswerFact(answer: Answer)
    | FreezeFact(freeze: FreezeReceipt)

  function RevisionsIn(log: seq<Fact>): seq<Revision> {
    if log == [] then []
    else
      var f := log[|log| - 1];
      RevisionsIn(log[..|log| - 1]) + (if f.RevisionFact? then [f.revision] else [])
  }

  function QuestionsIn(log: seq<Fact>): seq<Question> {
    if log == [] then []
    else
      var f := log[|log| - 1];
      QuestionsIn(log[..|log| - 1]) + (if f.QuestionFact? then [f.question] else [])
  }

  function AnswersIn(log: seq<Fact>): seq<Answer> {
    if log == [] then []
    else
      var f := log[|log| - 1];
      AnswersIn(log[..|log| - 1]) + (if f.AnswerFact? then [f.answer] else [])
  }

  /** The store has one key for the freeze, so a log has at most one. */
  function FreezeIn(log: seq<Fact>): Option<FreezeReceipt> {
    if log == [] then None
    else
      var f := log[|log| - 1];
      if f.FreezeFact? then Some(f.freeze) else FreezeIn(log[..|log| - 1])
  }

  function Load(log: seq<Fact>): Option<Ledger> {
    Restore(RevisionsIn(log), QuestionsIn(log), AnswersIn(log), FreezeIn(log))
  }

  function RevisionNumbered(log: seq<Fact>, number: nat): Option<Revision> {
    if log == [] then None
    else
      var f := log[|log| - 1];
      if f.RevisionFact? && f.revision.number == number then Some(f.revision)
      else RevisionNumbered(log[..|log| - 1], number)
  }

  function QuestionAt(log: seq<Fact>, id: Id): Option<Question> {
    if log == [] then None
    else
      var f := log[|log| - 1];
      if f.QuestionFact? && f.question.id == id then Some(f.question) else QuestionAt(log[..|log| - 1], id)
  }

  function AnswerAt(log: seq<Fact>, id: Id): Option<Answer> {
    if log == [] then None
    else
      var f := log[|log| - 1];
      if f.AnswerFact? && f.answer.question == id then Some(f.answer) else AnswerAt(log[..|log| - 1], id)
  }

  /** The owner's live ledger and the facts in the store. */
  datatype Owner = Owner(ledger: Ledger, log: seq<Fact>)

  /** What a commit leaves behind, and whether it succeeded. */
  datatype Attempt = Attempt(owner: Owner, done: bool)

  function Restored(o: Owner): Owner {
    var persisted := Load(o.log);
    if persisted.Some? then o.(ledger := persisted.value) else o
  }

  /** One fact reaches the store unless the store fails or the Draft is frozen; then the owner restores its ledger. */
  function Append(o: Owner, f: Fact, ok: bool): Attempt {
    if FreezeIn(o.log).Some? then Attempt(Restored(o), false)
    else if !ok then Attempt(o, false)
    else Attempt(o.(log := o.log + [f]), true)
  }

  function PersistRevision(o: Owner, ok: bool): Attempt {
    var current := Current(o.ledger);
    var persisted := Load(o.log);
    if current.None? || persisted.None? then Attempt(o, false)
    else
      var existing := RevisionNumbered(o.log, current.value.number);
      if existing.Some? then Attempt(o, existing == current && Current(persisted.value) == current)
      else if persisted.value.freeze.Some? || current.value.number != |persisted.value.revisions| + 1 then
        Attempt(o, false)
      else Append(o, RevisionFact(current.value), ok)
  }

  function CommitQuestion(o: Owner, q: Question, revisionOk: bool, ok: bool): Attempt {
    if !Targets(o.ledger, q.revision) then Attempt(o, false)
    else
      var first := PersistRevision(o, revisionOk);
      if !first.done then first
      else
        var previous := QuestionAt(first.owner.log, q.id);
        var asked := Ask(first.owner.ledger, q);
        if (previous.Some? && previous.value != q) || asked.None? then Attempt(first.owner, false)
        else
          var after := first.owner.(ledger := asked.value);
          if previous.Some? then Attempt(after, true) else Append(after, QuestionFact(q), ok)
  }

  function CommitAnswer(o: Owner, a: Answer, ok: bool): Attempt {
    var replied := Reply(o.ledger, a);
    if replied.None? then Attempt(o, false)
    else
      var after := o.(ledger := replied.value);
      var existing := AnswerAt(o.log, a.question);
      if existing.Some? then Attempt(after, existing.value == a) else Append(after, AnswerFact(a), ok)
  }

  function PersistFreeze(o: Owner, revisionOk: bool, ok: bool): Attempt {
    if o.ledger.freeze.None? then Attempt(o, false)
    else
      var first := PersistRevision(o, revisionOk);
      if !first.done then first
      else
        var persisted := Load(first.owner.log);
        if persisted.None? || persisted.value.questions != o.ledger.questions
           || persisted.value.answers != o.ledger.answers then Attempt(first.owner, false)
        else if persisted.value.freeze.Some? then Attempt(first.owner, persisted.value.freeze == o.ledger.freeze)
        else Append(first.owner, FreezeFact(o.ledger.freeze.value), ok)
  }

  /** The attempt comes as far as asking the store for the freeze of a ledger that agrees with the log. */
  predicate AsksStore(o: Owner, revisionOk: bool) {
    && o.ledger.freeze.Some? && PersistRevision(o, revisionOk).done
    && var persisted := Load(PersistRevision(o, revisionOk).owner.log);
       && persisted.Some? && persisted.value.questions == o.ledger.questions
       && persisted.value.answers == o.ledger.answers
       && (persisted.value.freeze.Some? ==> persisted.value.freeze == o.ledger.freeze)
  }

  /**
   Freezing while other owners' facts (`meanwhile`) reach the store between the
   reading of the log and the commit.  The store takes the freeze only onto the
   facts that were read; a freeze that is already there is compared.
   */
  function FreezeAgainst(o: Owner, revisionOk: bool, meanwhile: seq<Fact>, ok: bool): Attempt {
    if meanwhile == [] || !AsksStore(o, revisionOk) then PersistFreeze(o, revisionOk, ok)
    else
      var first := PersistRevision(o, revisionOk).owner;
      var now := first.(log := first.log + meanwhile);
      var freeze := FreezeIn(now.log);
      if freeze.Some? then Attempt(now, freeze == o.ledger.freeze) else Attempt(Restored(now), false)
  }

  datatype Command =
    | Live(operation: Operation)
    | SaveRevision(ok: bool)
    | SaveQuestion(question: Question, revisionOk: bool, ok: bool)
    | SaveAnswer(answer: Answer, ok: bool)
    | SaveFreeze(revisionOk: bool, ok: bool)
    | Reload

  function Execute(o: Owner, c: Command): Owner {
    match c
    case Live(op) => o.(ledger := Perform(o.ledger, op))
    case SaveRevision(ok) => PersistRevision(o, ok).owner
    case SaveQuestion(q, revisionOk, ok) => CommitQuestion(o, q, revisionOk, ok).owner
    case SaveAnswer(a, ok) => CommitAnswer(o, a, ok).owner
    case SaveFreeze(revisionOk, ok) => PersistFreeze(o, revisionOk, ok).owner
    case Reload => Restored(o)
  }

  function ExecuteAll(o: Owner, cs: seq<Command>): Owner
    decreases |cs|
  {
    if cs == [] then o else Execute(ExecuteAll(o, cs[..|cs| - 1]), cs[|cs| - 1])
  }

  const START: Owner := Owner(EMPTY, [])

  // ----- what the log holds -----

  ghost predicate LogOf(l: Ledger, log: seq<Fact>) {
    Exports(l, RevisionsIn(log), QuestionsIn(log), AnswersIn(log), FreezeIn(log))
  }

  lemma LoadExact(log: seq<Fact>, l: Ledger)
    ensures Load(log) == Some(l) <==> Consistent(l) && LogOf(l, log)
  {
    RestoreExact(RevisionsIn(log), QuestionsIn(log), AnswersIn(log), FreezeIn(log), l);
  }

  lemma {:induction false} FoundRevision(log: seq<Fact>, number: nat)
    ensures RevisionNumbered(log, number).Some? ==>
              RevisionNumbered(log, number).value.number == number
              && RevisionNumbered(log, number).value in RevisionsIn(log)
    ensures RevisionNumbered(log, number).None? ==> forall r :: r in RevisionsIn(log) ==> r.number != number
  {
    if log != [] { FoundRevision(log[..|log| - 1], number); }
  }

  lemma {:induction false} FoundQuestion(log: seq<Fact>, id: Id)
    ensures QuestionAt(log, id).Some? ==>
        QuestionAt(log, id).value.id == id && QuestionAt(log, id).value in QuestionsIn(log)
    ensures QuestionAt(log, id).None? ==> forall q :: q in QuestionsIn(log) ==> q.id != id
  {
    if log != [] { FoundQuestion(log[..|log| - 1], id); }
  }

  lemma {:induction false} FoundAnswer(log: seq<Fact>, id: Id)
    ensures AnswerAt(log, id).Some? ==>
        AnswerAt(log, id).value.question == id && AnswerAt(log, id).value in AnswersIn(log)
    ensures AnswerAt(log, id).None? ==> forall a :: a in AnswersIn(log) ==> a.question != id
  {
    if log != [] { FoundAnswer(log[..|log| - 1], id); }
  }

  lemma QuestionKnown(l: Ledger, log: seq<Fact>, id: Id)
    requires LogOf(l, log)
    ensures QuestionAt(log, id) == if id in l.questions then Some(l.questions[id]) else None
  {
    FoundQuestion(log, id);
    var qs := QuestionsIn(log);
    if id in l.questions {
      var i :| 0 <= i < |qs| && qs[i].id == id;
      assert qs[i] in qs;
    }
  }

  lemma AnswerKnown(l: Ledger, log: seq<Fact>, id: Id)
    requires LogOf(l, log)
    ensures AnswerAt(log, id) == if id in l.answers then Some(l.answers[id]) else None
  {
    FoundAnswer(log, id);
    var answers := AnswersIn(log);
    if id in l.answers {
      var i :| 0 <= i < |answers| && answers[i].question == id;
      assert answers[i] in answers;
    }
  }

  lemma RevisionKnown(l: Ledger, log: seq<Fact>, number: nat)
    requires LogOf(l, log) && RevisionsOk(l.revisions)
    ensures RevisionNumbered(log, number)
            == if 1 <= number <= |l.revisions| then Some(l.revisions[number - 1]) else None
  {
    FoundRevision(log, number);
    var rs := RevisionsIn(log);
    forall r
      ensures r in rs <==> r in l.revisions
    {
      assert r in rs <==> r in multiset(rs);
      assert r in l.revisions <==> r in multiset(l.revisions);
    }
    if 1 <= number <= |l.revisions| {
      assert l.revisions[number - 1] in rs;
    }
  }

  // ----- adding a fact -----

  lemma AddRevision(l: Ledger, log: seq<Fact>, r: Revision)
    requires LogOf(l, log)
    ensures LogOf(l.(revisions := l.revisions + [r]), log + [RevisionFact(r)])
  {
    assert (log + [RevisionFact(r)])[..|log|] == log;
    assert QuestionsIn(log) + [] == QuestionsIn(log) && AnswersIn(log) + [] == AnswersIn(log);
  }

  lemma AddQuestion(l: Ledger, log: seq<Fact>, q: Question)
    requires LogOf(l, log) && q.id !in l.questions
    ensures LogOf(l.(questions := l.questions[q.id := q]), log + [QuestionFact(q)])
  {
    assert (log + [QuestionFact(q)])[..|log|] == log;
    assert RevisionsIn(log) + [] == RevisionsIn(log) && AnswersIn(log) + [] == AnswersIn(log);
    QuestionListed(QuestionsIn(log), l.questions, q);
  }

  lemma AddAnswer(l: Ledger, log: seq<Fact>, a: Answer)
    requires LogOf(l, log) && a.question !in l.answers
    ensures LogOf(l.(answers := l.answers[a.question := a]), log + [AnswerFact(a)])
  {
    assert (log + [AnswerFact(a)])[..|log|] == log;
    assert RevisionsIn(log) + [] == RevisionsIn(log) && QuestionsIn(log) + [] == QuestionsIn(log);
    AnswerListed(AnswersIn(log), l.answers, a);
  }

  lemma AddFreezeFact(l: Ledger, log: seq<Fact>, f: FreezeReceipt)
    requires LogOf(l, log)
    ensures LogOf(l.(freeze := Some(f)), log + [FreezeFact(f)])
  {
    assert (log + [FreezeFact(f)])[..|log|] == log;
    assert RevisionsIn(log) + [] == RevisionsIn(log) && QuestionsIn(log) + [] == QuestionsIn(log)
           && AnswersIn(log) + [] == AnswersIn(log);
  }

  // ----- the owner's invariant -----

  /** What is persisted is part of what is live. */
  ghost predicate Below(p: Ledger, l: Ledger) {
    && p.revisions <= l.revisions
    && (forall i :: i in p.questions ==> i in l.questions && l.questions[i] == p.questions[i])
    && (forall i :: i in p.answers ==> i in l.answers && l.answers[i] == p.answers[i])
    && (p.freeze.Some? ==> p == l)
  }

  predicate PrefixLoads(log: seq<Fact>, k: nat)
    requires k <= |log|
  {
    Load(log[..k]).Some?
  }

  ghost predicate EveryPrefixLoads(log: seq<Fact>) {
    forall k: nat :: k <= |log| ==> PrefixLoads(log, k)
  }

  ghost predicate OwnerInv(o: Owner) {
    && Consistent(o.ledger) && EveryPrefixLoads(o.log)
    && Load(o.log).Some? && Below(Load(o.log).value, o.ledger)
  }

  function Persisted(o: Owner): (p: Ledger)
    requires Load(o.log).Some?
  {
    Load(o.log).value
  }

  lemma PrefixesGrow(log: seq<Fact>, f: Fact)
    requires EveryPrefixLoads(log) && Load(log + [f]).Some?
    ensures EveryPrefixLoads(log + [f])
  {
    var after := log + [f];
    forall k: nat | k <= |after|
      ensures PrefixLoads(after, k)
    {
      if k <= |log| {
        assert PrefixLoads(log, k) && after[..k] == log[..k];
      } else {
        assert after[..k] == after;
      }
    }
  }

  /** A fact that takes the persisted ledger to `p`, still below the live one. */
  lemma FactKeeps(o: Owner, f: Fact, p: Ledger)
    requires OwnerInv(o) && Consistent(p) && LogOf(p, o.log + [f]) && Below(p, o.ledger)
    ensures OwnerInv(o.(log := o.log + [f])) && Load(o.log + [f]) == Some(p)
  {
    LoadExact(o.log + [f], p);
    PrefixesGrow(o.log, f);
  }

  lemma BelowSelf(l: Ledger)
    ensures Below(l, l)
  {
  }

  lemma RestoredKeeps(o: Owner)
    requires OwnerInv(o)
    ensures OwnerInv(Restored(o)) && Restored(o).ledger == Persisted(o)
  {
    LoadExact(o.log, Persisted(o));
    BelowSelf(Persisted(o));
  }

  lemma PrefixConsistent(p: Ledger, l: Ledger, r: Revision)
    requires Consistent(p) && Consistent(l) && Below(p, l) && p.freeze.None?
    requires |p.revisions| < |l.revisions| && r == l.revisions[|p.revisions|]
    ensures Consistent(p.(revisions := p.revisions + [r])) && Below(p.(revisions := p.revisions + [r]), l)
  {
    var n := |p.revisions|;
    var after := p.(revisions := p.revisions + [r]);
    assert l.revisions[..n] == p.revisions && l.revisions[..n + 1] == after.revisions;
    assert RevisionsOk(after.revisions) by {
      assert forall i :: 0 <= i <= n ==> after.revisions[i] == l.revisions[i];
    }
    forall i | i in p.questions
      ensures HasRevision(after.revisions, p.questions[i].revision)
    {
      var k :| 0 <= k < n && p.revisions[k].id == p.questions[i].revision;
      assert after.revisions[k].id == p.questions[i].revision;
    }
  }

  lemma FreezeInLog(o: Owner)
    requires OwnerInv(o)
    ensures FreezeIn(o.log) == Persisted(o).freeze
  {
    LoadExact(o.log, Persisted(o));
  }

  /** Persisting is a no-op when the live revisions are persisted, and otherwise adds one that extends them by one. */
  lemma PersistRevisionCases(o: Owner, ok: bool)
    requires OwnerInv(o)
    ensures var l, p := o.ledger, Persisted(o);
            PersistRevision(o, ok)
            == if l.revisions == [] then Attempt(o, false)
               else if |p.revisions| == |l.revisions| then Attempt(o, true)
               else if p.freeze.Some? || |l.revisions| != |p.revisions| + 1 || !ok then Attempt(o, false)
               else Attempt(o.(log := o.log + [RevisionFact(l.revisions[|l.revisions| - 1])]), true)
  {
    hide Load, EveryPrefixLoads, Append, RevisionNumbered, FreezeIn;
    var l, p := o.ledger, Persisted(o);
    LoadExact(o.log, p);
    FreezeInLog(o);
    if l.revisions != [] {
      hide PersistRevision;
      RevisionKnown(p, o.log, |l.revisions|);
      hide LogOf;
      PersistShape(o, p, ok);
    }
  }

  lemma PersistShape(o: Owner, p: Ledger, ok: bool)
    requires o.ledger.revisions != [] && o.ledger.revisions[|o.ledger.revisions| - 1].number == |o.ledger.revisions|
    requires Load(o.log) == Some(p) && FreezeIn(o.log) == p.freeze && p.revisions <= o.ledger.revisions
    requires RevisionNumbered(o.log, |o.ledger.revisions|)
             == if |o.ledger.revisions| <= |p.revisions| then Some(p.revisions[|o.ledger.revisions| - 1]) else None
    ensures PersistRevision(o, ok)
            == if |p.revisions| == |o.ledger.revisions| then Attempt(o, true)
               else if p.freeze.Some? || |o.ledger.revisions| != |p.revisions| + 1 || !ok then Attempt(o, false)
               else Attempt(o.(log := o.log + [RevisionFact(o.ledger.revisions[|o.ledger.revisions| - 1])]), true)
  {
    if |p.revisions| == |o.ledger.revisions| {
      assert p.revisions == o.ledger.revisions;
    }
  }

  lemma RevisionFactKeeps(o: Owner)
    requires OwnerInv(o) && Persisted(o).freeze.None? && |o.ledger.revisions| == |Persisted(o).revisions| + 1
    ensures var l, p := o.ledger, Persisted(o);
            var after := o.(log := o.log + [RevisionFact(l.revisions[|l.revisions| - 1])]);
            OwnerInv(after) && Persisted(after) == p.(revisions := l.revisions)
  {
    var l, p := o.ledger, Persisted(o);
    var r := l.revisions[|l.revisions| - 1];
    LoadExact(o.log, p);
    PrefixConsistent(p, l, r);
    AddRevision(p, o.log, r);
    assert p.revisions + [r] == l.revisions;
    FactKeeps(o, RevisionFact(r), p.(revisions := p.revisions + [r]));
  }

  /**
   Persisting the current revision keeps the invariant; when it succeeds, the
   persisted revisions are the live ones.
   */
  lemma PersistRevisionKeeps(o: Owner, ok: bool)
    requires OwnerInv(o)
    ensures var t := PersistRevision(o, ok);
            && OwnerInv(t.owner) && t.owner.ledger == o.ledger
            && (Persisted(t.owner) == Persisted(o)
                || Persisted(t.owner) == Persisted(o).(revisions := o.ledger.revisions))
            && (t.done ==> Persisted(t.owner).revisions == o.ledger.revisions)
  {
    var l, p := o.ledger, Persisted(o);
    PersistRevisionCases(o, ok);
    if |p.revisions| == |l.revisions| {
      assert p.revisions == l.revisions;
    } else if p.freeze.None? && |l.revisions| == |p.revisions| + 1 && ok {
      RevisionFactKeeps(o);
    }
  }

  // ----- questions, answers and the freeze -----

  lemma LiveGrows(o: Owner, l: Ledger)
    requires OwnerInv(o) && Consistent(l) && Persisted(o).freeze.None?
    requires o.ledger.revisions <= l.revisions
    requires forall i :: i in o.ledger.questions ==> i in l.questions && l.questions[i] == o.ledger.questions[i]
    requires forall i :: i in o.ledger.answers ==> i in l.answers && l.answers[i] == o.ledger.answers[i]
    ensures OwnerInv(o.(ledger := l))
  {
  }

  /** A frozen persisted ledger is the live one, so no live operation changes it. */
  lemma LiveKeeps(o: Owner, op: Operation)
    requires OwnerInv(o) && Consistent(Perform(o.ledger, op))
    ensures OwnerInv(o.(ledger := Perform(o.ledger, op)))
  {
    hide EveryPrefixLoads, Load, Consistent;
    if Persisted(o).freeze.Some? {
      FrozenIsFinal(o.ledger, op);
    } else {
      LiveGrows(o, Perform(o.ledger, op));
    }
  }

  lemma PerformConsistent(l: Ledger, op: Operation)
    requires Consistent(l)
    ensures Consistent(Perform(l, op))
  {
    match op
    case CreateOp(artifacts, id) =>
      if !HasRevision(l.revisions, id) && l.freeze.None? { AddedIsConsistent(l, artifacts, id); }
    case ReviseOp(revision, artifacts, id) =>
      if !HasRevision(l.revisions, id) && l.freeze.None? { AddedIsConsistent(l, artifacts, id); }
    case AskOp(q) => AskKeeps(l, q);
    case ReplyOp(a) => ReplyKeeps(l, a);
    case FreezeOp(revision, selected) => FreezeKeeps(l, revision, selected);
  }

  lemma AskedKeeps(o: Owner, q: Question)
    requires OwnerInv(o) && Ask(o.ledger, q).Some?
    ensures OwnerInv(o.(ledger := Ask(o.ledger, q).value))
  {
    AskKeeps(o.ledger, q);
    assert Perform(o.ledger, AskOp(q)) == Ask(o.ledger, q).value;
    LiveKeeps(o, AskOp(q));
  }

  lemma QuestionJoins(p: Ledger, l: Ledger, q: Question)
    requires Consistent(p) && Consistent(l) && Below(p, l) && p.freeze.None? && p.revisions == l.revisions
    requires q.id in l.questions && l.questions[q.id] == q && q.id !in p.questions
    ensures var next := p.(questions := p.questions[q.id := q]); Consistent(next) && Below(next, l)
  {
  }

  lemma AnswerJoins(p: Ledger, l: Ledger, a: Answer)
    requires Consistent(p) && Consistent(l) && Below(p, l) && p.freeze.None?
    requires a.question in l.answers && l.answers[a.question] == a && a.question in p.questions
    ensures var next := p.(answers := p.answers[a.question := a]); Consistent(next) && Below(next, l)
  {
  }

  lemma QuestionFactKeeps(o: Owner, q: Question)
    requires OwnerInv(o) && Persisted(o).freeze.None? && Persisted(o).revisions == o.ledger.revisions
    requires q.id in o.ledger.questions && o.ledger.questions[q.id] == q && q.id !in Persisted(o).questions
    ensures var after := o.(log := o.log + [QuestionFact(q)]);
            && OwnerInv(after)
            && Persisted(after) == Persisted(o).(questions := Persisted(o).questions[q.id := q])
  {
    var p := Persisted(o);
    LoadExact(o.log, p);
    AddQuestion(p, o.log, q);
    var next := p.(questions := p.questions[q.id := q]);
    QuestionJoins(p, o.ledger, q);
    FactKeeps(o, QuestionFact(q), next);
  }

  lemma CommitQuestionKeeps(o: Owner, q: Question, revisionOk: bool, ok: bool)
    requires OwnerInv(o)
    ensures OwnerInv(CommitQuestion(o, q, revisionOk, ok).owner)
  {
    if Targets(o.ledger, q.revision) {
      var first := PersistRevision(o, revisionOk);
      PersistRevisionKeeps(o, revisionOk);
      if first.done && Ask(first.owner.ledger, q).Some? {
        AskedAndSaved(first.owner, q, ok);
      }
    }
  }

  lemma AskedAndSaved(o: Owner, q: Question, ok: bool)
    requires OwnerInv(o) && Ask(o.ledger, q).Some? && Persisted(o).revisions == o.ledger.revisions
    ensures var after := o.(ledger := Ask(o.ledger, q).value);
            && OwnerInv(after) && (QuestionAt(o.log, q.id).None? ==> OwnerInv(Append(after, QuestionFact(q), ok).owner))
  {
    var after := o.(ledger := Ask(o.ledger, q).value);
    AskedKeeps(o, q);
    FreezeInLog(after);
    LoadExact(o.log, Persisted(o));
    QuestionKnown(Persisted(o), o.log, q.id);
    if QuestionAt(o.log, q.id).None? {
      if Persisted(o).freeze.Some? {
        RestoredKeeps(after);
      } else if ok {
        QuestionFactKeeps(after, q);
      }
    }
  }

  lemma RepliedKeeps(o: Owner, a: Answer)
    requires OwnerInv(o) && Reply(o.ledger, a).Some?
    ensures OwnerInv(o.(ledger := Reply(o.ledger, a).value))
  {
    ReplyKeeps(o.ledger, a);
    assert Perform(o.ledger, ReplyOp(a)) == Reply(o.ledger, a).value;
    LiveKeeps(o, ReplyOp(a));
  }

  lemma AnswerFactKeeps(o: Owner, a: Answer)
    requires OwnerInv(o) && Persisted(o).freeze.None?
    requires a.question in o.ledger.answers && o.ledger.answers[a.question] == a
    requires a.question in Persisted(o).questions && a.question !in Persisted(o).answers
    ensures var after := o.(log := o.log + [AnswerFact(a)]);
            && OwnerInv(after)
            && Persisted(after) == Persisted(o).(answers := Persisted(o).answers[a.question := a])
  {
    var p := Persisted(o);
    LoadExact(o.log, p);
    AddAnswer(p, o.log, a);
    var next := p.(answers := p.answers[a.question := a]);
    AnswerJoins(p, o.ledger, a);
    FactKeeps(o, AnswerFact(a), next);
  }

  /** An answer whose question is not in the log can never be loaded again. */
  lemma OrphanAnswerBreaks(log: seq<Fact>, p: Ledger, a: Answer)
    requires LogOf(p, log) && a.question !in p.questions
    ensures Load(log + [AnswerFact(a)]).None?
  {
    var after := log + [AnswerFact(a)];
    assert after[..|log|] == log;
    assert QuestionsIn(after) == QuestionsIn(log);
    assert AnswersIn(after) == AnswersIn(log) + [a];
    var answers := AnswersIn(after);
    assert answers[|answers| - 1] == a;
    if Load(after).Some? {
      var l := Load(after).value;
      LoadExact(after, l);
      QuestionKnown(l, after, a.question);
      FoundQuestion(log, a.question);
      FoundQuestion(after, a.question);
      QuestionKnown(p, log, a.question);
    }
  }

  /** The guard that `commit_answer` does not have: the question's own fact is in the store. */
  predicate QuestionLogged(o: Owner, a: Answer) {
    QuestionAt(o.log, a.question).Some?
  }

  /** The guards before the write: the live ledger takes the answer, and the store has none yet, is open and works. */
  predicate WritesAnswer(o: Owner, a: Answer, ok: bool) {
    Reply(o.ledger, a).Some? && AnswerAt(o.log, a.question).None? && FreezeIn(o.log).None? && ok
  }

  /**
   Committing an answer keeps the log loadable exactly when a write finds the
   question it answers committed before it.
   */
  lemma CommitAnswerExact(o: Owner, a: Answer, ok: bool)
    requires OwnerInv(o)
    ensures OwnerInv(CommitAnswer(o, a, ok).owner) <==> (WritesAnswer(o, a, ok) ==> QuestionLogged(o, a))
  {
    var p := Persisted(o);
    LoadExact(o.log, p);
    QuestionKnown(p, o.log, a.question);
    AnswerKnown(p, o.log, a.question);
    if Reply(o.ledger, a).Some? {
      var after := o.(ledger := Reply(o.ledger, a).value);
      RepliedKeeps(o, a);
      FreezeInLog(after);
      if AnswerAt(o.log, a.question).None? {
        if p.freeze.Some? {
          RestoredKeeps(after);
        } else if ok {
          assert CommitAnswer(o, a, ok).owner == after.(log := o.log + [AnswerFact(a)]);
          if QuestionLogged(o, a) {
            AnswerFactKeeps(after, a);
          } else {
            OrphanAnswerBreaks(o.log, p, a);
          }
        }
      }
    }
  }

  lemma FreezeFactKeeps(o: Owner)
    requires OwnerInv(o) && Persisted(o).freeze.None? && o.ledger.freeze.Some?
    requires Persisted(o) == o.ledger.(freeze := None)
    ensures OwnerInv(o.(log := o.log + [FreezeFact(o.ledger.freeze.value)]))
    ensures Persisted(o.(log := o.log + [FreezeFact(o.ledger.freeze.value)])) == o.ledger
  {
    var p := Persisted(o);
    LoadExact(o.log, p);
    AddFreezeFact(p, o.log, o.ledger.freeze.value);
    assert p.(freeze := o.ledger.freeze) == o.ledger;
    BelowSelf(o.ledger);
    FactKeeps(o, FreezeFact(o.ledger.freeze.value), o.ledger);
  }

  lemma PersistFreezeKeeps(o: Owner, revisionOk: bool, ok: bool)
    requires OwnerInv(o)
    ensures OwnerInv(PersistFreeze(o, revisionOk, ok).owner)
    ensures PersistFreeze(o, revisionOk, ok).owner.ledger == o.ledger
  {
    if o.ledger.freeze.Some? {
      var first := PersistRevision(o, revisionOk);
      PersistRevisionKeeps(o, revisionOk);
      if first.done {
        var p := Persisted(first.owner);
        FreezeInLog(first.owner);
        hide OwnerInv, Load;
        if p.questions == o.ledger.questions && p.answers == o.ledger.answers && p.freeze.None? && ok {
          assert p == o.ledger.(freeze := None);
          FreezeFactKeeps(first.owner);
        }
      }
    }
  }

  // ----- when a commit succeeds -----

  /** The live revisions are persisted, or all but the last one are and it can be written. */
  predicate RevisionsGo(o: Owner, ok: bool)
    requires Load(o.log).Some?
  {
    var l, p := o.ledger, Persisted(o);
    && l.revisions != []
    && (|p.revisions| == |l.revisions| || (p.freeze.None? && |p.revisions| + 1 == |l.revisions| && ok))
  }

  lemma RevisionsGoExactly(o: Owner, ok: bool)
    requires OwnerInv(o)
    ensures PersistRevision(o, ok).done <==> RevisionsGo(o, ok)
    ensures var after := PersistRevision(o, ok).owner;
            && Load(after.log).Some?
            && Persisted(after).questions == Persisted(o).questions && Persisted(after).answers == Persisted(o).answers
            && Persisted(after).freeze == Persisted(o).freeze
  {
    PersistRevisionCases(o, ok);
    PersistRevisionKeeps(o, ok);
  }

  /** A question of the current revision that the log has, or that the ledger takes and the store can write. */
  predicate QuestionGoes(o: Owner, q: Question, revisionOk: bool, ok: bool)
    requires Load(o.log).Some?
  {
    var l, p := o.ledger, Persisted(o);
    && l.revisions != [] && l.revisions[|l.revisions| - 1].id == q.revision && RevisionsGo(o, revisionOk)
    && if q.id in p.questions then p.questions[q.id] == q
       else
         && (if q.id in l.questions then l.questions[q.id] == q else l.freeze.None?)
         && p.freeze.None? && ok
  }

  lemma QuestionGoesExactly(o: Owner, q: Question, revisionOk: bool, ok: bool)
    requires OwnerInv(o)
    ensures CommitQuestion(o, q, revisionOk, ok).done <==> QuestionGoes(o, q, revisionOk, ok)
  {
    hide PersistRevision, Load, LogOf, QuestionAt, FreezeIn, Consistent, EveryPrefixLoads, RevisionsGo;
    var first := PersistRevision(o, revisionOk);
    RevisionsGoExactly(o, revisionOk);
    PersistRevisionKeeps(o, revisionOk);
    FreezeInLog(first.owner);
    LoadExact(first.owner.log, Persisted(first.owner));
    QuestionKnown(Persisted(first.owner), first.owner.log, q.id);
    var l, p := o.ledger, Persisted(first.owner);
    assert p.freeze.Some? ==> p.questions == l.questions && l.freeze.Some?;
    hide OwnerInv;
  }

  /** An answer the log has, or that the ledger takes and the store can write. */
  predicate AnswerGoes(o: Owner, a: Answer, ok: bool)
    requires Load(o.log).Some?
  {
    var l, p := o.ledger, Persisted(o);
    && l.revisions != [] && l.revisions[|l.revisions| - 1].id == a.revision
    && a.question in l.questions && l.questions[a.question].revision == a.revision
    && (match a.choice
        case Selected(option) => option in l.questions[a.question].options
        case Text(_) => l.questions[a.question].freeText)
    && (if a.question in l.answers then l.answers[a.question] == a else l.freeze.None?)
    && (a.question in p.answers || (p.freeze.None? && ok))
  }

  lemma AnswerGoesExactly(o: Owner, a: Answer, ok: bool)
    requires OwnerInv(o)
    ensures CommitAnswer(o, a, ok).done <==> AnswerGoes(o, a, ok)
  {
    hide Load, LogOf, AnswerAt, FreezeIn, Consistent, EveryPrefixLoads;
    FreezeInLog(o);
    LoadExact(o.log, Persisted(o));
    AnswerKnown(Persisted(o), o.log, a.question);
    var l, p := o.ledger, Persisted(o);
    assert p.freeze.Some? ==> p == l;
    assert a.question in p.answers ==> a.question in l.answers && l.answers[a.question] == p.answers[a.question];
    hide OwnerInv, Below;
  }

  /** A frozen ledger whose questions and answers are all in the log, which is frozen too or can be. */
  predicate FreezeGoes(o: Owner, revisionOk: bool, ok: bool)
    requires Load(o.log).Some?
  {
    var l, p := o.ledger, Persisted(o);
    && l.freeze.Some? && RevisionsGo(o, revisionOk) && p.questions == l.questions && p.answers == l.answers
    && (p.freeze.Some? || ok)
  }

  /** Persisting the freeze succeeds exactly then, and leaves a log that loads as the live ledger. */
  lemma FreezeGoesExactly(o: Owner, revisionOk: bool, ok: bool)
    requires OwnerInv(o)
    ensures PersistFreeze(o, revisionOk, ok).done <==> FreezeGoes(o, revisionOk, ok)
    ensures FreezeGoes(o, revisionOk, ok) ==> Load(PersistFreeze(o, revisionOk, ok).owner.log) == Some(o.ledger)
  {
    var first := PersistRevision(o, revisionOk);
    RevisionsGoExactly(o, revisionOk);
    PersistRevisionKeeps(o, revisionOk);
    FreezeInLog(first.owner);
    if PersistFreeze(o, revisionOk, ok).done {
      FreezeSaved(o, revisionOk, ok);
    }
    hide PersistRevision, Load, FreezeIn, Consistent, EveryPrefixLoads;
  }

  // ----- what success means -----

  lemma LastFact(log: seq<Fact>, f: Fact)
    ensures f.QuestionFact? ==> QuestionAt(log + [f], f.question.id) == Some(f.question)
    ensures f.AnswerFact? ==> AnswerAt(log + [f], f.answer.question) == Some(f.answer)
  {
    assert (log + [f])[..|log|] == log;
  }

  /** A committed question is in the log, which loads with it. */
  lemma QuestionSaved(o: Owner, q: Question, revisionOk: bool, ok: bool)
    requires OwnerInv(o) && CommitQuestion(o, q, revisionOk, ok).done
    ensures var after := CommitQuestion(o, q, revisionOk, ok).owner;
            && OwnerInv(after) && QuestionAt(after.log, q.id) == Some(q)
            && q.id in Persisted(after).questions && Persisted(after).questions[q.id] == q
  {
    var after := CommitQuestion(o, q, revisionOk, ok).owner;
    CommitQuestionKeeps(o, q, revisionOk, ok);
    QuestionWritten(o, q, revisionOk, ok);
    hide CommitQuestion;
    LoadExact(after.log, Persisted(after));
    QuestionKnown(Persisted(after), after.log, q.id);
  }

  lemma QuestionWritten(o: Owner, q: Question, revisionOk: bool, ok: bool)
    requires CommitQuestion(o, q, revisionOk, ok).done
    ensures QuestionAt(CommitQuestion(o, q, revisionOk, ok).owner.log, q.id) == Some(q)
  {
    hide PersistRevision, Load;
    LastFact(PersistRevision(o, revisionOk).owner.log, QuestionFact(q));
  }

  lemma AnswerStands(o: Owner, a: Answer, ok: bool)
    requires CommitAnswer(o, a, ok).done
    ensures AnswerAt(CommitAnswer(o, a, ok).owner.log, a.question) == Some(a)
  {
    hide AnswerAt, Reply, FreezeIn;
    LastFact(o.log, AnswerFact(a));
  }

  /** So is a committed answer, if its question was. */
  lemma AnswerSaved(o: Owner, a: Answer, ok: bool)
    requires OwnerInv(o) && CommitAnswer(o, a, ok).done && (WritesAnswer(o, a, ok) ==> QuestionLogged(o, a))
    ensures var after := CommitAnswer(o, a, ok).owner;
            && OwnerInv(after) && AnswerAt(after.log, a.question) == Some(a)
            && a.question in Persisted(after).answers && Persisted(after).answers[a.question] == a
  {
    var after := CommitAnswer(o, a, ok).owner;
    CommitAnswerExact(o, a, ok);
    AnswerStands(o, a, ok);
    hide CommitAnswer, WritesAnswer, QuestionLogged, AnswerAt, EveryPrefixLoads, Below, Load, LogOf, Consistent;
    LoadExact(after.log, Persisted(after));
    AnswerKnown(Persisted(after), after.log, a.question);
  }

  /** After a committed freeze the log loads as exactly the frozen ledger. */
  lemma FreezeSaved(o: Owner, revisionOk: bool, ok: bool)
    requires OwnerInv(o) && PersistFreeze(o, revisionOk, ok).done
    ensures var after := PersistFreeze(o, revisionOk, ok).owner;
            OwnerInv(after) && after.ledger == o.ledger && Persisted(after) == o.ledger
  {
    var first := PersistRevision(o, revisionOk);
    PersistRevisionKeeps(o, revisionOk);
    PersistFreezeKeeps(o, revisionOk, ok);
    FreezeInLog(first.owner);
    var p := Persisted(first.owner);
    if p.freeze.None? {
      assert p == o.ledger.(freeze := None);
      FreezeFactKeeps(first.owner);
    }
  }

  /**
   Whatever other owners commit meanwhile, as long as they keep the log loadable:
   no prefix of the log stops loading, success means that the log is frozen by
   exactly the live receipt, the own freeze is only ever written onto the facts
   that were read, and a refusal over others' facts leaves what they committed.
   */
  lemma FreezeAgainstOthers(o: Owner, revisionOk: bool, meanwhile: seq<Fact>, ok: bool)
    requires OwnerInv(o) && EveryPrefixLoads(PersistRevision(o, revisionOk).owner.log + meanwhile)
    ensures var t, read := FreezeAgainst(o, revisionOk, meanwhile, ok), PersistRevision(o, revisionOk).owner.log;
            && EveryPrefixLoads(t.owner.log) && Load(t.owner.log).Some?
            && (t.done ==> o.ledger.freeze.Some? && Persisted(t.owner).freeze == o.ledger.freeze)
            && (t.done && meanwhile == [] ==> Persisted(t.owner) == o.ledger)
            && (meanwhile != [] && AsksStore(o, revisionOk) ==>
                  && t.owner.log == read + meanwhile
                  && (FreezeIn(read + meanwhile).None? ==> !t.done && OwnerInv(t.owner)
                                                           && t.owner.ledger == Persisted(t.owner)))
  {
    var t, first := FreezeAgainst(o, revisionOk, meanwhile, ok), PersistRevision(o, revisionOk).owner;
    if meanwhile == [] || !AsksStore(o, revisionOk) {
      PersistFreezeKeeps(o, revisionOk, ok);
      if t.done { FreezeSaved(o, revisionOk, ok); }
    } else {
      var log := first.log + meanwhile;
      assert PrefixLoads(log, |log|) && log[..|log|] == log;
      LoadExact(log, Load(log).value);
    }
  }

  // ----- whole sequences of commands -----

  /** A command that writes an answer finds its question in the log. */
  predicate AnswersLogged(o: Owner, c: Command) {
    c.SaveAnswer? && WritesAnswer(o, c.answer, c.ok) ==> QuestionLogged(o, c.answer)
  }

  /** Any one command keeps every prefix of the log loadable, except an answer before its question. */
  lemma ExecuteExact(o: Owner, c: Command)
    requires OwnerInv(o)
    ensures OwnerInv(Execute(o, c)) <==> AnswersLogged(o, c)
  {
    match c
    case Live(op) =>
      PerformConsistent(o.ledger, op);
      LiveKeeps(o, op);
    case SaveRevision(ok) => PersistRevisionKeeps(o, ok);
    case SaveQuestion(q, revisionOk, ok) => CommitQuestionKeeps(o, q, revisionOk, ok);
    case SaveAnswer(a, ok) => CommitAnswerExact(o, a, ok);
    case SaveFreeze(revisionOk, ok) => PersistFreezeKeeps(o, revisionOk, ok);
    case Reload => RestoredKeeps(o);
  }

  /** Live and persisted questions and answers agree. */
  ghost predicate Synced(o: Owner) {
    OwnerInv(o) && Persisted(o).questions == o.ledger.questions && Persisted(o).answers == o.ledger.answers
  }

  predicate StoreWorks(c: Command) {
    match c
    case Live(_) => true
    case SaveRevision(ok) => ok
    case SaveQuestion(_, revisionOk, ok) => revisionOk && ok
    case SaveAnswer(_, ok) => ok
    case SaveFreeze(revisionOk, ok) => revisionOk && ok
    case Reload => true
  }

  /** The owner asks and answers only through the commands that also commit. */
  predicate Committing(c: Command) {
    c.Live? ==> !c.operation.AskOp? && !c.operation.ReplyOp?
  }

  lemma SyncedAnswersLogged(o: Owner, c: Command)
    requires Synced(o)
    ensures AnswersLogged(o, c)
  {
    if c.SaveAnswer? {
      LoadExact(o.log, Persisted(o));
      QuestionKnown(Persisted(o), o.log, c.answer.question);
    }
  }

  lemma AskSyncs(o: Owner, q: Question)
    requires Synced(o) && Ask(o.ledger, q).Some? && Persisted(o).revisions == o.ledger.revisions
    requires QuestionAt(o.log, q.id).None?
    ensures var t := Append(o.(ledger := Ask(o.ledger, q).value), QuestionFact(q), true);
            OwnerInv(t.owner) ==> Synced(t.owner)
  {
    var p := Persisted(o);
    LoadExact(o.log, p);
    FreezeInLog(o);
    QuestionKnown(p, o.log, q.id);
    var after := o.(ledger := Ask(o.ledger, q).value);
    if p.freeze.None? {
      AskedKeeps(o, q);
      QuestionFactKeeps(after, q);
    }
  }

  lemma QuestionSyncs(o: Owner, q: Question)
    requires Synced(o)
    ensures Synced(CommitQuestion(o, q, true, true).owner)
  {
    CommitQuestionKeeps(o, q, true, true);
    if Targets(o.ledger, q.revision) {
      var first := PersistRevision(o, true);
      PersistRevisionKeeps(o, true);
      if first.done && Ask(first.owner.ledger, q).Some? {
        var p := Persisted(first.owner);
        LoadExact(first.owner.log, p);
        QuestionKnown(p, first.owner.log, q.id);
        if QuestionAt(first.owner.log, q.id).None? {
          AskSyncs(first.owner, q);
        }
      }
    }
  }

  lemma AnswerSyncs(o: Owner, a: Answer)
    requires Synced(o)
    ensures Synced(CommitAnswer(o, a, true).owner)
  {
    var p := Persisted(o);
    SyncedAnswersLogged(o, SaveAnswer(a, true));
    CommitAnswerExact(o, a, true);
    LoadExact(o.log, p);
    FreezeInLog(o);
    QuestionKnown(p, o.log, a.question);
    AnswerKnown(p, o.log, a.question);
    if Reply(o.ledger, a).Some? && AnswerAt(o.log, a.question).None? && p.freeze.None? {
      var after := o.(ledger := Reply(o.ledger, a).value);
      RepliedKeeps(o, a);
      AnswerFactKeeps(after, a);
    }
  }

  lemma FreezeSyncs(o: Owner)
    requires Synced(o)
    ensures Synced(PersistFreeze(o, true, true).owner)
  {
    PersistFreezeKeeps(o, true, true);
    PersistRevisionKeeps(o, true);
    if o.ledger.freeze.Some? && PersistRevision(o, true).done {
      var first := PersistRevision(o, true).owner;
      FreezeInLog(first);
      var p := Persisted(first);
      if p.freeze.None? {
        assert p == o.ledger.(freeze := None);
        FreezeFactKeeps(first);
      }
    }
  }

  lemma LiveSyncs(o: Owner, op: Operation)
    requires Synced(o) && !op.AskOp? && !op.ReplyOp?
    ensures Synced(o.(ledger := Perform(o.ledger, op)))
  {
    PerformConsistent(o.ledger, op);
    LiveKeeps(o, op);
    AsksNothing(o.ledger, op);
  }

  lemma AsksNothing(l: Ledger, op: Operation)
    requires !op.AskOp? && !op.ReplyOp?
    ensures Perform(l, op).questions == l.questions && Perform(l, op).answers == l.answers
  {
  }

  lemma ExecuteSyncs(o: Owner, c: Command)
    requires Synced(o) && StoreWorks(c) && Committing(c)
    ensures Synced(Execute(o, c))
  {
    match c
    case Live(op) => LiveSyncs(o, op);
    case SaveRevision(ok) => PersistRevisionKeeps(o, ok);
    case SaveQuestion(q, revisionOk, ok) => QuestionSyncs(o, q);
    case SaveAnswer(a, ok) => AnswerSyncs(o, a);
    case SaveFreeze(revisionOk, ok) => FreezeSyncs(o);
    case Reload =>
      RestoredKeeps(o);
      assert Load(Restored(o).log) == Load(o.log);
  }

  lemma StartSynced()
    ensures Synced(START)
  {
    assert multiset(EMPTY.revisions) == multiset(RevisionsIn([]));
    LoadExact([], EMPTY);
    forall k: nat | k <= 0
      ensures PrefixLoads([], k)
    {
      assert START.log[..k] == [];
    }
  }

  lemma {:induction false} WorkingStoreSyncs(cs: seq<Command>)
    requires forall i :: 0 <= i < |cs| ==> Committing(cs[i]) && StoreWorks(cs[i])
    ensures Synced(ExecuteAll(START, cs))
  {
    if cs == [] {
      StartSynced();
    } else {
      WorkingStoreSyncs(cs[..|cs| - 1]);
      ExecuteSyncs(ExecuteAll(START, cs[..|cs| - 1]), cs[|cs| - 1]);
    }
  }

  /**
   After any commands with a working store, saving a live freeze leaves a log that
   loads as exactly the frozen live ledger if and only if at most one live revision
   was not persisted before.
   */
  lemma FreezeReachesLog(cs: seq<Command>)
    requires forall i :: 0 <= i < |cs| ==> Committing(cs[i]) && StoreWorks(cs[i])
    requires ExecuteAll(START, cs).ledger.freeze.Some?
    ensures var o, after := ExecuteAll(START, cs), ExecuteAll(START, cs + [SaveFreeze(true, true)]);
            && Load(o.log).Some?
            && (Load(after.log) == Some(o.ledger) <==> |o.ledger.revisions| <= |Persisted(o).revisions| + 1)
            && (Load(after.log) == Some(o.ledger) ==> FreezeIn(after.log) == o.ledger.freeze)
  {
    hide ExecuteAll, PersistFreeze, Synced, Load, FreezeIn, Committing, StoreWorks;
    WorkingStoreSyncs(cs);
    OneMoreCommand(START, cs, SaveFreeze(true, true));
    SyncedFreezeReaches(ExecuteAll(START, cs));
  }

  lemma OneMoreCommand(o: Owner, cs: seq<Command>, c: Command)
    ensures ExecuteAll(o, cs + [c]) == Execute(ExecuteAll(o, cs), c)
  {
    assert (cs + [c])[..|cs|] == cs;
    hide Execute;
  }

  lemma SyncedFreezeReaches(o: Owner)
    requires Synced(o) && o.ledger.freeze.Some?
    ensures Load(o.log).Some?
    ensures var log := PersistFreeze(o, true, true).owner.log;
            && (Load(log) == Some(o.ledger) <==> |o.ledger.revisions| <= |Persisted(o).revisions| + 1)
            && (Load(log) == Some(o.ledger) ==> FreezeIn(log) == o.ledger.freeze)
  {
    hide PersistFreeze, Load, FreezeIn, EveryPrefixLoads;
    FreezeGoesExactly(o, true, true);
    PersistFreezeKeeps(o, true, true);
    FreezeInLog(PersistFreeze(o, true, true).owner);
    FrozenHasRevision(o.ledger);
    if |Persisted(o).revisions| + 1 < |o.ledger.revisions| { StaysBehind(o); }
  }

  lemma FrozenHasRevision(l: Ledger)
    requires Consistent(l) && l.freeze.Some?
    ensures l.revisions != []
  {
  }

  /** With two or more live revisions missing in the log, the log stays as it is. */
  lemma StaysBehind(o: Owner)
    requires Synced(o) && o.ledger.freeze.Some? && |Persisted(o).revisions| + 1 < |o.ledger.revisions|
    ensures PersistFreeze(o, true, true).owner == o
  {
    PersistRevisionCases(o, true);
  }

  /**
   When commits stop at the first store failure, every prefix of the committed
   facts is a ledger that restores: over all commands, in any order, with the
   store failing at most in the last one.
   */
  lemma EveryPrefixRestores(cs: seq<Command>, k: nat)
    requires forall i :: 0 <= i < |cs| ==> Committing(cs[i]) && (i < |cs| - 1 ==> StoreWorks(cs[i]))
    requires k <= |ExecuteAll(START, cs).log|
    ensures Load(ExecuteAll(START, cs).log[..k]).Some?
  {
    if cs == [] {
      StartSynced();
      assert PrefixLoads(START.log, k);
    } else {
      var before := ExecuteAll(START, cs[..|cs| - 1]);
      var last := cs[|cs| - 1];
      WorkingStoreSyncs(cs[..|cs| - 1]);
      SyncedAnswersLogged(before, last);
      ExecuteExact(before, last);
      assert PrefixLoads(Execute(before, last).log, k);
    }
  }

  /**
   When the owner goes on after a failed question commit, the answer to that
   question reaches the log, and the log never restores again.
   */
  lemma AnswerAfterFailedQuestion(artifacts: string, q: Question, a: Answer)
    requires q.revision == 1 && a.revision == 1 && a.question == q.id && Allowed(q, a)
    ensures var cs := [Live(CreateOp(artifacts, 1)), SaveRevision(true), SaveQuestion(q, true, false),
                       SaveAnswer(a, true)];
            Load(ExecuteAll(START, cs).log).None?
  {
    var c0, c1 := Live(CreateOp(artifacts, 1)), SaveRevision(true);
    var c2, c3 := SaveQuestion(q, true, false), SaveAnswer(a, true);
    hide Execute, ExecuteAll, Load, OwnerInv;
    var r := Revision(1, 1, artifacts, SnapshotOf(artifacts, 1));
    var o2 := SavedFirst(artifacts, r);
    var o3 := Execute(o2, c2);
    SavedQuestionFails(o2, q, r);
    OrphanSaved(o3, q, a, r);
    ExecuteFour(c0, c1, c2, c3);
  }

  lemma SavedFirst(artifacts: string, r: Revision) returns (o: Owner)
    requires r == Revision(1, 1, artifacts, SnapshotOf(artifacts, 1))
    ensures o == Execute(Execute(START, Live(CreateOp(artifacts, 1))), SaveRevision(true))
    ensures OwnerInv(o) && o.log == [RevisionFact(r)] && o.ledger == Ledger([r], map[], map[], None)
  {
    var c0, c1 := Live(CreateOp(artifacts, 1)), SaveRevision(true);
    var o1 := Execute(START, c0);
    StartSynced();
    ExecuteExact(START, c0);
    assert o1.ledger == Ledger([r], map[], map[], None) && o1.log == [];
    LoadExact([], Persisted(o1));
    NoRevisions(Persisted(o1));
    PersistRevisionCases(o1, true);
    ExecuteExact(o1, c1);
    o := Execute(o1, c1);
    assert [] + [RevisionFact(r)] == [RevisionFact(r)];
  }

  lemma NoRevisions(p: Ledger)
    requires LogOf(p, [])
    ensures p.revisions == [] && p.freeze.None?
  {
    assert |multiset(p.revisions)| == |p.revisions|;
  }

  lemma SavedQuestionFails(o: Owner, q: Question, r: Revision)
    requires OwnerInv(o) && o.log == [RevisionFact(r)] && o.ledger == Ledger([r], map[], map[], None)
    requires q.revision == r.id
    ensures Execute(o, SaveQuestion(q, true, false))
        == Owner(Ledger([r], map[q.id := q], map[], None), [RevisionFact(r)])
    ensures OwnerInv(Execute(o, SaveQuestion(q, true, false)))
  {
    hide OwnerInv, CommitQuestion, Load;
    ExecuteExact(o, SaveQuestion(q, true, false));
    FailedQuestion(o, q, r);
  }

  lemma OrphanSaved(o: Owner, q: Question, a: Answer, r: Revision)
    requires OwnerInv(o) && o == Owner(Ledger([r], map[q.id := q], map[], None), [RevisionFact(r)])
    requires q.revision == r.id == a.revision && a.question == q.id && Allowed(q, a)
    ensures Load(Execute(o, SaveAnswer(a, true)).log).None?
  {
    hide OwnerInv, Load, LogOf;
    var p := OrphanIn(o, q, r);
    OrphanCommitted(o, q, a, r);
    OrphanAnswerBreaks(o.log, p, a);
  }

  /** The persisted ledger lacks the question. */
  lemma OrphanIn(o: Owner, q: Question, r: Revision) returns (p: Ledger)
    requires OwnerInv(o) && o.log == [RevisionFact(r)]
    ensures LogOf(p, o.log) && q.id !in p.questions
  {
    p := Persisted(o);
    LoadExact(o.log, p);
    QuestionKnown(p, o.log, q.id);
    NotInLog(r, q.id);
  }

  /** The answer is written all the same. */
  lemma OrphanCommitted(o: Owner, q: Question, a: Answer, r: Revision)
    requires o == Owner(Ledger([r], map[q.id := q], map[], None), [RevisionFact(r)])
    requires q.revision == r.id == a.revision && a.question == q.id && Allowed(q, a)
    ensures Execute(o, SaveAnswer(a, true)).log == o.log + [AnswerFact(a)]
  {
    hide Load;
    NotInLog(r, q.id);
    assert Reply(o.ledger, a).Some?;
  }

  lemma NotInLog(r: Revision, id: Id)
    ensures QuestionAt([RevisionFact(r)], id).None? && AnswerAt([RevisionFact(r)], id).None?
    ensures FreezeIn([RevisionFact(r)]).None?
  {
  }

  lemma FailedQuestion(o: Owner, q: Question, r: Revision)
    requires OwnerInv(o) && o.log == [RevisionFact(r)] && o.ledger == Ledger([r], map[], map[], None)
    requires q.revision == r.id
    ensures CommitQuestion(o, q, true, false).owner
            == Owner(Ledger([r], map[q.id := q], map[], None), [RevisionFact(r)])
  {
    PersistRevisionCases(o, true);
    LoadExact(o.log, Persisted(o));
    OneRevision(Persisted(o), r);
    RefusedQuestion(o, q, r);
  }

  lemma OneRevision(p: Ledger, r: Revision)
    requires LogOf(p, [RevisionFact(r)])
    ensures |p.revisions| == 1
  {
    assert RevisionsIn([RevisionFact(r)]) == [r];
    assert |multiset(p.revisions)| == |multiset([r])|;
  }

  lemma RefusedQuestion(o: Owner, q: Question, r: Revision)
    requires o.log == [RevisionFact(r)] && o.ledger == Ledger([r], map[], map[], None) && q.revision == r.id
    requires PersistRevision(o, true) == Attempt(o, true)
    ensures CommitQuestion(o, q, true, false).owner
            == Owner(Ledger([r], map[q.id := q], map[], None), [RevisionFact(r)])
  {
    assert QuestionAt([RevisionFact(r)], q.id).None? && FreezeIn([RevisionFact(r)]).None?;
    assert Ask(o.ledger, q) == Some(Ledger([r], map[q.id := q], map[], None));
  }

  lemma ExecuteFour(a: Command, b: Command, c: Command, d: Command)
    ensures ExecuteAll(START, [a, b, c, d]) == Execute(Execute(Execute(Execute(START, a), b), c), d)
  {
    assert [a, b, c, d][..3] == [a, b, c] && [a, b, c][..2] == [a, b] && [a, b][..1] == [a] && [a][..0] == [];
    assert ExecuteAll(START, [a]) == Execute(START, a);
    assert ExecuteAll(START, [a, b]) == Execute(ExecuteAll(START, [a]), b);
    assert ExecuteAll(START, [a, b, c]) == Execute(ExecuteAll(START, [a, b]), c);
  }
}
