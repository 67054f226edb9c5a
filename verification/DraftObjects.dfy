/** The Draft ledger and its owner as the objects that `runtime/draft.py` and `runtime/draft_graph.py` mutate. */
module DraftObjects {
  import opened Counting
  import opened Options
  import opened Sorting
  import opened DraftLedgers
  import opened DraftFactLog

  class DraftLedger {
    var revisions: seq<Revision>
    var currentId: Option<Id>
    var questions: map<Id, Question>
    var answers: map<Id, Answer>
    var freezeReceipt: Option<FreezeReceipt>

    ghost function Contents(): Ledger
      reads this
    {
      Ledger(revisions, questions, answers, freezeReceipt)
    }

    ghost predicate Valid()
      reads this
    {
      && Consistent(Contents())
      && currentId == (if revisions == [] then None else Some(revisions[|revisions| - 1].id))
    }

    constructor ()
      ensures Valid() && Contents() == EMPTY
    {
      revisions, currentId, questions, answers, freezeReceipt := [], None, map[], map[], None;
    }

    /** The revision the current identifier names. */
    method CurrentRevision() returns (r: Option<Revision>)
      requires Valid()
      ensures r == Current(Contents())
    {
      if currentId.None? {
        return None;
      }
      for i := 0 to |revisions|
        invariant forall j :: 0 <= j < i ==> revisions[j].id != currentId.value
      {
        if revisions[i].id == currentId.value {
          return Some(revisions[i]);
        }
      }
      assert false;
    }

    method NewRevision(artifacts: string, id: Id)
      requires Valid() && freezeReceipt.None? && !HasRevision(revisions, id)
      modifies this
      ensures Valid() && Contents() == Added(old(Contents()), artifacts, id)
    {
      AddedIsConsistent(Contents(), artifacts, id);
      var number := |revisions| + 1;
      revisions := revisions + [Revision(id, number, artifacts, SnapshotOf(artifacts, number))];
      currentId := Some(id);
    }

    method ReviseRevision(revision: Id, artifacts: string, id: Id) returns (ok: bool)
      requires Valid() && !HasRevision(revisions, id)
      modifies this
      ensures Valid() && ok == Revise(old(Contents()), revision, artifacts, id).Some?
      ensures Contents() == if ok then Revise(old(Contents()), revision, artifacts, id).value else old(Contents())
    {
      var current := CurrentRevision();
      if current.None? || current.value.id != revision || freezeReceipt.Some? {
        return false;
      }
      if SnapshotOf(artifacts, current.value.number) != current.value.snapshot {
        NewRevision(artifacts, id);
      }
      ok := true;
    }

    method CreateRevision(artifacts: string, id: Id) returns (ok: bool)
      requires Valid() && !HasRevision(revisions, id)
      modifies this
      ensures Valid() && ok == Create(old(Contents()), artifacts, id).Some?
      ensures Contents() == if ok then Create(old(Contents()), artifacts, id).value else old(Contents())
    {
      var current := CurrentRevision();
      if current.Some? {
        ok := ReviseRevision(current.value.id, artifacts, id);
      } else if freezeReceipt.Some? {
        ok := false;
      } else {
        NewRevision(artifacts, id);
        ok := true;
      }
    }

    method AppendQuestion(q: Question) returns (ok: bool)
      requires Valid()
      modifies this
      ensures Valid() && ok == Ask(old(Contents()), q).Some?
      ensures Contents() == if ok then Ask(old(Contents()), q).value else old(Contents())
    {
      AskKeeps(Contents(), q);
      var current := CurrentRevision();
      if current.None? || current.value.id != q.revision {
        return false;
      }
      if q.id in questions {
        return questions[q.id] == q;
      }
      if freezeReceipt.Some? {
        return false;
      }
      questions := questions[q.id := q];
      return true;
    }

    method AnswerQuestion(a: Answer) returns (ok: bool)
      requires Valid()
      modifies this
      ensures Valid() && ok == Reply(old(Contents()), a).Some?
      ensures Contents() == if ok then Reply(old(Contents()), a).value else old(Contents())
    {
      ReplyKeeps(Contents(), a);
      var current := CurrentRevision();
      if current.None? || current.value.id != a.revision || a.question !in questions {
        return false;
      }
      var q := questions[a.question];
      if q.revision != a.revision || !Allowed(q, a) {
        return false;
      }
      if a.question in answers {
        return answers[a.question] == a;
      }
      if freezeReceipt.Some? {
        return false;
      }
      answers := answers[a.question := a];
      return true;
    }

    /** The questions of a revision, in some order. */
    method ListQuestions(revision: Id) returns (ids: seq<Id>)
      ensures Distinct(ids) && Members(ids) == QuestionsOf(questions, revision)
    {
      ids := Listed(QuestionsOf(questions, revision));
    }

    /**
     Freezing is all or nothing; without explicit pointers it takes every question
     of the current revision, and their order does not matter.
     */
    method FreezeRevision(revision: Id, pointers: Option<seq<Id>>) returns (receipt: Option<FreezeReceipt>)
      requires Valid()
      modifies this
      ensures Valid()
      ensures pointers.Some? ==> receipt == Freeze(old(Contents()), revision, pointers.value)
      ensures pointers.None? ==>
                exists ids: seq<Id> :: Distinct(ids) && Members(ids) == QuestionsOf(questions, revision)
                              && receipt == Freeze(old(Contents()), revision, ids)
      ensures Contents() == if receipt.Some? then old(Contents()).(freeze := receipt) else old(Contents())
    {
      var selected := [];
      if pointers.Some? {
        selected := pointers.value;
      } else {
        selected := ListQuestions(revision);
      }
      receipt := FreezeSelected(revision, selected);
    }

    method FreezeSelected(revision: Id, selected: seq<Id>) returns (receipt: Option<FreezeReceipt>)
      requires Valid()
      modifies this
      ensures Valid() && receipt == Freeze(old(Contents()), revision, selected)
      ensures Contents() == if receipt.Some? then old(Contents()).(freeze := receipt) else old(Contents())
      ensures questions == old(questions)
    {
      FreezeKeeps(Contents(), revision, selected);
      var current := CurrentRevision();
      if current.None? || current.value.id != revision {
        return None;
      }
      if freezeReceipt.Some? {
        return if freezeReceipt.value.revision == revision then freezeReceipt else None;
      }
      if !Distinct(selected) || Members(selected) != QuestionsOf(questions, revision) {
        return None;
      }
      if exists i :: i in selected && i !in answers {
        return None;
      }
      var r := current.value;
      receipt := Some(FreezeReceipt(r.id, r.number, r.snapshot, r.snapshot.digest, SortBy(selected, IdKey())));
      freezeReceipt := receipt;
    }

    /** A ledger object with the given contents, once they are known to be consistent. */
    constructor Rebuild(
      revisions: seq<Revision>, questions: map<Id, Question>, answers: map<Id, Answer>, freeze: Option<FreezeReceipt>)
      requires Consistent(Ledger(revisions, questions, answers, freeze))
      ensures Valid() && Contents() == Ledger(revisions, questions, answers, freeze)
    {
      this.revisions, this.questions, this.answers, freezeReceipt := revisions, questions, answers, freeze;
      currentId := if revisions == [] then None else Some(revisions[|revisions| - 1].id);
    }
  }

  method CheckRevisions(ordered: seq<Revision>) returns (ok: bool)
    ensures ok == RevisionsOk(ordered)
  {
    var ids: set<Id> := {};
    for i := 0 to |ordered|
      invariant ids == set j | 0 <= j < i :: ordered[j].id
      invariant RevisionsOk(ordered[..i])
    {
      var r := ordered[i];
      assert ordered[..i + 1] == ordered[..i] + [r];
      if r.number != i + 1 || r.id in ids || r.snapshot != SnapshotOf(r.artifacts, r.number) {
        return false;
      }
      ids := ids + {r.id};
    }
    assert ordered[..|ordered|] == ordered;
    ok := true;
  }

  method CollectQuestions(ordered: seq<Revision>, qs: seq<Question>) returns (m: Option<map<Id, Question>>)
    ensures m == AddQuestions(ordered, qs)
  {
    var got: map<Id, Question> := map[];
    for i := 0 to |qs|
      invariant AddQuestions(ordered, qs[..i]) == Some(got)
    {
      assert qs[..i + 1][..i] == qs[..i];
      if !HasRevision(ordered, qs[i].revision) || qs[i].id in got {
        QuestionsRefused(ordered, qs, i + 1);
        return None;
      }
      got := got[qs[i].id := qs[i]];
    }
    assert qs[..|qs|] == qs;
    return Some(got);
  }

  lemma {:induction false} QuestionsRefused(ordered: seq<Revision>, qs: seq<Question>, n: nat)
    requires n <= |qs| && AddQuestions(ordered, qs[..n]).None?
    ensures AddQuestions(ordered, qs).None?
  {
    if n == |qs| {
      assert qs[..n] == qs;
    } else {
      assert qs[..|qs| - 1][..n] == qs[..n];
      QuestionsRefused(ordered, qs[..|qs| - 1], n);
    }
  }

  method CollectAnswers(questions: map<Id, Question>, answers: seq<Answer>) returns (m: Option<map<Id, Answer>>)
    ensures m == AddAnswers(questions, answers)
  {
    var got: map<Id, Answer> := map[];
    for i := 0 to |answers|
      invariant AddAnswers(questions, answers[..i]) == Some(got)
    {
      assert answers[..i + 1][..i] == answers[..i];
      var a := answers[i];
      if a.question !in questions || a.question in got || a.revision != questions[a.question].revision
         || !Allowed(questions[a.question], a) {
        AnswersRefused(questions, answers, i + 1);
        return None;
      }
      got := got[a.question := a];
    }
    assert answers[..|answers|] == answers;
    return Some(got);
  }

  lemma {:induction false} AnswersRefused(questions: map<Id, Question>, answers: seq<Answer>, n: nat)
    requires n <= |answers| && AddAnswers(questions, answers[..n]).None?
    ensures AddAnswers(questions, answers).None?
  {
    if n == |answers| {
      assert answers[..n] == answers;
    } else {
      assert answers[..|answers| - 1][..n] == answers[..n];
      AnswersRefused(questions, answers[..|answers| - 1], n);
    }
  }

  /**
   Restore a ledger object from its facts, one by one; nothing as soon as one of
   them is inconsistent.
   */
  method RestoreLedger(
    revisions: seq<Revision>, questions: seq<Question>, answers: seq<Answer>, freeze: Option<FreezeReceipt>)
    returns (ledger: DraftLedger?)
    ensures ledger == null <==> Restore(revisions, questions, answers, freeze).None?
    ensures ledger != null ==>
              && fresh(ledger) && ledger.Valid()
              && Restore(revisions, questions, answers, freeze) == Some(ledger.Contents())
  {
    var ordered := SortBy(revisions, NumberKey());
    var ok := CheckRevisions(ordered);
    if !ok {
      return null;
    }
    var qs := CollectQuestions(ordered, questions);
    if qs.None? {
      return null;
    }
    var replies := CollectAnswers(qs.value, answers);
    if replies.None? {
      return null;
    }
    QuestionsAdded(ordered, questions);
    AnswersAdded(qs.value, answers);
    var rebuilt := new DraftLedger.Rebuild(ordered, qs.value, replies.value, None);
    if freeze.Some? {
      ghost var open := rebuilt.Contents();
      var computed := rebuilt.FreezeRevision(freeze.value.revision, Some(freeze.value.answered));
      if computed != freeze {
        return null;
      }
    }
    return rebuilt;
  }

  /** The owner of a live ledger object: every commit is one fact, and says whether it succeeded. */
  class DraftFlowOwner {
    var ledger: DraftLedger
    var log: seq<Fact>

    ghost function Now(): Owner
      reads this, ledger
    {
      Owner(ledger.Contents(), log)
    }

    ghost predicate Valid()
      reads this, ledger
    {
      ledger.Valid()
    }

    /** Every prefix of the log loads, and the log loads as a part of the live ledger. */
    ghost predicate Durable()
      reads this, ledger
    {
      Valid() && OwnerInv(Now())
    }

    constructor ()
      ensures Durable() && fresh(ledger) && Now() == START
    {
      ledger := new DraftLedger();
      log := [];
      new;
      StartSynced();
    }

    /** Sort the facts by kind, then rebuild the ledger from them. */
    method LoadPersisted() returns (persisted: DraftLedger?)
      ensures persisted == null <==> Load(log).None?
      ensures persisted != null ==> fresh(persisted) && persisted.Valid() && Load(log) == Some(persisted.Contents())
    {
      var revisions, questions, answers, freeze := [], [], [], None;
      for i := 0 to |log|
        invariant revisions == RevisionsIn(log[..i]) && questions == QuestionsIn(log[..i])
        invariant answers == AnswersIn(log[..i]) && freeze == FreezeIn(log[..i])
      {
        assert log[..i + 1][..i] == log[..i];
        match log[i]
        case RevisionFact(r) => revisions := revisions + [r];
        case QuestionFact(q) => questions := questions + [q];
        case AnswerFact(a) => answers := answers + [a];
        case FreezeFact(f) => freeze := Some(f);
      }
      assert log[..|log|] == log;
      persisted := RestoreLedger(revisions, questions, answers, freeze);
    }

    /** After a restore the live ledger is a new one that equals what the log loads as. */
    method RestoreFromLog()
      requires Valid()
      modifies this`ledger
      ensures Valid() && Now() == Restored(old(Now()))
      ensures Load(log).Some? ==> fresh(ledger) && Load(log) == Some(ledger.Contents())
      ensures Load(log).None? ==> ledger == old(ledger)
      ensures old(Durable()) ==> Durable()
    {
      if OwnerInv(Now()) { RestoredKeeps(Now()); }
      var persisted := LoadPersisted();
      if persisted != null {
        ledger := persisted;
      }
    }

    /**
     A fact reaches the end of an open log, or nothing does; a frozen one makes the
     owner forget what it holds beyond it.
     */
    method AppendFact(f: Fact, ok: bool) returns (done: bool)
      requires Valid()
      modifies this
      ensures Valid() && Attempt(Now(), done) == Append(old(Now()), f, ok)
      ensures done <==> FreezeIn(old(log)).None? && ok
      ensures log == if done then old(log) + [f] else old(log)
      ensures done ==> ledger == old(ledger)
      ensures ledger == old(ledger) || (fresh(ledger) && Load(log) == Some(ledger.Contents()))
      ensures !done && old(Durable()) ==> Durable()
    {
      if FreezeIn(log).Some? {
        RestoreFromLog();
        return false;
      }
      if !ok {
        return false;
      }
      log := log + [f];
      return true;
    }

    /** Success means that the log loads with exactly the live revisions. */
    method PersistCurrentRevision(ok: bool) returns (done: bool)
      requires Valid()
      modifies this
      ensures Valid() && Attempt(Now(), done) == PersistRevision(old(Now()), ok)
      ensures ledger == old(ledger) || (!done && fresh(ledger))
      ensures old(Durable()) ==> Durable() && (done ==> Persisted(Now()).revisions == ledger.revisions)
      ensures old(Durable()) ==> (done <==> RevisionsGo(old(Now()), ok))
    {
      if OwnerInv(Now()) {
        PersistRevisionKeeps(Now(), ok);
        RevisionsGoExactly(Now(), ok);
      }
      var current := ledger.CurrentRevision();
      var persisted := LoadPersisted();
      if current.None? || persisted == null {
        return false;
      }
      var existing := RevisionNumbered(log, current.value.number);
      if existing.Some? {
        var last := persisted.CurrentRevision();
        return existing == current && last == current;
      }
      if persisted.freezeReceipt.Some? || current.value.number != |persisted.revisions| + 1 {
        return false;
      }
      done := AppendFact(RevisionFact(current.value), ok);
    }

    /** Success means that the question is in the log, and the log loads with it. */
    method CommitQuestionFact(q: Question, revisionOk: bool, ok: bool) returns (done: bool)
      requires Valid()
      modifies this, ledger
      ensures Valid() && Attempt(Now(), done) == CommitQuestion(old(Now()), q, revisionOk, ok)
      ensures old(Durable()) ==> Durable() && (done <==> QuestionGoes(old(Now()), q, revisionOk, ok))
      ensures done && old(Durable()) ==> q.id in Persisted(Now()).questions && Persisted(Now()).questions[q.id] == q
    {
      hide OwnerInv, Load, PersistRevision, Append, QuestionAt, Ask, Consistent, QuestionGoes, RevisionsGo;
      CommitsQuestion(Now(), q, revisionOk, ok);
      var current := ledger.CurrentRevision();
      if current.None? || current.value.id != q.revision {
        return false;
      }
      done := PersistCurrentRevision(revisionOk);
      if !done {
        return;
      }
      var previous := QuestionAt(log, q.id);
      if previous.Some? && previous.value != q {
        return false;
      }
      var asked := ledger.AppendQuestion(q);
      if !asked {
        return false;
      }
      if previous.Some? {
        return true;
      }
      done := AppendFact(QuestionFact(q), ok);
    }

    /**
     Success means that the answer is in the log, and the log loads with it; but
     only if the question was committed, which nothing here asks.
     */
    method CommitAnswerFact(a: Answer, ok: bool) returns (done: bool)
      requires Valid()
      modifies this, ledger
      ensures Valid() && Attempt(Now(), done) == CommitAnswer(old(Now()), a, ok)
      ensures old(Durable()) ==> (Durable() <==> old(WritesAnswer(Now(), a, ok) ==> QuestionLogged(Now(), a)))
      ensures old(Durable()) ==> (done <==> AnswerGoes(old(Now()), a, ok))
      ensures done && old(Durable()) && Durable() ==>
                a.question in Persisted(Now()).answers && Persisted(Now()).answers[a.question] == a
    {
      hide OwnerInv, Load, Append, AnswerAt, Reply, Consistent, AnswerGoes;
      CommitsAnswer(Now(), a, ok);
      var replied := ledger.AnswerQuestion(a);
      if !replied {
        return false;
      }
      var existing := AnswerAt(log, a.question);
      if existing.Some? {
        return existing.value == a;
      }
      done := AppendFact(AnswerFact(a), ok);
    }

    /**
     Other owners may commit their facts (`meanwhile`) while this one waits for the
     store.  Without any, success means that the log loads as exactly the frozen
     live ledger; with some, nothing is written but what they wrote.
     */
    method PersistFreezeReceipt(revisionOk: bool, meanwhile: seq<Fact>, ok: bool) returns (done: bool)
      requires Valid()
      modifies this
      ensures Valid() && Attempt(Now(), done) == FreezeAgainst(old(Now()), revisionOk, meanwhile, ok)
      ensures old(Durable()) && meanwhile == [] ==> Durable()
      ensures old(Durable()) && meanwhile == [] ==> (done <==> FreezeGoes(old(Now()), revisionOk, ok))
      ensures done && old(Durable()) && meanwhile == [] ==>
                ledger.Contents() == old(ledger.Contents()) && Load(log) == Some(ledger.Contents())
    {
      hide OwnerInv, Load, PersistRevision, Append, FreezeIn, Consistent, FreezeGoes, RevisionsGo;
      CommitsFreeze(Now(), revisionOk, ok);
      var frozen := ledger.freezeReceipt;
      if frozen.None? {
        return false;
      }
      done := PersistCurrentRevision(revisionOk);
      if !done {
        return;
      }
      var persisted := LoadPersisted();
      if persisted == null || persisted.questions != ledger.questions || persisted.answers != ledger.answers {
        return false;
      }
      if persisted.freezeReceipt.Some? && persisted.freezeReceipt != frozen {
        return false;
      }
      FreezeLoads(log);
      assert log + [] == log;
      log := log + meanwhile;
      if FreezeIn(log).Some? {
        return FreezeIn(log) == frozen;
      }
      if meanwhile != [] {
        RestoreFromLog();
        return false;
      }
      done := AppendFact(FreezeFact(frozen.value), ok);
    }
  }

  lemma FreezeLoads(log: seq<Fact>)
    requires Load(log).Some?
    ensures Load(log).value.freeze == FreezeIn(log)
  {
    LoadExact(log, Load(log).value);
  }

  lemma CommitsQuestion(o: Owner, q: Question, revisionOk: bool, ok: bool)
    ensures var t := CommitQuestion(o, q, revisionOk, ok);
            OwnerInv(o) ==>
              && OwnerInv(t.owner) && (t.done <==> QuestionGoes(o, q, revisionOk, ok))
              && (t.done ==> q.id in Persisted(t.owner).questions && Persisted(t.owner).questions[q.id] == q)
  {
    if OwnerInv(o) {
      CommitQuestionKeeps(o, q, revisionOk, ok);
      QuestionGoesExactly(o, q, revisionOk, ok);
      hide QuestionGoes;
      if CommitQuestion(o, q, revisionOk, ok).done { QuestionSaved(o, q, revisionOk, ok); }
    }
  }

  lemma CommitsAnswer(o: Owner, a: Answer, ok: bool)
    ensures var t := CommitAnswer(o, a, ok);
            OwnerInv(o) ==>
              && (OwnerInv(t.owner) <==> (WritesAnswer(o, a, ok) ==> QuestionLogged(o, a)))
              && (t.done <==> AnswerGoes(o, a, ok))
              && (t.done && OwnerInv(t.owner) ==>
                    a.question in Persisted(t.owner).answers && Persisted(t.owner).answers[a.question] == a)
  {
    if OwnerInv(o) {
      CommitAnswerExact(o, a, ok);
      AnswerGoesExactly(o, a, ok);
      hide AnswerGoes;
      if CommitAnswer(o, a, ok).done && (WritesAnswer(o, a, ok) ==> QuestionLogged(o, a)) { AnswerSaved(o, a, ok); }
    }
  }

  lemma CommitsFreeze(o: Owner, revisionOk: bool, ok: bool)
    ensures var t := PersistFreeze(o, revisionOk, ok);
            OwnerInv(o) ==>
              && OwnerInv(t.owner) && (t.done <==> FreezeGoes(o, revisionOk, ok))
              && (t.done ==> t.owner.ledger == o.ledger && Load(t.owner.log) == Some(o.ledger))
  {
    if OwnerInv(o) {
      PersistFreezeKeeps(o, revisionOk, ok);
      FreezeGoesExactly(o, revisionOk, ok);
      hide FreezeGoes;
      if PersistFreeze(o, revisionOk, ok).done { FreezeSaved(o, revisionOk, ok); }
    }
  }
}
