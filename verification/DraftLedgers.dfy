/**
 The Draft ledger (`runtime/draft.py`): it grows live, and `restore` rebuilds it
 from the facts that were exported.  A UUID is its 128-bit value, which orders as
 its text does; the digest of artifacts is represented by the artifacts.
 */
module DraftLedgers {
  import opened Counting
  import opened Options
  import opened Sorting

  type Id = nat

  datatype Snapshot = Snapshot(digest: string, version: nat)

  datatype Revision = Revision(id: Id, number: nat, artifacts: string, snapshot: Snapshot)

  datatype Question = Question(id: Id, revision: Id, prompt: string, options: set<string>, freeText: bool)

  datatype Choice = Selected(option: string) | Text(text: string)

  datatype Answer = Answer(question: Id, revision: Id, choice: Choice)

  datatype FreezeReceipt =
    FreezeReceipt(revision: Id, number: nat, snapshot: Snapshot, bundle: string, answered: seq<Id>)

  /** Revisions are kept in the order they were added. */
  datatype Ledger = Ledger(
    revisions: seq<Revision>, questions: map<Id, Question>, answers: map<Id, Answer>, freeze: Option<FreezeReceipt>)

  const EMPTY: Ledger := Ledger([], map[], map[], None)

  function SnapshotOf(artifacts: string, version: nat): Snapshot {
    Snapshot(artifacts, version)
  }

  function NumberKey(): Revision -> nat {
    (r: Revision) => r.number
  }

  function IdKey(): Id -> nat {
    (i: Id) => i
  }

  predicate HasRevision(revisions: seq<Revision>, id: Id) {
    exists i :: 0 <= i < |revisions| && revisions[i].id == id
  }

  function Current(l: Ledger): Option<Revision> {
    if l.revisions == [] then None else Some(l.revisions[|l.revisions| - 1])
  }

  predicate Targets(l: Ledger, revision: Id) {
    l.revisions != [] && l.revisions[|l.revisions| - 1].id == revision
  }

  predicate Allowed(q: Question, a: Answer) {
    match a.choice
    case Selected(option) => option in q.options
    case Text(_) => q.freeText
  }

  // ----- live operations: the ledger afterwards, or a conflict -----

  function Added(l: Ledger, artifacts: string, id: Id): Ledger {
    var number := |l.revisions| + 1;
    l.(revisions := l.revisions + [Revision(id, number, artifacts, SnapshotOf(artifacts, number))])
  }

  function Revise(l: Ledger, revision: Id, artifacts: string, id: Id): Option<Ledger> {
    if !Targets(l, revision) || l.freeze.Some? then None
    else
      var current := l.revisions[|l.revisions| - 1];
      if SnapshotOf(artifacts, current.number) == current.snapshot then Some(l) else Some(Added(l, artifacts, id))
  }

  function Create(l: Ledger, artifacts: string, id: Id): Option<Ledger> {
    if l.revisions != [] then Revise(l, l.revisions[|l.revisions| - 1].id, artifacts, id)
    else if l.freeze.Some? then None
    else Some(Added(l, artifacts, id))
  }

  function Ask(l: Ledger, q: Question): Option<Ledger> {
    if !Targets(l, q.revision) then None
    else if q.id in l.questions then (if l.questions[q.id] == q then Some(l) else None)
    else if l.freeze.Some? then None
    else Some(l.(questions := l.questions[q.id := q]))
  }

  function Reply(l: Ledger, a: Answer): Option<Ledger> {
    if !Targets(l, a.revision) || a.question !in l.questions then None
    else
      var q := l.questions[a.question];
      if q.revision != a.revision || !Allowed(q, a) then None
      else if a.question in l.answers then (if l.answers[a.question] == a then Some(l) else None)
      else if l.freeze.Some? then None
      else Some(l.(answers := l.answers[a.question := a]))
  }

  function QuestionsOf(questions: map<Id, Question>, revision: Id): set<Id> {
    set i | i in questions && questions[i].revision == revision
  }

  /** Freezing with explicit answer pointers; without them the caller lists the questions in any order. */
  function Freeze(l: Ledger, revision: Id, selected: seq<Id>): Option<FreezeReceipt> {
    if !Targets(l, revision) then None
    else if l.freeze.Some? then (if l.freeze.value.revision == revision then l.freeze else None)
    else if !Distinct(selected) || Members(selected) != QuestionsOf(l.questions, revision) then None
    else if exists i :: i in selected && i !in l.answers then None
    else
      var r := l.revisions[|l.revisions| - 1];
      Some(FreezeReceipt(r.id, r.number, r.snapshot, r.snapshot.digest, SortBy(selected, IdKey())))
  }

  // ----- restoring -----

  predicate RevisionsOk(revisions: seq<Revision>) {
    && (forall i :: 0 <= i < |revisions| ==>
          revisions[i].number == i + 1
              && revisions[i].snapshot == SnapshotOf(revisions[i].artifacts, revisions[i].number))
    && (forall i, j :: 0 <= i < j < |revisions| ==> revisions[i].id != revisions[j].id)
  }

  /** The questions one by one: each of a known revision, none twice. */
  function AddQuestions(revisions: seq<Revision>, qs: seq<Question>): Option<map<Id, Question>> {
    if qs == [] then Some(map[])
    else
      var q := qs[|qs| - 1];
      var before := AddQuestions(revisions, qs[..|qs| - 1]);
      if before.None? || !HasRevision(revisions, q.revision) || q.id in before.value then None
      else Some(before.value[q.id := q])
  }

  function AddAnswers(questions: map<Id, Question>, answers: seq<Answer>): Option<map<Id, Answer>> {
    if answers == [] then Some(map[])
    else
      var a := answers[|answers| - 1];
      var before := AddAnswers(questions, answers[..|answers| - 1]);
      if before.None? || a.question !in questions || a.question in before.value
         || a.revision != questions[a.question].revision || !Allowed(questions[a.question], a) then None
      else Some(before.value[a.question := a])
  }

  function AddFreeze(l: Ledger, freeze: Option<FreezeReceipt>): Option<Ledger> {
    if freeze.None? then Some(l)
    else
      var computed := Freeze(l, freeze.value.revision, freeze.value.answered);
      if computed != freeze then None else Some(l.(freeze := freeze))
  }

  function Restore(
    revisions: seq<Revision>, questions: seq<Question>, answers: seq<Answer>, freeze: Option<FreezeReceipt>)
    : Option<Ledger>
  {
    var ordered := SortBy(revisions, NumberKey());
    if !RevisionsOk(ordered) then None
    else
      var qs := AddQuestions(ordered, questions);
      if qs.None? then None
      else
        var replies := AddAnswers(qs.value, answers);
        if replies.None? then None else AddFreeze(Ledger(ordered, qs.value, replies.value, None), freeze)
  }

  // ----- what a ledger keeps -----

  ghost predicate QuestionsOk(revisions: seq<Revision>, questions: map<Id, Question>) {
    forall i :: i in questions ==> questions[i].id == i && HasRevision(revisions, questions[i].revision)
  }

  ghost predicate AnswersOk(questions: map<Id, Question>, answers: map<Id, Answer>) {
    forall i :: i in answers ==>
      && answers[i].question == i && i in questions
      && answers[i].revision == questions[i].revision && Allowed(questions[i], answers[i])
  }

  /** The receipt is the one the rest of the ledger yields: all questions of the last revision, answered, in order. */
  ghost predicate FreezeOk(l: Ledger) {
    l.freeze.Some? ==>
      var f := l.freeze.value;
      && Targets(l, f.revision)
      && StrictlyAscending(f.answered, IdKey()) && Members(f.answered) == QuestionsOf(l.questions, f.revision)
      && (forall i :: i in f.answered ==> i in l.answers)
      && var r := l.revisions[|l.revisions| - 1];
         f == FreezeReceipt(r.id, r.number, r.snapshot, r.snapshot.digest, f.answered)
  }

  ghost predicate Consistent(l: Ledger) {
    RevisionsOk(l.revisions) && QuestionsOk(l.revisions, l.questions) && AnswersOk(l.questions, l.answers)
        && FreezeOk(l)
  }

  /** Live revisions always change the artifacts. */
  ghost predicate Changing(revisions: seq<Revision>) {
    forall i, j :: 0 <= i && j == i + 1 && j < |revisions| ==> revisions[i].artifacts != revisions[j].artifacts
  }

  /** `qs` lists the map: every entry once, in any order. */
  ghost predicate ListsQuestions(qs: seq<Question>, questions: map<Id, Question>) {
    && (forall i :: 0 <= i < |qs| ==> qs[i].id in questions && questions[qs[i].id] == qs[i])
    && (forall id :: id in questions ==> exists i :: 0 <= i < |qs| && qs[i].id == id)
    && (forall i, j :: 0 <= i < j < |qs| ==> qs[i].id != qs[j].id)
  }

  ghost predicate ListsAnswers(answers: seq<Answer>, m: map<Id, Answer>) {
    && (forall i :: 0 <= i < |answers| ==> answers[i].question in m && m[answers[i].question] == answers[i])
    && (forall id :: id in m ==> exists i :: 0 <= i < |answers| && answers[i].question == id)
    && (forall i, j :: 0 <= i < j < |answers| ==> answers[i].question != answers[j].question)
  }

  /** `revisions`, `questions` and `answers` hold exactly what the ledger holds, in any order. */
  ghost predicate Exports(
    l: Ledger, revisions: seq<Revision>, questions: seq<Question>, answers: seq<Answer>,
    freeze: Option<FreezeReceipt>)
  {
    && multiset(revisions) == multiset(l.revisions) && ListsQuestions(questions, l.questions)
    && ListsAnswers(answers, l.answers) && freeze == l.freeze
  }

  // ----- live operations keep the ledger consistent -----

  lemma AddedIsConsistent(l: Ledger, artifacts: string, id: Id)
    requires Consistent(l) && l.freeze.None? && !HasRevision(l.revisions, id)
    ensures Consistent(Added(l, artifacts, id))
  {
    var after := Added(l, artifacts, id);
    var n := |l.revisions|;
    assert forall i :: 0 <= i < n ==> after.revisions[i] == l.revisions[i];
    assert forall i :: 0 <= i < n ==> after.revisions[i].id != id;
    forall i | i in l.questions
      ensures HasRevision(after.revisions, l.questions[i].revision)
    {
      var k :| 0 <= k < n && l.revisions[k].id == l.questions[i].revision;
      assert after.revisions[k].id == l.questions[i].revision;
    }
  }

  // ----- what each live operation accepts, and what it makes -----

  /** The last revision has this identifier. */
  ghost predicate IsLatest(l: Ledger, revision: Id) {
    exists n :: 0 <= n && n + 1 == |l.revisions| && l.revisions[n].id == revision
  }

  /** Revising: only the latest revision of an open ledger; equal artifacts change nothing, others come next. */
  lemma ReviseExact(l: Ledger, revision: Id, artifacts: string, id: Id)
    requires Consistent(l)
    ensures Revise(l, revision, artifacts, id).Some? <==> IsLatest(l, revision) && l.freeze.None?
    ensures Revise(l, revision, artifacts, id).Some? ==>
              var n := |l.revisions|;
              Revise(l, revision, artifacts, id).value
              == if l.revisions[n - 1].artifacts == artifacts then l
                 else l.(revisions := l.revisions + [Revision(id, n + 1, artifacts, Snapshot(artifacts, n + 1))])
  {
    if l.revisions != [] {
      var n := |l.revisions| - 1;
      assert l.revisions[n].number == n + 1;
    }
  }

  /** Creating: the first revision, or a revision of the latest one. */
  lemma CreateExact(l: Ledger, artifacts: string, id: Id)
    requires Consistent(l)
    ensures Create(l, artifacts, id).Some? <==> l.freeze.None?
    ensures l.freeze.None? ==>
              var n := |l.revisions|;
              Create(l, artifacts, id).value
              == if n > 0 && l.revisions[n - 1].artifacts == artifacts then l
                 else l.(revisions := l.revisions + [Revision(id, n + 1, artifacts, Snapshot(artifacts, n + 1))])
  {
    if l.revisions != [] {
      ReviseExact(l, l.revisions[|l.revisions| - 1].id, artifacts, id);
      assert IsLatest(l, l.revisions[|l.revisions| - 1].id);
    }
  }

  /** Asking: a known question again, or a new one of the latest revision while the ledger is open. */
  lemma AskExact(l: Ledger, q: Question)
    ensures Ask(l, q).Some?
            <==> && IsLatest(l, q.revision)
                 && ((q.id in l.questions && l.questions[q.id] == q) || (q.id !in l.questions && l.freeze.None?))
    ensures Ask(l, q).Some? ==>
              var after := Ask(l, q).value;
              && after == l.(questions := after.questions)
              && forall i :: && (i in after.questions <==> i in l.questions || i == q.id)
                             && (i in after.questions ==> after.questions[i] == if i == q.id then q else l.questions[i])
  {
    if Targets(l, q.revision) {
      var n := |l.revisions| - 1;
      assert l.revisions[n].id == q.revision;
    }
  }

  /** The question offers this choice. */
  ghost predicate Offered(q: Question, choice: Choice) {
    (exists option :: choice == Selected(option) && option in q.options) || (choice.Text? && q.freeText)
  }

  /** Answering: a question of the latest revision with a choice it offers, again or, while the ledger is open, anew. */
  lemma ReplyExact(l: Ledger, a: Answer)
    ensures Reply(l, a).Some?
            <==> && IsLatest(l, a.revision) && a.question in l.questions
                 && l.questions[a.question].revision == a.revision && Offered(l.questions[a.question], a.choice)
                 && ((a.question in l.answers && l.answers[a.question] == a)
                     || (a.question !in l.answers && l.freeze.None?))
    ensures Reply(l, a).Some? ==>
              var after := Reply(l, a).value;
              && after == l.(answers := after.answers)
              && forall i :: && (i in after.answers <==> i in l.answers || i == a.question)
                             && (i in after.answers ==> after.answers[i] == if i == a.question then a else l.answers[i])
  {
    if Targets(l, a.revision) {
      var n := |l.revisions| - 1;
      assert l.revisions[n].id == a.revision;
    }
  }

  /**
   Freezing: the latest revision, again, or with pointers to all of its questions,
   each once and each answered; the receipt is of that revision and points to them
   in order.
   */
  lemma LiveFreezeExact(l: Ledger, revision: Id, selected: seq<Id>)
    ensures Freeze(l, revision, selected).Some?
            <==> && IsLatest(l, revision)
                 && match l.freeze
                    case Some(receipt) => receipt.revision == revision
                    case None =>
                      && Distinct(selected) && (forall i :: i in selected ==> i in l.answers)
                      && forall i :: i in selected <==> i in l.questions && l.questions[i].revision == revision
    ensures Freeze(l, revision, selected).Some? ==>
              var receipt := Freeze(l, revision, selected).value;
              if l.freeze.Some? then l.freeze == Some(receipt)
              else
                var last := l.revisions[|l.revisions| - 1];
                && receipt.revision == revision && receipt.number == last.number && receipt.snapshot == last.snapshot
                && receipt.bundle == last.snapshot.digest
                && multiset(receipt.answered) == multiset(selected)
                && forall i, j :: 0 <= i < j < |receipt.answered| ==> receipt.answered[i] <= receipt.answered[j]
  {
    if Targets(l, revision) {
      var n := |l.revisions| - 1;
      assert l.revisions[n].id == revision;
    }
    assert (forall i :: i in selected <==> i in l.questions && l.questions[i].revision == revision)
           <==> Members(selected) == QuestionsOf(l.questions, revision);
    SortBySorts(selected, IdKey());
    var sorted := SortBy(selected, IdKey());
    assert forall i, j :: 0 <= i < j < |sorted| ==> IdKey()(sorted[i]) <= IdKey()(sorted[j]);
  }

  lemma ReviseKeeps(l: Ledger, revision: Id, artifacts: string, id: Id)
    requires Consistent(l) && Changing(l.revisions) && !HasRevision(l.revisions, id)
    ensures var r := Revise(l, revision, artifacts, id); r.Some? ==> Consistent(r.value) && Changing(r.value.revisions)
    ensures var r := Create(l, artifacts, id); r.Some? ==> Consistent(r.value) && Changing(r.value.revisions)
  {
    if l.freeze.None? { AddedIsConsistent(l, artifacts, id); }
  }

  lemma AskKeeps(l: Ledger, q: Question)
    requires Consistent(l)
    ensures Ask(l, q).Some? ==> Consistent(Ask(l, q).value)
  {
    if Targets(l, q.revision) {
      var k := |l.revisions| - 1;
      assert l.revisions[k].id == q.revision;
    }
  }

  lemma ReplyKeeps(l: Ledger, a: Answer)
    requires Consistent(l)
    ensures Reply(l, a).Some? ==> Consistent(Reply(l, a).value)
  {
  }

  lemma SortedPointers(ids: seq<Id>)
    requires Distinct(ids)
    ensures StrictlyAscending(SortBy(ids, IdKey()), IdKey()) && Members(SortBy(ids, IdKey())) == Members(ids)
  {
    var sorted := SortBy(ids, IdKey());
    SortBySorts(ids, IdKey());
    Rearranged(ids, sorted);
    forall i, j | 0 <= i < j < |sorted|
      ensures sorted[i] < sorted[j]
    {
      assert IdKey()(sorted[i]) <= IdKey()(sorted[j]);
    }
  }

  lemma FreezeKeeps(l: Ledger, revision: Id, selected: seq<Id>)
    requires Consistent(l)
    ensures Freeze(l, revision, selected).Some? ==> Consistent(l.(freeze := Freeze(l, revision, selected)))
  {
    if Freeze(l, revision, selected).Some? && l.freeze.None? {
      SortedPointers(selected);
      var sorted := SortBy(selected, IdKey());
      forall i | i in sorted
        ensures i in l.answers
      {
        assert i in Members(sorted);
        assert i in selected;
      }
    }
  }

  /** Which order the caller lists the questions in makes no difference. */
  lemma FreezeIgnoresOrder(l: Ledger, revision: Id, a: seq<Id>, b: seq<Id>)
    requires l.freeze.None? && Freeze(l, revision, a).Some? && Freeze(l, revision, b).Some?
    ensures Freeze(l, revision, a) == Freeze(l, revision, b)
  {
    SortedPointers(a);
    SortedPointers(b);
    var x, y := SortBy(a, IdKey()), SortBy(b, IdKey());
    assert Members(x) == Members(y);
    StrictSameSet(x, y);
  }

  lemma {:induction false} StrictSameSet(x: seq<Id>, y: seq<Id>)
    requires StrictlyAscending(x, IdKey()) && StrictlyAscending(y, IdKey()) && Members(x) == Members(y)
    ensures x == y
  {
    if x == [] {
      if y != [] { SomethingIn(y); }
    } else {
      assert x[0] in Members(y);
      LeastOfSet(x, y);
      forall v
        ensures v in Members(x[1..]) <==> v in Members(y[1..])
      {
        assert v in Members(x) <==> v in Members(y);
        TailMembers(x, v);
        TailMembers(y, v);
      }
      assert Members(x[1..]) == Members(y[1..]);
      StrictSameSet(x[1..], y[1..]);
      assert x == [x[0]] + x[1..] && y == [y[0]] + y[1..];
    }
  }

  lemma SomethingIn(y: seq<Id>)
    requires y != []
    ensures Members(y) != {}
  {
    assert y[0] in Members(y);
  }

  lemma LeastOfSet(x: seq<Id>, y: seq<Id>)
    requires StrictlyAscending(x, IdKey()) && StrictlyAscending(y, IdKey()) && Members(x) == Members(y) && x != []
    ensures y != [] && x[0] == y[0]
  {
    assert x[0] in Members(y);
    assert y[0] in Members(x);
    var i :| 0 <= i < |y| && y[i] == x[0];
    var j :| 0 <= j < |x| && x[j] == y[0];
    assert IdKey()(x[0]) <= IdKey()(x[j]) && IdKey()(y[0]) <= IdKey()(y[i]);
  }

  lemma TailMembers(x: seq<Id>, v: Id)
    requires x != [] && StrictlyAscending(x, IdKey())
    ensures v in x[1..] <==> v in x && v != x[0]
  {
    if v in x[1..] {
      var i :| 1 <= i < |x| && x[i] == v;
      assert IdKey()(x[0]) < IdKey()(x[i]);
    }
  }

  // ----- restoring is exact -----

  lemma {:induction false} QuestionsAdded(revisions: seq<Revision>, qs: seq<Question>)
    ensures var m := AddQuestions(revisions, qs);
            m.Some? ==> ListsQuestions(qs, m.value) && QuestionsOk(revisions, m.value)
  {
    if qs != [] {
      var last := |qs| - 1;
      QuestionsAdded(revisions, qs[..last]);
      if AddQuestions(revisions, qs).Some? {
        var before := AddQuestions(revisions, qs[..last]).value;
        hide AddQuestions, HasRevision;
        QuestionListed(qs[..last], before, qs[last]);
        assert qs == qs[..last] + [qs[last]];
      }
    }
  }

  lemma {:induction false} QuestionsAccepted(revisions: seq<Revision>, qs: seq<Question>)
    requires forall i :: 0 <= i < |qs| ==> HasRevision(revisions, qs[i].revision)
    requires forall i, j :: 0 <= i < j < |qs| ==> qs[i].id != qs[j].id
    ensures AddQuestions(revisions, qs).Some?
  {
    if qs != [] {
      var last := |qs| - 1;
      var front := qs[..last];
      QuestionsAccepted(revisions, front);
      QuestionsAdded(revisions, front);
      var before := AddQuestions(revisions, front).value;
      assert forall i :: 0 <= i < last ==> front[i].id != qs[last].id;
      assert qs[last].id !in before;
    }
  }

  lemma QuestionListed(qs: seq<Question>, m: map<Id, Question>, q: Question)
    requires ListsQuestions(qs, m) && q.id !in m
    ensures ListsQuestions(qs + [q], m[q.id := q])
  {
    var more, after := qs + [q], m[q.id := q];
    forall id | id in after
      ensures exists i :: 0 <= i < |more| && more[i].id == id
    {
      if id == q.id {
        assert more[|qs|].id == id;
      } else {
        var i :| 0 <= i < |qs| && qs[i].id == id;
        assert more[i].id == id;
      }
    }
  }

  lemma QuestionsComplete(revisions: seq<Revision>, qs: seq<Question>, m: map<Id, Question>)
    requires ListsQuestions(qs, m) && QuestionsOk(revisions, m)
    ensures AddQuestions(revisions, qs) == Some(m)
  {
    QuestionsAccepted(revisions, qs);
    QuestionsAdded(revisions, qs);
    var got := AddQuestions(revisions, qs).value;
    forall id
      ensures id in got <==> id in m
      ensures id in got ==> got[id] == m[id]
    {
    }
    assert got == m;
  }

  lemma {:induction false} AnswersAdded(questions: map<Id, Question>, answers: seq<Answer>)
    ensures var m := AddAnswers(questions, answers);
            m.Some? ==> ListsAnswers(answers, m.value) && AnswersOk(questions, m.value)
  {
    if answers != [] {
      var last := |answers| - 1;
      AnswersAdded(questions, answers[..last]);
      if AddAnswers(questions, answers).Some? {
        var before := AddAnswers(questions, answers[..last]).value;
        hide AddAnswers, Allowed;
        AnswerListed(answers[..last], before, answers[last]);
        assert answers == answers[..last] + [answers[last]];
      }
    }
  }

  lemma {:induction false} AnswersAccepted(questions: map<Id, Question>, answers: seq<Answer>)
    requires forall i :: 0 <= i < |answers| ==>
               && answers[i].question in questions
               && answers[i].revision == questions[answers[i].question].revision
               && Allowed(questions[answers[i].question], answers[i])
    requires forall i, j :: 0 <= i < j < |answers| ==> answers[i].question != answers[j].question
    ensures AddAnswers(questions, answers).Some?
  {
    if answers != [] {
      var last := |answers| - 1;
      var front := answers[..last];
      AnswersAccepted(questions, front);
      AnswersAdded(questions, front);
      var before := AddAnswers(questions, front).value;
      assert forall i :: 0 <= i < last ==> front[i].question != answers[last].question;
      assert answers[last].question !in before;
    }
  }

  lemma AnswerListed(answers: seq<Answer>, m: map<Id, Answer>, a: Answer)
    requires ListsAnswers(answers, m) && a.question !in m
    ensures ListsAnswers(answers + [a], m[a.question := a])
  {
    var more, after := answers + [a], m[a.question := a];
    forall id | id in after
      ensures exists i :: 0 <= i < |more| && more[i].question == id
    {
      if id == a.question {
        assert more[|answers|].question == id;
      } else {
        var i :| 0 <= i < |answers| && answers[i].question == id;
        assert more[i].question == id;
      }
    }
  }

  lemma AnswersComplete(questions: map<Id, Question>, answers: seq<Answer>, m: map<Id, Answer>)
    requires ListsAnswers(answers, m) && AnswersOk(questions, m)
    ensures AddAnswers(questions, answers) == Some(m)
  {
    AnswersAccepted(questions, answers);
    AnswersAdded(questions, answers);
    var got := AddAnswers(questions, answers).value;
    forall id
      ensures id in got <==> id in m
      ensures id in got ==> got[id] == m[id]
    {
    }
    assert got == m;
  }

  /** A persisted freeze receipt is accepted exactly when the rest of the ledger yields it. */
  lemma FreezeExact(l: Ledger, freeze: Option<FreezeReceipt>)
    requires l.freeze.None?
    ensures AddFreeze(l, freeze) == (if FreezeOk(l.(freeze := freeze)) then Some(l.(freeze := freeze)) else None)
  {
    if freeze.Some? {
      var f := freeze.value;
      var after := l.(freeze := freeze);
      var computed := Freeze(l, f.revision, f.answered);
      if computed == freeze {
        SortedPointers(f.answered);
      }
      if FreezeOk(after) {
        SortRecovers(f.answered, f.answered, IdKey());
        assert forall i :: 0 <= i < |f.answered| ==> IdKey()(f.answered[i]) == f.answered[i];
        assert computed == freeze;
      }
    }
  }

  lemma RevisionsAscend(revisions: seq<Revision>)
    requires RevisionsOk(revisions)
    ensures StrictlyAscending(revisions, NumberKey())
  {
    assert forall i :: 0 <= i < |revisions| ==> NumberKey()(revisions[i]) == i + 1;
  }

  /**
   Restoring is the exact inverse of exporting: whatever order the facts come
   in, it succeeds with `l` if and only if they are the facts of `l` and `l` is
   a consistent ledger.
   */
  lemma RestoreExact(
    revisions: seq<Revision>, questions: seq<Question>, answers: seq<Answer>, freeze: Option<FreezeReceipt>, l: Ledger)
    ensures Restore(revisions, questions, answers, freeze) == Some(l)
            <==> Consistent(l) && Exports(l, revisions, questions, answers, freeze)
  {
    var ordered := SortBy(revisions, NumberKey());
    SortBySorts(revisions, NumberKey());
    QuestionsAdded(ordered, questions);
    if Restore(revisions, questions, answers, freeze) == Some(l) {
      var qs := AddQuestions(ordered, questions).value;
      AnswersAdded(qs, answers);
      FreezeExact(Ledger(ordered, qs, AddAnswers(qs, answers).value, None), freeze);
    }
    if Consistent(l) && Exports(l, revisions, questions, answers, freeze) {
      RevisionsAscend(l.revisions);
      SortRecovers(l.revisions, revisions, NumberKey());
      QuestionsComplete(l.revisions, questions, l.questions);
      AnswersComplete(l.questions, answers, l.answers);
      FreezeExact(l.(freeze := None), freeze);
      assert l.(freeze := None) == Ledger(ordered, l.questions, l.answers, None);
    }
  }

  // ----- every reachable ledger restores -----

  datatype Operation =
    | CreateOp(artifacts: string, id: Id)
    | ReviseOp(revision: Id, artifacts: string, id: Id)
    | AskOp(question: Question)
    | ReplyOp(answer: Answer)
    | FreezeOp(revision: Id, selected: seq<Id>)

  /** A conflict leaves the ledger as it is; a new revision gets an identifier no revision has. */
  function Perform(l: Ledger, op: Operation): Ledger {
    var r := match op
      case CreateOp(artifacts, id) => if HasRevision(l.revisions, id) then None else Create(l, artifacts, id)
      case ReviseOp(revision, artifacts, id) =>
        if HasRevision(l.revisions, id) then None else Revise(l, revision, artifacts, id)
      case AskOp(q) => Ask(l, q)
      case ReplyOp(a) => Reply(l, a)
      case FreezeOp(revision, selected) =>
        var f := Freeze(l, revision, selected);
        if f.Some? then Some(l.(freeze := f)) else None;
    if r.Some? then r.value else l
  }

  function PerformAll(ops: seq<Operation>): Ledger {
    if ops == [] then EMPTY else Perform(PerformAll(ops[..|ops| - 1]), ops[|ops| - 1])
  }

  lemma PerformKeeps(l: Ledger, op: Operation)
    requires Consistent(l) && Changing(l.revisions)
    ensures Consistent(Perform(l, op)) && Changing(Perform(l, op).revisions)
  {
    match op
    case CreateOp(artifacts, id) =>
      if !HasRevision(l.revisions, id) { ReviseKeeps(l, 0, artifacts, id); }
    case ReviseOp(revision, artifacts, id) =>
      if !HasRevision(l.revisions, id) { ReviseKeeps(l, revision, artifacts, id); }
    case AskOp(q) => AskKeeps(l, q);
    case ReplyOp(a) => ReplyKeeps(l, a);
    case FreezeOp(revision, selected) => FreezeKeeps(l, revision, selected);
  }

  lemma {:induction false} ReachableIsConsistent(ops: seq<Operation>)
    ensures Consistent(PerformAll(ops)) && Changing(PerformAll(ops).revisions)
  {
    if ops != [] {
      ReachableIsConsistent(ops[..|ops| - 1]);
      PerformKeeps(PerformAll(ops[..|ops| - 1]), ops[|ops| - 1]);
    }
  }

  /** Every ledger the live operations can reach is restored from its own facts, in whatever order they are read. */
  lemma ReachableRestores(
    ops: seq<Operation>, revisions: seq<Revision>, questions: seq<Question>, answers: seq<Answer>,
    freeze: Option<FreezeReceipt>)
    requires Exports(PerformAll(ops), revisions, questions, answers, freeze)
    ensures Restore(revisions, questions, answers, freeze) == Some(PerformAll(ops))
  {
    ReachableIsConsistent(ops);
    RestoreExact(revisions, questions, answers, freeze, PerformAll(ops));
  }

  /** Once frozen, a ledger never changes again. */
  lemma FrozenIsFinal(l: Ledger, op: Operation)
    requires l.freeze.Some?
    ensures Perform(l, op) == l
  {
  }

  /** Restoring also accepts a revision that repeats the artifacts before it, which no live operation produces. */
  lemma RestoreAcceptsRepetition(artifacts: string, ops: seq<Operation>)
    ensures var a := Revision(1, 1, artifacts, SnapshotOf(artifacts, 1));
            var b := Revision(2, 2, artifacts, SnapshotOf(artifacts, 2));
            && Restore([a, b], [], [], None) == Some(Ledger([a, b], map[], map[], None))
            && PerformAll(ops) != Ledger([a, b], map[], map[], None)
  {
    var a := Revision(1, 1, artifacts, SnapshotOf(artifacts, 1));
    var b := Revision(2, 2, artifacts, SnapshotOf(artifacts, 2));
    var l := Ledger([a, b], map[], map[], None);
    RestoreExact([a, b], [], [], None, l);
    ReachableIsConsistent(ops);
    assert l.revisions[0].artifacts == l.revisions[1].artifacts;
    assert !Changing(l.revisions);
  }

  // ----- and nothing else is reachable -----

  function Size(l: Ledger): nat {
    |l.revisions| + |l.questions| + |l.answers| + (if l.freeze.Some? then 1 else 0)
  }

  lemma PerformLast(ops: seq<Operation>, op: Operation)
    ensures PerformAll(ops + [op]) == Perform(PerformAll(ops), op)
  {
    assert (ops + [op])[..|ops|] == ops;
  }

  lemma AnswerRemoved(l: Ledger, id: Id)
    requires Consistent(l) && l.freeze.None?
    ensures Consistent(l.(answers := l.answers - {id}))
  {
  }

  lemma AnsweredAgain(l: Ledger, id: Id)
    requires AnswersOk(l.questions, l.answers) && l.freeze.None? && id in l.answers
        && Targets(l, l.answers[id].revision)
    ensures Perform(l.(answers := l.answers - {id}), ReplyOp(l.answers[id])) == l
    ensures |l.answers - {id}| < |l.answers|
  {
    assert (l.answers - {id})[id := l.answers[id]] == l.answers;
    assert (l.answers - {id}).Keys == l.answers.Keys - {id};
    assert |l.answers.Keys - {id}| == |l.answers.Keys| - 1;
  }

  lemma BeforeReply(l: Ledger, id: Id) returns (before: Ledger)
    requires Consistent(l) && l.freeze.None? && id in l.answers && Targets(l, l.answers[id].revision)
    ensures Consistent(before) && before.revisions == l.revisions && Size(before) < Size(l)
    ensures Perform(before, ReplyOp(l.answers[id])) == l
  {
    AnswerRemoved(l, id);
    AnsweredAgain(l, id);
    before := l.(answers := l.answers - {id});
  }

  lemma QuestionRemoved(l: Ledger, id: Id)
    requires Consistent(l) && l.freeze.None? && id in l.questions && Targets(l, l.questions[id].revision)
    requires forall i :: i in l.answers ==> !Targets(l, l.answers[i].revision)
    ensures Consistent(l.(questions := l.questions - {id}))
  {
    var before := l.(questions := l.questions - {id});
    forall i | i in l.answers
      ensures i in before.questions
    {
      assert l.answers[i].revision == l.questions[i].revision;
      assert i != id;
    }
  }

  lemma QuestionAskedAgain(l: Ledger, id: Id)
    requires QuestionsOk(l.revisions, l.questions) && l.freeze.None?
    requires id in l.questions && Targets(l, l.questions[id].revision)
    ensures Perform(l.(questions := l.questions - {id}), AskOp(l.questions[id])) == l
    ensures |l.questions - {id}| < |l.questions|
  {
    assert (l.questions - {id})[id := l.questions[id]] == l.questions;
    assert (l.questions - {id}).Keys == l.questions.Keys - {id};
    assert |l.questions.Keys - {id}| == |l.questions.Keys| - 1;
  }

  lemma BeforeAsk(l: Ledger, id: Id) returns (before: Ledger)
    requires Consistent(l) && l.freeze.None? && id in l.questions && Targets(l, l.questions[id].revision)
    requires forall i :: i in l.answers ==> !Targets(l, l.answers[i].revision)
    ensures Consistent(before) && before.revisions == l.revisions && Size(before) < Size(l)
    ensures Perform(before, AskOp(l.questions[id])) == l
  {
    QuestionRemoved(l, id);
    QuestionAskedAgain(l, id);
    before := l.(questions := l.questions - {id});
  }

  lemma BeforeRevision(l: Ledger) returns (before: Ledger)
    requires Consistent(l) && Changing(l.revisions) && l.revisions != [] && l.freeze.None?
    requires forall i :: i in l.questions ==> !Targets(l, l.questions[i].revision)
    ensures Consistent(before) && Changing(before.revisions) && Size(before) < Size(l)
    ensures var last := l.revisions[|l.revisions| - 1];
            Perform(before, CreateOp(last.artifacts, last.id)) == l
  {
    var n := |l.revisions| - 1;
    before := l.(revisions := l.revisions[..n]);
    assert before.revisions + [l.revisions[n]] == l.revisions;
    assert RevisionsOk(before.revisions);
    QuestionsOfEarlier(l);
    RevisionMade(before, l);
  }

  lemma QuestionsOfEarlier(l: Ledger)
    requires l.revisions != [] && QuestionsOk(l.revisions, l.questions)
    requires forall i :: i in l.questions ==> !Targets(l, l.questions[i].revision)
    ensures QuestionsOk(l.revisions[..|l.revisions| - 1], l.questions)
  {
    var front := l.revisions[..|l.revisions| - 1];
    forall i | i in l.questions
      ensures HasRevision(front, l.questions[i].revision)
    {
      var k :| 0 <= k < |l.revisions| && l.revisions[k].id == l.questions[i].revision;
      assert front[k].id == l.questions[i].revision;
    }
  }

  lemma RevisionMade(before: Ledger, l: Ledger)
    requires l.revisions != [] && RevisionsOk(l.revisions) && Changing(l.revisions) && l.freeze.None?
    requires before == l.(revisions := l.revisions[..|l.revisions| - 1])
    ensures var last := l.revisions[|l.revisions| - 1]; Create(before, last.artifacts, last.id) == Some(l)
  {
    var n := |l.revisions| - 1;
    var last := l.revisions[n];
    assert before.revisions + [last] == l.revisions;
    assert last == Revision(last.id, n + 1, last.artifacts, SnapshotOf(last.artifacts, n + 1));
    assert Added(before, last.artifacts, last.id) == l;
    if n > 0 {
      assert before.revisions[n - 1] == l.revisions[n - 1];
      assert l.revisions[n - 1].artifacts != l.revisions[n].artifacts;
    }
  }

  lemma BeforeFreeze(l: Ledger) returns (before: Ledger)
    requires Consistent(l) && l.freeze.Some?
    ensures Consistent(before) && before.revisions == l.revisions && Size(before) < Size(l)
    ensures Perform(before, FreezeOp(l.freeze.value.revision, l.freeze.value.answered)) == l
  {
    before := l.(freeze := None);
    FreezeExact(before, l.freeze);
  }

  lemma NothingWithoutRevisions(l: Ledger)
    requires Consistent(l) && l.freeze.None?
    ensures l.revisions == [] ==> l == EMPTY
  {
    if l.revisions == [] {
      assert l.questions == map[] && l.answers == map[];
    }
  }

  /** Take one step back from a consistent ledger: the last thing that can have happened to it. */
  lemma StepBack(l: Ledger) returns (before: Ledger, op: Operation)
    requires Consistent(l) && Changing(l.revisions) && l != EMPTY
    ensures Consistent(before) && Changing(before.revisions) && Size(before) < Size(l)
    ensures Perform(before, op) == l
  {
    if l.freeze.Some? {
      before := BeforeFreeze(l);
      op := FreezeOp(l.freeze.value.revision, l.freeze.value.answered);
    } else {
      before, op := StepBackOpen(l);
    }
  }

  ghost predicate Answers(l: Ledger, id: Id) {
    id in l.answers && Targets(l, l.answers[id].revision)
  }

  ghost predicate Asks(l: Ledger, id: Id) {
    id in l.questions && Targets(l, l.questions[id].revision)
  }

  lemma StepBackOpen(l: Ledger) returns (before: Ledger, op: Operation)
    requires Consistent(l) && Changing(l.revisions) && l != EMPTY && l.freeze.None?
    ensures Consistent(before) && Changing(before.revisions) && Size(before) < Size(l)
    ensures Perform(before, op) == l
  {
    if answered :| Answers(l, answered) {
      before := BeforeReply(l, answered);
      op := ReplyOp(l.answers[answered]);
    } else {
      before, op := StepBackUnanswered(l);
    }
  }

  lemma StepBackUnanswered(l: Ledger) returns (before: Ledger, op: Operation)
    requires Consistent(l) && Changing(l.revisions) && l != EMPTY && l.freeze.None?
    requires forall i :: !Answers(l, i)
    ensures Consistent(before) && Changing(before.revisions) && Size(before) < Size(l)
    ensures Perform(before, op) == l
  {
    if asked :| Asks(l, asked) {
      assert forall i :: i in l.answers ==> !Answers(l, i);
      before := BeforeAsk(l, asked);
      op := AskOp(l.questions[asked]);
    } else {
      NothingWithoutRevisions(l);
      assert forall i :: i in l.questions ==> !Asks(l, i);
      before := BeforeRevision(l);
      var last := l.revisions[|l.revisions| - 1];
      op := CreateOp(last.artifacts, last.id);
    }
  }

  lemma {:induction false} ConsistentIsReachable(l: Ledger) returns (ops: seq<Operation>)
    requires Consistent(l) && Changing(l.revisions)
    ensures PerformAll(ops) == l
    decreases Size(l)
  {
    if l == EMPTY {
      ops := [];
    } else {
      var before, op := StepBack(l);
      var prefix := ConsistentIsReachable(before);
      PerformLast(prefix, op);
      ops := prefix + [op];
    }
  }

  /** A restored ledger is one the live operations could have built exactly when consecutive revisions differ. */
  lemma RestoredIsReachable(
    revisions: seq<Revision>, questions: seq<Question>, answers: seq<Answer>, freeze: Option<FreezeReceipt>, l: Ledger)
    requires Restore(revisions, questions, answers, freeze) == Some(l)
    ensures (exists ops :: PerformAll(ops) == l) <==> Changing(l.revisions)
  {
    RestoreExact(revisions, questions, answers, freeze, l);
    if Changing(l.revisions) {
      var ops := ConsistentIsReachable(l);
    }
    forall ops | PerformAll(ops) == l
      ensures Changing(l.revisions)
    {
      ReachableIsConsistent(ops);
    }
  }
}
