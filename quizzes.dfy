/** The `quiz_questions` relation table: how `getQuizzes` reads a quiz's question ids from it
    and how `saveQuiz` replaces a quiz's relations. */
module Quizzes {
  import opened Common
  import opened Seqs

  /** A row of `quiz_questions`. */
  datatype Relation = Relation(quizId: string, questionId: string)

  /** `mappings.filter(m => m.quiz_id === quizId).map(m => m.question_id)` */
  function IdsOf(mappings: seq<Relation>, quizId: string): (ids: seq<string>)
    ensures |ids| <= |mappings|
    ensures forall q :: q in ids <==> Relation(quizId, q) in mappings
  {
    if mappings == [] then []
    else
      var rest := IdsOf(mappings[1..], quizId);
      assert forall m :: m in mappings <==> m == mappings[0] || m in mappings[1..];
      if mappings[0].quizId == quizId then [mappings[0].questionId] + rest else rest
  }

  /** `delete().eq('quiz_id', quizId)`: the relations of every other quiz, in order. */
  function WithoutQuiz(mappings: seq<Relation>, quizId: string): (r: seq<Relation>)
    ensures forall m :: m in r <==> m in mappings && m.quizId != quizId
  {
    if mappings == [] then []
    else
      var rest := WithoutQuiz(mappings[1..], quizId);
      assert forall m :: m in mappings <==> m == mappings[0] || m in mappings[1..];
      if mappings[0].quizId == quizId then rest else [mappings[0]] + rest
  }

  /** `questionIds.map(qId => ({ quiz_id: quizId, question_id: qId }))` */
  function RelationsFor(quizId: string, questionIds: seq<string>): (r: seq<Relation>)
    ensures |r| == |questionIds|
    ensures forall i :: 0 <= i < |r| ==> r[i] == Relation(quizId, questionIds[i])
  {
    seq(|questionIds|, i requires 0 <= i < |questionIds| => Relation(quizId, questionIds[i]))
  }

  /** The relation table after `saveQuiz` has given quiz `quizId` the questions `questionIds`. */
  function ReplaceRelations(mappings: seq<Relation>, quizId: string, questionIds: seq<string>): seq<Relation> {
    var kept := WithoutQuiz(mappings, quizId);
    if |questionIds| > 0 then kept + RelationsFor(quizId, questionIds) else kept
  }

  lemma {:induction false} IdsOfAppend(a: seq<Relation>, b: seq<Relation>, quizId: string)
    ensures IdsOf(a + b, quizId) == IdsOf(a, quizId) + IdsOf(b, quizId)
  {
    if a == [] {
      assert a + b == b;
    } else {
      assert (a + b)[0] == a[0] && (a + b)[1..] == a[1..] + b;
      IdsOfAppend(a[1..], b, quizId);
      var head := if a[0].quizId == quizId then [a[0].questionId] else [];
      assert IdsOf(a + b, quizId) == head + IdsOf(a[1..] + b, quizId);
      assert IdsOf(a, quizId) == head + IdsOf(a[1..], quizId);
    }
  }

  lemma {:induction false} IdsOfWithoutQuiz(mappings: seq<Relation>, quizId: string, other: string)
    ensures IdsOf(WithoutQuiz(mappings, quizId), other) == if other == quizId then [] else IdsOf(mappings, other)
  {
    if mappings != [] {
      IdsOfWithoutQuiz(mappings[1..], quizId, other);
      var rest := WithoutQuiz(mappings[1..], quizId);
      if mappings[0].quizId != quizId {
        assert ([mappings[0]] + rest)[1..] == rest;
      }
    }
  }

  lemma {:induction false} IdsOfRelationsFor(quizId: string, questionIds: seq<string>, other: string)
    ensures IdsOf(RelationsFor(quizId, questionIds), other) == if other == quizId then questionIds else []
  {
    if questionIds != [] {
      var r := RelationsFor(quizId, questionIds);
      assert r[1..] == RelationsFor(quizId, questionIds[1..]);
      IdsOfRelationsFor(quizId, questionIds[1..], other);
      assert [questionIds[0]] + questionIds[1..] == questionIds;
    }
  }

  /** After a save, reading the quiz back gives exactly the saved question ids, in the saved
      order; every other quiz keeps its own. */
  lemma ReplaceThenRead(mappings: seq<Relation>, quizId: string, questionIds: seq<string>, other: string)
    ensures IdsOf(ReplaceRelations(mappings, quizId, questionIds), other)
         == if other == quizId then questionIds else IdsOf(mappings, other)
  {
    var kept := WithoutQuiz(mappings, quizId);
    IdsOfWithoutQuiz(mappings, quizId, other);
    if |questionIds| > 0 {
      IdsOfAppend(kept, RelationsFor(quizId, questionIds), quizId);
      IdsOfAppend(kept, RelationsFor(quizId, questionIds), other);
      IdsOfRelationsFor(quizId, questionIds, other);
    }
  }
}
