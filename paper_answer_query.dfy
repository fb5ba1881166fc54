/** The pieces of `getPaperAnswersByMozipId`: the optional id filters, the
    per-answer score lookup, and the fail-fast collection of scored answers. */
module PaperAnswerQuery {
  import opened Wrappers
  import opened Domain
  import opened Seqs
  import JavaSplit

  datatype ScoredAnswer = ScoredAnswer(answer: PaperAnswer, score: int)

  datatype QuestionWithAnswers = QuestionWithAnswers(question: QuestionRef, answers: seq<ScoredAnswer>)

  /** A null filter admits every id; otherwise the id must equal an element of
      `filter.split(",")`. */
  predicate Admits(filter: Option<string>, id: string)
  {
    filter.None? || id in JavaSplit.Split(filter.value)
  }

  /** The cycle's questions that the question filter admits, in repository order. */
  function KeptQuestions(store: Store, mozipId: string, questionId: Option<string>): seq<QuestionRef>
  {
    Filter(QuestionsOf(store, mozipId), (q: QuestionRef) => Admits(questionId, q.id))
  }

  /** A question's answers whose applicant the applicant filter admits, in repository order. */
  function KeptAnswers(store: Store, question: QuestionRef, applicantId: Option<string>): seq<PaperAnswer>
  {
    Filter(AnswersOf(store, question.id), (a: PaperAnswer) => Admits(applicantId, a.applicantId))
  }

  /** The kept answers of all the given questions, question by question: the
      order in which the service visits them. */
  function AllKeptAnswers(store: Store, questions: seq<QuestionRef>, applicantId: Option<string>): seq<PaperAnswer>
    decreases |questions|
  {
    if questions == [] then []
    else KeptAnswers(store, questions[0], applicantId) + AllKeptAnswers(store, questions[1..], applicantId)
  }

  /** The evaluator has an evaluation of the answer's applicant, and that
      evaluation has a score for this answer. */
  predicate Scored(store: Store, evaluatorId: string, a: PaperAnswer)
  {
    && (evaluatorId, a.applicantId) in store.evaluationOf
    && (a.id, store.evaluationOf[(evaluatorId, a.applicantId)].id) in store.paperEvaluationOf
  }

  function ScoreOf(store: Store, evaluatorId: string, a: PaperAnswer): int
    requires Scored(store, evaluatorId, a)
  {
    store.paperEvaluationOf[(a.id, store.evaluationOf[(evaluatorId, a.applicantId)].id)].score
  }

  /** The exception for an answer that is not scored: the evaluation is looked up first. */
  function MissingError(store: Store, evaluatorId: string, a: PaperAnswer): ServiceError
    requires !Scored(store, evaluatorId, a)
  {
    if (evaluatorId, a.applicantId) !in store.evaluationOf then EvaluationNotFound(evaluatorId, a.applicantId)
    else PaperEvaluationNotFound(store.evaluationOf[(evaluatorId, a.applicantId)].id, a.id)
  }

  /** Index of the first answer that is not scored, or |answers| when all are. */
  function FirstUnscored(store: Store, evaluatorId: string, answers: seq<PaperAnswer>): (k: nat)
    ensures k <= |answers|
    ensures forall j :: 0 <= j < k ==> Scored(store, evaluatorId, answers[j])
    ensures k < |answers| ==> !Scored(store, evaluatorId, answers[k])
    decreases |answers|
  {
    if answers == [] then 0
    else if !Scored(store, evaluatorId, answers[0]) then 0
    else 1 + FirstUnscored(store, evaluatorId, answers[1..])
  }

  lemma FirstUnscoredConcat(store: Store, evaluatorId: string, a: seq<PaperAnswer>, b: seq<PaperAnswer>)
    ensures FirstUnscored(store, evaluatorId, a + b) ==
      if FirstUnscored(store, evaluatorId, a) < |a| then FirstUnscored(store, evaluatorId, a)
      else |a| + FirstUnscored(store, evaluatorId, b)
  {
    assert forall j :: 0 <= j < |a| ==> (a + b)[j] == a[j];
    assert forall j :: 0 <= j < |b| ==> (a + b)[|a| + j] == b[j];
  }

  /** answers carries, in order, each of kept with the score the evaluator gave it. */
  predicate Annotates(store: Store, evaluatorId: string, answers: seq<ScoredAnswer>, kept: seq<PaperAnswer>)
  {
    && |answers| == |kept|
    && forall j :: 0 <= j < |kept| ==>
         && answers[j].answer == kept[j]
         && Scored(store, evaluatorId, kept[j])
         && answers[j].score == ScoreOf(store, evaluatorId, kept[j])
  }

  /** One answer's score: find the evaluation of (evaluator, applicant), then its
      score for this answer. */
  function ScoreAnswer(store: Store, evaluatorId: string, a: PaperAnswer): (r: Result<ScoredAnswer, ServiceError>)
  {
    match FindEvaluation(store, evaluatorId, a.applicantId)
    case None => Failure(EvaluationNotFound(evaluatorId, a.applicantId))
    case Some(evaluation) =>
      match FindPaperEvaluation(store, a.id, evaluation.id)
      case None => Failure(PaperEvaluationNotFound(evaluation.id, a.id))
      case Some(paperEvaluation) => Success(ScoredAnswer(a, paperEvaluation.score))
  }

  /** Scores the answers in order and stops at the first one that throws. */
  function ScoreAnswers(store: Store, evaluatorId: string, answers: seq<PaperAnswer>): (r: Result<seq<ScoredAnswer>, ServiceError>)
    ensures r.Success? <==> FirstUnscored(store, evaluatorId, answers) == |answers|
    ensures r.Success? ==> Annotates(store, evaluatorId, r.value, answers)
    ensures r.Failure? ==> r.error == MissingError(store, evaluatorId, answers[FirstUnscored(store, evaluatorId, answers)])
    decreases |answers|
  {
    if answers == [] then Success([])
    else
      match ScoreAnswer(store, evaluatorId, answers[0])
      case Failure(e) => Failure(e)
      case Success(first) =>
        match ScoreAnswers(store, evaluatorId, answers[1..])
        case Failure(e) => Failure(e)
        case Success(rest) => Success([first] + rest)
  }

  /** One group per question, in order, each with its kept answers scored; the
      first answer that throws aborts the whole collection. */
  function GroupAnswers(store: Store, evaluatorId: string, questions: seq<QuestionRef>, applicantId: Option<string>)
    : (r: Result<seq<QuestionWithAnswers>, ServiceError>)
    decreases |questions|
  {
    if questions == [] then Success([])
    else
      match ScoreAnswers(store, evaluatorId, KeptAnswers(store, questions[0], applicantId))
      case Failure(e) => Failure(e)
      case Success(scored) =>
        match GroupAnswers(store, evaluatorId, questions[1..], applicantId)
        case Failure(e) => Failure(e)
        case Success(rest) => Success([QuestionWithAnswers(questions[0], scored)] + rest)
  }

  /** The collection succeeds iff every kept answer, over all questions, is
      scored; otherwise it throws the error of the first one that is not. */
  lemma {:induction false} GroupAnswersOutcome(store: Store, evaluatorId: string, questions: seq<QuestionRef>, applicantId: Option<string>)
    ensures var r, all := GroupAnswers(store, evaluatorId, questions, applicantId), AllKeptAnswers(store, questions, applicantId);
      && (r.Success? <==> FirstUnscored(store, evaluatorId, all) == |all|)
      && (r.Failure? ==> r.error == MissingError(store, evaluatorId, all[FirstUnscored(store, evaluatorId, all)]))
    decreases |questions|
  {
    if questions != [] {
      var kept := KeptAnswers(store, questions[0], applicantId);
      var later := AllKeptAnswers(store, questions[1..], applicantId);
      var all := AllKeptAnswers(store, questions, applicantId);
      assert all == kept + later;
      FirstUnscoredConcat(store, evaluatorId, kept, later);
      GroupAnswersOutcome(store, evaluatorId, questions[1..], applicantId);
      var k := FirstUnscored(store, evaluatorId, kept);
      var scored := ScoreAnswers(store, evaluatorId, kept);
      if k == |kept| {
        assert scored.Success?;
        var kl := FirstUnscored(store, evaluatorId, later);
        if kl < |later| {
          assert all[|kept| + kl] == later[kl];
        }
      } else {
        assert scored.Failure?;
        assert all[k] == kept[k];
      }
    }
  }

  /** On success there is one group per question, in order, and each group
      holds that question's kept answers with this evaluator's scores. */
  lemma {:induction false} GroupAnswersContent(store: Store, evaluatorId: string, questions: seq<QuestionRef>, applicantId: Option<string>)
    ensures var r := GroupAnswers(store, evaluatorId, questions, applicantId);
      r.Success? ==>
        && |r.value| == |questions|
        && forall i :: 0 <= i < |questions| ==>
             && r.value[i].question == questions[i]
             && Annotates(store, evaluatorId, r.value[i].answers, KeptAnswers(store, questions[i], applicantId))
    decreases |questions|
  {
    if questions != [] {
      GroupAnswersContent(store, evaluatorId, questions[1..], applicantId);
      var r := GroupAnswers(store, evaluatorId, questions, applicantId);
      if r.Success? {
        var rest := GroupAnswers(store, evaluatorId, questions[1..], applicantId).value;
        assert r.value[1..] == rest;
        assert forall i :: 1 <= i < |questions| ==> questions[i] == questions[1..][i - 1];
      }
    }
  }
}
