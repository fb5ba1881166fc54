/** `ApplicantService`: the applicant lookup, the applicant list with total paper
    scores, the evaluator's scored paper answers, and the bulk status update. */
module ApplicantService {
  import opened Wrappers
  import opened JavaInt
  import opened Domain
  import opened Seqs
  import opened PaperAnswerQuery
  import opened StatusUpdates
  import JavaSplit

  /** One row of the applicant list: the applicant and its total paper score. */
  datatype ApplicationRow = ApplicationRow(applicant: Applicant, totalPaperScore: Int32)

  datatype ApplicantList = ApplicantList(mozipId: string, applications: seq<ApplicationRow>)

  /** The update's response; the timestamp is the clock reading passed in. */
  datatype UpdateApplicantStatusResponse = UpdateApplicantStatusResponse(timestamp: string)

  function PaperScores(evaluations: seq<Evaluation>): (scores: seq<Int32>)
    ensures |scores| == |evaluations|
    ensures forall i :: 0 <= i < |evaluations| ==> scores[i] == evaluations[i].paperScore
  {
    seq(|evaluations|, i requires 0 <= i < |evaluations| => evaluations[i].paperScore)
  }

  /** The applicant with that id, or EntityNotFound. */
  function GetApplicantById(applicants: ApplicantRepository, applicantId: string): (r: Result<Applicant, ServiceError>)
    reads applicants
    ensures r.Success? <==> applicantId in applicants.rows
    ensures r.Success? ==> r.value == applicants.rows[applicantId]
    ensures r.Failure? ==> r.error == EntityNotFound(applicantId)
  {
    match applicants.FindById(applicantId)
    case Some(a) => Success(a)
    case None => Failure(EntityNotFound(applicantId))
  }

  /** `totalPaperScore` of one applicant: `IntStream.sum()` over the paper
      scores of all its evaluations. */
  function TotalPaperScore(store: Store, applicantId: string): Int32
  {
    IntStreamSum(PaperScores(EvaluationsOf(store, applicantId)))
  }

  /** One row per applicant, in order, each carrying the applicant's total. */
  function ApplicationRows(store: Store, applicants: seq<Applicant>): (rows: seq<ApplicationRow>)
    ensures |rows| == |applicants|
    ensures forall i :: 0 <= i < |applicants| ==>
      && rows[i].applicant == applicants[i]
      && rows[i].totalPaperScore == Wrap(Sum(PaperScores(EvaluationsOf(store, applicants[i].id))))
    decreases |applicants|
  {
    if applicants == [] then []
    else
      IntStreamSumIsWrappedSum(PaperScores(EvaluationsOf(store, applicants[0].id)));
      [ApplicationRow(applicants[0], TotalPaperScore(store, applicants[0].id))] + ApplicationRows(store, applicants[1..])
  }

  /** The cycle's applicants, each with the sum of its evaluations' paper scores
      (taken modulo 2^32 as Java int arithmetic does); MozipNotFound when the
      cycle does not exist. `sortBy` and `order` are not read. */
  function GetApplicantListByMozipId(store: Store, mozipId: string, sortBy: string, order: string)
    : (r: Result<ApplicantList, ServiceError>)
    ensures r.Failure? <==> mozipId !in store.mozips
    ensures r.Failure? ==> r.error == MozipNotFound(mozipId)
    ensures r.Success? ==>
      var applicants := ApplicantsOf(store, mozipId);
      && r.value.mozipId == mozipId
      && |r.value.applications| == |applicants|
      && forall i :: 0 <= i < |applicants| ==>
           && r.value.applications[i].applicant == applicants[i]
           && r.value.applications[i].totalPaperScore == Wrap(Sum(PaperScores(EvaluationsOf(store, applicants[i].id))))
  {
    if mozipId !in store.mozips then Failure(MozipNotFound(mozipId))
    else Success(ApplicantList(mozipId, ApplicationRows(store, ApplicantsOf(store, mozipId))))
  }

  /** The evaluator's scored answers, grouped by the cycle's kept questions.
      UserNotFound comes first; then the first kept answer lacking an evaluation
      or a paper evaluation aborts the whole query. */
  function GetPaperAnswersByMozipId(store: Store, userId: string, mozipId: string, applicantId: Option<string>, questionId: Option<string>)
    : (r: Result<seq<QuestionWithAnswers>, ServiceError>)
    ensures userId !in store.users ==> r == Failure(UserNotFound(userId))
    ensures userId in store.users ==>
      var questions := KeptQuestions(store, mozipId, questionId);
      var all := AllKeptAnswers(store, questions, applicantId);
      && (r.Success? <==> FirstUnscored(store, userId, all) == |all|)
      && (r.Failure? ==> r.error == MissingError(store, userId, all[FirstUnscored(store, userId, all)]))
      && (r.Success? ==>
            && |r.value| == |questions|
            && forall i :: 0 <= i < |questions| ==>
                 && r.value[i].question == questions[i]
                 && Annotates(store, userId, r.value[i].answers, KeptAnswers(store, questions[i], applicantId)))
  {
    if userId !in store.users then Failure(UserNotFound(userId))
    else
      var questions := KeptQuestions(store, mozipId, questionId);
      GroupAnswersOutcome(store, userId, questions, applicantId);
      GroupAnswersContent(store, userId, questions, applicantId);
      GroupAnswers(store, userId, questions, applicantId)
  }

  /** Sets each listed applicant's paper status in order, looking it up within
      the cycle and saving it; stops at the first applicant not found, keeping
      the writes already made. */
  method UpdateApplicantPaperStatuses(store: Store, applicants: ApplicantRepository, mozipId: string,
                                      request: seq<StatusChange>, now: string)
    returns (r: Result<UpdateApplicantStatusResponse, ServiceError>)
    requires applicants.Valid()
    modifies applicants
    ensures applicants.Valid()
    ensures mozipId !in store.mozips ==>
      r == Failure(MozipNotFound(mozipId)) && applicants.rows == old(applicants.rows)
    ensures mozipId in store.mozips ==>
      var out := ApplyChanges(old(applicants.rows), mozipId, request);
      && applicants.rows == out.rows
      && r == if out.failure.None? then Success(UpdateApplicantStatusResponse(now)) else Failure(out.failure.value)
  {
    if mozipId !in store.mozips {
      return Failure(MozipNotFound(mozipId));
    }
    var i := 0;
    while i < |request|
      invariant 0 <= i <= |request|
      invariant applicants.Valid()
      invariant ApplyChanges(old(applicants.rows), mozipId, request) == ApplyChanges(applicants.rows, mozipId, request[i..])
    {
      var each := request[i];
      var found := applicants.FindByIdAndMozip(each.applicantId, mozipId);
      if found.None? {
        return Failure(ApplicantNotFound(each.applicantId));
      }
      assert request[i..][1..] == request[i + 1..];
      applicants.Save(found.value.(paperStatus := each.status));
      i := i + 1;
    }
    return Success(UpdateApplicantStatusResponse(now));
  }

  /** `sortBy` and `order` do not affect the applicant list. */
  lemma ApplicantListIgnoresSort(store: Store, mozipId: string, sortBy1: string, order1: string, sortBy2: string, order2: string)
    ensures GetApplicantListByMozipId(store, mozipId, sortBy1, order1) == GetApplicantListByMozipId(store, mozipId, sortBy2, order2)
  {
  }

  /** An applicant with no evaluations has a total of 0; when the true sum of
      the paper scores fits in an int, the total is exactly that sum. */
  lemma ApplicationTotalIsSum(store: Store, mozipId: string, sortBy: string, order: string, i: nat)
    requires mozipId in store.mozips
    requires i < |ApplicantsOf(store, mozipId)|
    ensures var rows := GetApplicantListByMozipId(store, mozipId, sortBy, order).value.applications;
      var evaluations := EvaluationsOf(store, ApplicantsOf(store, mozipId)[i].id);
      && (evaluations == [] ==> rows[i].totalPaperScore == 0)
      && (MinInt <= Sum(PaperScores(evaluations)) <= MaxInt ==> rows[i].totalPaperScore == Sum(PaperScores(evaluations)))
  {
    var scores := PaperScores(EvaluationsOf(store, ApplicantsOf(store, mozipId)[i].id));
    WrapInRange(0);
    if MinInt <= Sum(scores) <= MaxInt {
      WrapInRange(Sum(scores));
    }
  }

  /** Listing the same evaluations in another order gives the same total. */
  lemma TotalPaperScoreOrderIndependent(e1: seq<Evaluation>, e2: seq<Evaluation>)
    requires multiset(PaperScores(e1)) == multiset(PaperScores(e2))
    ensures IntStreamSum(PaperScores(e1)) == IntStreamSum(PaperScores(e2))
  {
    IntStreamSumOrderIndependent(PaperScores(e1), PaperScores(e2));
  }

  /** Evaluations scoring 3, 5 and 2 total 10. */
  lemma TotalPaperScoreExample(store: Store, applicantId: string)
    requires applicantId in store.evaluationsOfApplicant
    requires |store.evaluationsOfApplicant[applicantId]| == 3
    requires store.evaluationsOfApplicant[applicantId][0].paperScore == 3
    requires store.evaluationsOfApplicant[applicantId][1].paperScore == 5
    requires store.evaluationsOfApplicant[applicantId][2].paperScore == 2
    ensures TotalPaperScore(store, applicantId) == 10
  {
    var scores := PaperScores(EvaluationsOf(store, applicantId));
    assert scores == [3, 5, 2];
    assert Sum(scores) == 10 by {
      assert scores[1..] == [5, 2];
      assert scores[1..][1..] == [2];
      assert scores[1..][1..][1..] == [];
      assert Sum([2]) == 2 + Sum([]);
      assert Sum([5, 2]) == 5 + Sum([2]);
    }
    IntStreamSumExact(scores);
  }

  /** Question filter: a question of the cycle is kept iff the filter is null or
      its id is an element of the split list; kept questions keep repository order. */
  lemma QuestionFilter(store: Store, mozipId: string, questionId: Option<string>, q: QuestionRef)
    ensures q in KeptQuestions(store, mozipId, questionId)
        <==> q in QuestionsOf(store, mozipId) && (questionId.None? || q.id in JavaSplit.Split(questionId.value))
    ensures IsSubsequence(KeptQuestions(store, mozipId, questionId), QuestionsOf(store, mozipId))
    ensures questionId.None? ==> KeptQuestions(store, mozipId, questionId) == QuestionsOf(store, mozipId)
  {
    var p := (q: QuestionRef) => Admits(questionId, q.id);
    FilterMembership(QuestionsOf(store, mozipId), p);
    FilterSubsequence(QuestionsOf(store, mozipId), p);
    if questionId.None? {
      FilterKeepsAll(QuestionsOf(store, mozipId), p);
    }
  }

  /** Applicant filter: an answer is kept iff the filter is null or its
      applicant's id is an element of the split list; order is preserved. */
  lemma AnswerFilter(store: Store, question: QuestionRef, applicantId: Option<string>, a: PaperAnswer)
    ensures a in KeptAnswers(store, question, applicantId)
        <==> a in AnswersOf(store, question.id) && (applicantId.None? || a.applicantId in JavaSplit.Split(applicantId.value))
    ensures IsSubsequence(KeptAnswers(store, question, applicantId), AnswersOf(store, question.id))
    ensures applicantId.None? ==> KeptAnswers(store, question, applicantId) == AnswersOf(store, question.id)
  {
    var p := (a: PaperAnswer) => Admits(applicantId, a.applicantId);
    FilterMembership(AnswersOf(store, question.id), p);
    FilterSubsequence(AnswersOf(store, question.id), p);
    if applicantId.None? {
      FilterKeepsAll(AnswersOf(store, question.id), p);
    }
  }

  /** The filter "a,b" admits exactly the ids a and b. */
  lemma ListedFilterAdmits(a: string, b: string, id: string)
    requires JavaSplit.CommaFree(a) && JavaSplit.CommaFree(b) && b != ""
    ensures Admits(Some(a + "," + b), id) <==> id == a || id == b
  {
    JavaSplit.SplitTwo(a, b);
  }

  /** With questions a, b, c the filter "a,b" keeps exactly a and b, in the cycle's order. */
  lemma QuestionFilterExample(store: Store, mozipId: string, a: string, b: string, c: string)
    requires JavaSplit.CommaFree(a) && JavaSplit.CommaFree(b) && b != ""
    requires c != a && c != b
    requires QuestionsOf(store, mozipId) == [QuestionRef(a, mozipId), QuestionRef(b, mozipId), QuestionRef(c, mozipId)]
    ensures KeptQuestions(store, mozipId, Some(a + "," + b)) == [QuestionRef(a, mozipId), QuestionRef(b, mozipId)]
  {
    var qs := QuestionsOf(store, mozipId);
    var p := (q: QuestionRef) => Admits(Some(a + "," + b), q.id);
    JavaSplit.SplitTwo(a, b);
    assert p(qs[0]) && p(qs[1]) && !p(qs[2]);
    assert qs[1..] == [qs[1], qs[2]] && qs[1..][1..] == [qs[2]] && qs[1..][1..][1..] == [];
    assert Filter(qs[1..][1..], p) == [];
    assert Filter(qs[1..], p) == [qs[1]];
    assert Filter(qs, p) == [qs[0], qs[1]];
  }

  /** An empty-string filter is not null: it keeps only records whose id is the empty string. */
  lemma EmptyFilterKeepsOnlyEmptyIds(id: string)
    ensures Admits(Some(""), id) <==> id == ""
  {
    JavaSplit.SplitExamples();
  }

  /** A cycle with no questions (an unknown id included) gives an empty result, not an error. */
  lemma UnknownMozipYieldsNoGroups(store: Store, userId: string, mozipId: string, applicantId: Option<string>, questionId: Option<string>)
    requires userId in store.users
    requires mozipId !in store.questionsOfMozip
    ensures GetPaperAnswersByMozipId(store, userId, mozipId, applicantId, questionId) == Success([])
  {
    assert KeptQuestions(store, mozipId, questionId) == [];
  }
}
