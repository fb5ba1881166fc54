/** The `InterviewQuestion` entity: an interview question of one recruitment
    cycle with its number in the questionnaire; text, details and required flag
    are replaced together. */
module InterviewQuestionEntity {
  import opened Wrappers

  /** All fields of an interview question, as a value. `questionNo` and
      `details` are nullable. */
  datatype InterviewQuestionState = InterviewQuestionState(
    id: string, mozipId: string, question: string, questionNo: Option<int>, details: Option<string>, isRequired: bool)

  /** The state after `updateQuestion(question, details, isRequired)`: the three
      fields take the new values, identity, owning cycle and number stay. */
  function Updated(s: InterviewQuestionState, question: string, details: Option<string>, isRequired: bool): (t: InterviewQuestionState)
    ensures t.question == question && t.details == details && t.isRequired == isRequired
    ensures t.id == s.id && t.mozipId == s.mozipId && t.questionNo == s.questionNo
  {
    s.(question := question, details := details, isRequired := isRequired)
  }

  /** Applying the same update twice gives the state one application gives. */
  lemma UpdateIdempotent(s: InterviewQuestionState, question: string, details: Option<string>, isRequired: bool)
    ensures Updated(Updated(s, question, details, isRequired), question, details, isRequired)
         == Updated(s, question, details, isRequired)
  {
  }

  /** After two updates only the second one's values remain. */
  lemma UpdateLastWins(s: InterviewQuestionState, q1: string, d1: Option<string>, r1: bool, q2: string, d2: Option<string>, r2: bool)
    ensures Updated(Updated(s, q1, d1, r1), q2, d2, r2) == Updated(s, q2, d2, r2)
  {
  }

  class InterviewQuestion {
    const id: string
    var mozipId: string
    var question: string
    var questionNo: Option<int>
    var details: Option<string>
    var isRequired: bool

    constructor (id: string, mozipId: string, question: string, questionNo: Option<int>, details: Option<string>, isRequired: bool)
      ensures State() == InterviewQuestionState(id, mozipId, question, questionNo, details, isRequired)
    {
      this.id := id;
      this.mozipId := mozipId;
      this.question := question;
      this.questionNo := questionNo;
      this.details := details;
      this.isRequired := isRequired;
    }

    function State(): InterviewQuestionState
      reads this
    {
      InterviewQuestionState(id, mozipId, question, questionNo, details, isRequired)
    }

    method UpdateQuestion(question: string, details: Option<string>, isRequired: bool)
      modifies this
      ensures this.question == question && this.details == details && this.isRequired == isRequired
      ensures mozipId == old(mozipId) && questionNo == old(questionNo)
      ensures State() == Updated(old(State()), question, details, isRequired)
    {
      this.question := question;
      this.details := details;
      this.isRequired := isRequired;
    }
  }
}
