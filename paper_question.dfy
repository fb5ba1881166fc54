/** The `PaperQuestion` entity: a written question of one recruitment cycle,
    whose text, details and required flag are replaced together. */
module PaperQuestionEntity {
  import opened Wrappers

  /** All fields of a paper question, as a value. `details` is nullable. */
  datatype PaperQuestionState = PaperQuestionState(
    id: string, mozipId: string, question: string, details: Option<string>, isRequired: bool)

  /** The state after `updateQuestion(question, details, isRequired)`: the three
      fields take the new values, identity and owning cycle stay. */
  function Updated(s: PaperQuestionState, question: string, details: Option<string>, isRequired: bool): (t: PaperQuestionState)
    ensures t.question == question && t.details == details && t.isRequired == isRequired
    ensures t.id == s.id && t.mozipId == s.mozipId
  {
    s.(question := question, details := details, isRequired := isRequired)
  }

  /** Applying the same update twice gives the state one application gives. */
  lemma UpdateIdempotent(s: PaperQuestionState, question: string, details: Option<string>, isRequired: bool)
    ensures Updated(Updated(s, question, details, isRequired), question, details, isRequired)
         == Updated(s, question, details, isRequired)
  {
  }

  /** After two updates only the second one's values remain. */
  lemma UpdateLastWins(s: PaperQuestionState, q1: string, d1: Option<string>, r1: bool, q2: string, d2: Option<string>, r2: bool)
    ensures Updated(Updated(s, q1, d1, r1), q2, d2, r2) == Updated(s, q2, d2, r2)
  {
  }

  class PaperQuestion {
    const id: string
    var mozipId: string
    var question: string
    var details: Option<string>
    var isRequired: bool

    constructor (id: string, mozipId: string, question: string, details: Option<string>, isRequired: bool)
      ensures State() == PaperQuestionState(id, mozipId, question, details, isRequired)
    {
      this.id := id;
      this.mozipId := mozipId;
      this.question := question;
      this.details := details;
      this.isRequired := isRequired;
    }

    function State(): PaperQuestionState
      reads this
    {
      PaperQuestionState(id, mozipId, question, details, isRequired)
    }

    method UpdateQuestion(question: string, details: Option<string>, isRequired: bool)
      modifies this
      ensures this.question == question && this.details == details && this.isRequired == isRequired
      ensures mozipId == old(mozipId)
      ensures State() == Updated(old(State()), question, details, isRequired)
    {
      this.question := question;
      this.details := details;
      this.isRequired := isRequired;
    }
  }
}
