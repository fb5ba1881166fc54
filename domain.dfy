/** The entities the applicant service reads and writes, the repositories it
    queries (as abstract stores), and the errors it throws. */
module Domain {
  import opened Wrappers
  import opened JavaInt

  /** An applicant's paper-review status; the enumeration itself is not modelled. */
  type Status = string

  datatype Applicant = Applicant(id: string, mozipId: string, paperStatus: Status)

  /** A paper question as the service sees it: its id and its recruitment cycle. */
  datatype QuestionRef = QuestionRef(id: string, mozipId: string)

  datatype PaperAnswer = PaperAnswer(id: string, applicantId: string, questionId: string)

  /** One evaluator's overall scoring record for one applicant. */
  datatype Evaluation = Evaluation(id: string, evaluatorId: string, applicantId: string, paperScore: Int32)

  /** The score one evaluation gives one answer. */
  datatype PaperEvaluation = PaperEvaluation(id: string, score: int)

  /** The exceptions the service throws, one per missing relation. */
  datatype ServiceError =
    | EntityNotFound(applicantId: string)
    | MozipNotFound(mozipId: string)
    | UserNotFound(userId: string)
    | EvaluationNotFound(evaluatorId: string, applicantId: string)
    | PaperEvaluationNotFound(evaluationId: string, answerId: string)
    | ApplicantNotFound(applicantId: string)

  /** What the read-only repositories return, as lookups and scans by parent id.
      A parent missing from a scan map has no children. */
  datatype Store = Store(
    mozips: set<string>,
    users: set<string>,
    applicantsOfMozip: map<string, seq<Applicant>>,
    questionsOfMozip: map<string, seq<QuestionRef>>,
    answersOfQuestion: map<string, seq<PaperAnswer>>,
    evaluationsOfApplicant: map<string, seq<Evaluation>>,
    evaluationOf: map<(string, string), Evaluation>,
    paperEvaluationOf: map<(string, string), PaperEvaluation>)

  function Scan<T>(m: map<string, seq<T>>, parentId: string): seq<T>
  {
    if parentId in m then m[parentId] else []
  }

  /** `applicantRepository.findApplicantsByMozip(mozip)` */
  function ApplicantsOf(store: Store, mozipId: string): seq<Applicant>
  {
    Scan(store.applicantsOfMozip, mozipId)
  }

  /** `paperQuestionRepository.findByMozipId(mozipId)` */
  function QuestionsOf(store: Store, mozipId: string): seq<QuestionRef>
  {
    Scan(store.questionsOfMozip, mozipId)
  }

  /** `paperAnswerRepository.findByPaperQuestionId(questionId)` */
  function AnswersOf(store: Store, questionId: string): seq<PaperAnswer>
  {
    Scan(store.answersOfQuestion, questionId)
  }

  /** `evaluationRepository.findByApplicant(applicant)` */
  function EvaluationsOf(store: Store, applicantId: string): seq<Evaluation>
  {
    Scan(store.evaluationsOfApplicant, applicantId)
  }

  /** `evaluationRepository.findByEvaluatorAndApplicant(evaluator, applicant)` */
  function FindEvaluation(store: Store, evaluatorId: string, applicantId: string): Option<Evaluation>
  {
    if (evaluatorId, applicantId) in store.evaluationOf then Some(store.evaluationOf[(evaluatorId, applicantId)]) else None
  }

  /** `paperEvaluationRepository.findByPaperAnswerAndEvaluation(answer, evaluation)` */
  function FindPaperEvaluation(store: Store, answerId: string, evaluationId: string): Option<PaperEvaluation>
  {
    if (answerId, evaluationId) in store.paperEvaluationOf then Some(store.paperEvaluationOf[(answerId, evaluationId)]) else None
  }

  /** The applicant table, which the status update writes to. Rows are keyed by
      the applicant's own id. */
  class ApplicantRepository {
    var rows: map<string, Applicant>

    ghost predicate Valid()
      reads this
    {
      forall id :: id in rows ==> rows[id].id == id
    }

    constructor (rows: map<string, Applicant>)
      requires forall id :: id in rows ==> rows[id].id == id
      ensures this.rows == rows && Valid()
    {
      this.rows := rows;
    }

    /** `applicantRepository.findById(id)` */
    function FindById(id: string): (r: Option<Applicant>)
      reads this
    {
      if id in rows then Some(rows[id]) else None
    }

    /** `applicantRepository.findByIdAndMozip(id, mozip)`: the lookup is scoped to one cycle. */
    function FindByIdAndMozip(id: string, mozipId: string): (r: Option<Applicant>)
      reads this
    {
      if id in rows && rows[id].mozipId == mozipId then Some(rows[id]) else None
    }

    /** `applicantRepository.save(applicant)`: writes the row under the applicant's id. */
    method Save(a: Applicant)
      requires Valid()
      modifies this
      ensures Valid()
      ensures rows == old(rows)[a.id := a]
    {
      rows := rows[a.id := a];
    }
  }
}
