# mozip applicant service, modelled in Dafny

This project models the applicant workflows of the mozip recruitment backend.
A recruitment cycle is called a Mozip. The modelled service has four operations:

- **Look up an applicant by id.** It fails with `EntityNotFound` when there is no such applicant.
- **List a cycle's applicants with their total paper scores.** Each total is the `IntStream.sum()` of the paper scores of the applicant's evaluations. The call fails with `MozipNotFound` when the cycle does not exist.
- **Return an evaluator's scored paper answers for a cycle.** Questions and answers can be narrowed by optional comma-separated id lists. Each kept answer carries the score this evaluator gave it. A missing user, evaluation or per-answer evaluation aborts the whole query.
- **Set a paper status on a list of applicants.** Each applicant is looked up within the cycle. The loop stops at the first applicant that is not found. Writes already made stay applied.

The project also models the two question entities, `PaperQuestion` and `InterviewQuestion`. Each has one in-place mutator, `updateQuestion`.

Layout:

- `wrappers.dfy`: `Option` and `Result`.
- `java_int.dfy`: Java `int`, its wrap-around addition and the left fold behind `IntStream.sum()`.
- `java_split.dfy`: `String.split(",")`. Trailing empty strings are dropped. A string with no comma splits to itself.
- `seqs.dfy`: order-preserving `filter(...).toList()`.
- `domain.dfy`: the entities and the error taxonomy. It also holds the read-only repositories, as one `Store` value of lookups and scans by parent id. The applicant table is the class `ApplicantRepository`, because the status update writes to it.
- `paper_answer_query.dfy`: the id filters, the per-answer score lookup and the fail-fast collection.
- `status_updates.dfy`: the status-update loop as a function, and a reference semantics for it.
- `applicant_service.dfy`: the four service operations and the lemmas about them.
- `paper_question.dfy`, `interview_question.dfy`: the entity classes.

Some behaviours of the code are easy to misread. The model follows the code:

- The "ranked" applicant list is not sorted. `sortBy` and `order` are never read (`ApplicantService.ApplicantListIgnoresSort`).
- An empty applicant or question filter `""` is not "no filter". `"".split(",")` is `[""]`, so it keeps only records whose id is the empty string (`ApplicantService.EmptyFilterKeepsOnlyEmptyIds`).
- A trailing comma is harmless except after the empty string (`JavaSplit.SplitTrailingComma`).
- The total paper score is a Java `int` sum. It wraps modulo 2^32 when the true total does not fit in an `int`.

## Model

| member | source | states |
|---|---|---|
| `ApplicantService.GetApplicantById` | src/main/java/com/mozip/mozip/domain/applicant/service/ApplicantService.java:45-47 | succeeds iff the id is in the applicant table, with the stored row; otherwise fails with EntityNotFound(id) |
| `ApplicantService.GetApplicantListByMozipId` | src/main/java/com/mozip/mozip/domain/applicant/service/ApplicantService.java:50-67 | fails iff the cycle is absent, and then with MozipNotFound; otherwise one row per applicant of the cycle, in repository order, each total being the 32-bit truncation of the sum of its evaluations' paper scores |
| `ApplicantService.ApplicationRows` | src/main/java/com/mozip/mozip/domain/applicant/service/ApplicantService.java:56-64 | the mapped rows: same length and order as the applicants, each row's total equal to the wrapped mathematical sum of paper scores |
| `ApplicantService.ApplicationTotalIsSum` | src/main/java/com/mozip/mozip/domain/applicant/service/ApplicantService.java:58-61 | a row's total is 0 when the applicant has no evaluations, and equals the exact sum of paper scores whenever that sum fits in an int |
| `ApplicantService.TotalPaperScoreOrderIndependent` | src/main/java/com/mozip/mozip/domain/applicant/service/ApplicantService.java:58-61 | the total does not depend on the order in which the evaluations are returned |
| `ApplicantService.TotalPaperScoreExample` | src/main/java/com/mozip/mozip/domain/applicant/service/ApplicantService.java:58-61 | evaluations scoring 3, 5 and 2 total 10 |
| `ApplicantService.ApplicantListIgnoresSort` | src/main/java/com/mozip/mozip/domain/applicant/service/ApplicantService.java:50-66 | the result is the same for every sortBy and order |
| `JavaInt.IntStreamSumIsWrappedSum` | src/main/java/com/mozip/mozip/domain/applicant/service/ApplicantService.java:59-61 | the per-step wrapping fold of IntStream.sum equals the true sum truncated to 32 bits once |
| `JavaInt.IntStreamSumExact` | src/main/java/com/mozip/mozip/domain/applicant/service/ApplicantService.java:59-61 | when the true sum fits in an int, IntStream.sum returns exactly it |
| `JavaInt.IntStreamSumOrderIndependent` | src/main/java/com/mozip/mozip/domain/applicant/service/ApplicantService.java:59-61 | IntStream.sum over two permutations of the same ints is equal |
| `JavaInt.AddInt` | src/main/java/com/mozip/mozip/domain/applicant/service/ApplicantService.java:59-61 | Java int addition is the true sum truncated to 32 bits |
| `JavaInt.SumPermutation` | src/main/java/com/mozip/mozip/domain/applicant/service/ApplicantService.java:59-61 | the mathematical sum is invariant under permutation |
| `ApplicantService.GetPaperAnswersByMozipId` | src/main/java/com/mozip/mozip/domain/applicant/service/ApplicantService.java:69-105 | UserNotFound when the evaluator is absent; otherwise succeeds iff every kept answer of every kept question is scored by this evaluator, fails with the error of the first unscored kept answer (question order, then answer order), and on success gives one group per kept question, in order, each holding its kept answers with this evaluator's per-answer scores |
| `PaperAnswerQuery.ScoreAnswers` | src/main/java/com/mozip/mozip/domain/applicant/service/ApplicantService.java:84-98 | succeeds iff every answer is scored, each answer then annotated in order with its PaperEvaluation score; otherwise fails with EvaluationNotFound or PaperEvaluationNotFound for the first unscored answer |
| `PaperAnswerQuery.GroupAnswersOutcome` | src/main/java/com/mozip/mozip/domain/applicant/service/ApplicantService.java:77-102 | the grouped collection succeeds iff all kept answers across all questions are scored, and otherwise throws the error of the first unscored one, with no partial result |
| `PaperAnswerQuery.GroupAnswersContent` | src/main/java/com/mozip/mozip/domain/applicant/service/ApplicantService.java:77-102 | on success, one group per question in order, each with that question's kept answers and their scores |
| `PaperAnswerQuery.FirstUnscored` | src/main/java/com/mozip/mozip/domain/applicant/service/ApplicantService.java:84-98 | the index of the first answer lacking an evaluation or a paper evaluation: all before it are scored, it is not |
| `PaperAnswerQuery.FirstUnscoredConcat` | src/main/java/com/mozip/mozip/domain/applicant/service/ApplicantService.java:77-102 | the first unscored answer of two consecutive answer lists is in the first list if it has one, else in the second |
| `ApplicantService.QuestionFilter` | src/main/java/com/mozip/mozip/domain/applicant/service/ApplicantService.java:73-75 | a question is kept iff it belongs to the cycle's scan and the filter is null or its id is an element of the split list; kept questions form a subsequence of the scan; a null filter keeps all |
| `ApplicantService.AnswerFilter` | src/main/java/com/mozip/mozip/domain/applicant/service/ApplicantService.java:79-82 | an answer is kept iff the filter is null or its applicant's id is an element of the split list; order is preserved; a null filter keeps all |
| `ApplicantService.QuestionFilterExample` | src/main/java/com/mozip/mozip/domain/applicant/service/ApplicantService.java:73-75 | with questions a, b, c (c neither a nor b) the filter "a,b" keeps a and b in that order |
| `ApplicantService.ListedFilterAdmits` | src/main/java/com/mozip/mozip/domain/applicant/service/ApplicantService.java:74 | the filter "a,b" of two comma-free ids, b non-empty, admits exactly a and b |
| `ApplicantService.EmptyFilterKeepsOnlyEmptyIds` | src/main/java/com/mozip/mozip/domain/applicant/service/ApplicantService.java:74 | the filter "" admits only the empty id |
| `ApplicantService.UnknownMozipYieldsNoGroups` | src/main/java/com/mozip/mozip/domain/applicant/service/ApplicantService.java:73-77 | a cycle without questions, an unknown one included, gives an empty result and not an error |
| `Seqs.FilterMultiset` | src/main/java/com/mozip/mozip/domain/applicant/service/ApplicantService.java:73-75 | stream filter then toList: each element passing the test keeps its multiplicity, every other one is gone |
| `Seqs.FilterMembership` | src/main/java/com/mozip/mozip/domain/applicant/service/ApplicantService.java:73-75 | an element is kept iff it occurs in the input and passes the test |
| `Seqs.FilterSubsequence` | src/main/java/com/mozip/mozip/domain/applicant/service/ApplicantService.java:73-75 | the kept elements are a subsequence of the input: repository order is preserved |
| `Seqs.FilterKeepsAll` | src/main/java/com/mozip/mozip/domain/applicant/service/ApplicantService.java:74 | a filter every element passes returns the input unchanged |
| `JavaSplit.JoinPieces` | src/main/java/com/mozip/mozip/domain/applicant/service/ApplicantService.java:74 | cutting at commas and joining with commas gives back the string; no piece contains a comma |
| `JavaSplit.PiecesJoin` | src/main/java/com/mozip/mozip/domain/applicant/service/ApplicantService.java:74 | joining comma-free pieces and cutting again gives back the pieces |
| `JavaSplit.SplitIsPrefixOfPieces` | src/main/java/com/mozip/mozip/domain/applicant/service/ApplicantService.java:74 | split returns the leading pieces in order, drops only empty ones, and never ends in an empty string when the input has a comma |
| `JavaSplit.SplitMembership` | src/main/java/com/mozip/mozip/domain/applicant/service/ApplicantService.java:74 | a non-empty id is in the split list iff it is a piece between commas |
| `JavaSplit.SplitTrailingComma` | src/main/java/com/mozip/mozip/domain/applicant/service/ApplicantService.java:81 | appending a comma to a non-empty filter does not change its split |
| `JavaSplit.SplitTwo` | src/main/java/com/mozip/mozip/domain/applicant/service/ApplicantService.java:74 | two comma-free ids joined by a comma, the second non-empty, split back into exactly those two |
| `JavaSplit.SplitExamples` | src/main/java/com/mozip/mozip/domain/applicant/service/ApplicantService.java:81 | "q1,q2" gives [q1, q2]; "a,b," gives [a, b]; "," gives []; "" gives [""]; ",a" gives ["", a] |
| `ApplicantService.UpdateApplicantPaperStatuses` | src/main/java/com/mozip/mozip/domain/applicant/service/ApplicantService.java:107-122 | MozipNotFound with the table untouched when the cycle is absent; otherwise the table is exactly what the pair-by-pair loop produces, and the result is that loop's error or a response carrying the given timestamp |
| `StatusUpdates.ApplyChangesMeaning` | src/main/java/com/mozip/mozip/domain/applicant/service/ApplicantService.java:111-117 | the loop's table equals the reference overwrite by the pairs before the first out-of-cycle applicant, and its error is ApplicantNotFound for that applicant |
| `StatusUpdates.StatusUpdateSucceedsIff` | src/main/java/com/mozip/mozip/domain/applicant/service/ApplicantService.java:111-113 | the update succeeds iff every listed applicant belongs to the cycle |
| `StatusUpdates.FailureKeepsPrefix` | src/main/java/com/mozip/mozip/domain/applicant/service/ApplicantService.java:111-117 | after a failure at pair k the table equals the result of applying only the pairs before k, which all succeed |
| `StatusUpdates.LastWriteWins` | src/main/java/com/mozip/mozip/domain/applicant/service/ApplicantService.java:111-117 | after a successful update each listed applicant has the status of the last pair naming it |
| `StatusUpdates.LastStatusIsLastWrite` | src/main/java/com/mozip/mozip/domain/applicant/service/ApplicantService.java:115-116 | the status recorded for an id is the one asked for by the last pair naming it |
| `StatusUpdates.UnlistedApplicantsUnchanged` | src/main/java/com/mozip/mozip/domain/applicant/service/ApplicantService.java:111-117 | an applicant no pair names keeps its row, status included |
| `StatusUpdates.StatusUpdateKeepsIdentity` | src/main/java/com/mozip/mozip/domain/applicant/service/ApplicantService.java:112-116 | the table keeps the same ids, and every row keeps its id and cycle |
| `StatusUpdates.PartialApplicationExample` | src/main/java/com/mozip/mozip/domain/applicant/service/ApplicantService.java:108-117 | with pairs (a1, PASSED), (a2, FAILED) where a2 belongs to another cycle, a1 is written and the call fails with ApplicantNotFound(a2) |
| `Domain.ApplicantRepository.Save` | src/main/java/com/mozip/mozip/domain/applicant/service/ApplicantService.java:116 | save writes the row under the applicant's own id and keeps the table keyed by id |
| `PaperQuestionEntity.PaperQuestion.UpdateQuestion` | src/main/java/com/mozip/mozip/domain/question/entity/PaperQuestion.java:39-43 | question, details and isRequired take the given values; the owning cycle is unchanged; id is a constant |
| `PaperQuestionEntity.PaperQuestion.constructor` | src/main/java/com/mozip/mozip/domain/question/entity/PaperQuestion.java:24-37 | the new question holds exactly the given field values |
| `PaperQuestionEntity.Updated` | src/main/java/com/mozip/mozip/domain/question/entity/PaperQuestion.java:39-43 | the update's state transition: the three fields replaced, id and cycle kept |
| `PaperQuestionEntity.UpdateIdempotent` | src/main/java/com/mozip/mozip/domain/question/entity/PaperQuestion.java:39-43 | the same update twice gives the state of one |
| `PaperQuestionEntity.UpdateLastWins` | src/main/java/com/mozip/mozip/domain/question/entity/PaperQuestion.java:39-43 | after two updates only the second one's values remain |
| `InterviewQuestionEntity.InterviewQuestion.UpdateQuestion` | src/main/java/com/mozip/mozip/domain/interviewQuestion/entity/InterviewQuestion.java:45-49 | question, details and isRequired take the given values; cycle and questionNo are unchanged; id is a constant |
| `InterviewQuestionEntity.InterviewQuestion.constructor` | src/main/java/com/mozip/mozip/domain/interviewQuestion/entity/InterviewQuestion.java:28-43 | the new question holds exactly the given field values |
| `InterviewQuestionEntity.Updated` | src/main/java/com/mozip/mozip/domain/interviewQuestion/entity/InterviewQuestion.java:45-49 | the update's state transition: the three fields replaced, id, cycle and questionNo kept |
| `InterviewQuestionEntity.UpdateIdempotent` | src/main/java/com/mozip/mozip/domain/interviewQuestion/entity/InterviewQuestion.java:45-49 | the same update twice gives the state of one |
| `InterviewQuestionEntity.UpdateLastWins` | src/main/java/com/mozip/mozip/domain/interviewQuestion/entity/InterviewQuestion.java:45-49 | after two updates only the second one's values remain |

## Left out

- Spring, Lombok and JPA wiring is not modelled. This covers `@Service`, `@Entity`, builders, lazy fetching and column constraints. None of it has behaviour in the code.
- The repository implementations are not modelled. The read-only repositories are one `Store` snapshot of lookups and scans by parent id. The applicant table is `ApplicantRepository`, and `save` writes its map.
- The scans in `Store` are independent of `ApplicantRepository`. The model does not relate a scan of a cycle's applicants to the rows of the applicant table.
- ULID id generation and the `BaseTime` audit timestamps are not modelled, because both come from external libraries and the clock. Constructors take the id as a parameter.
- `Instant.now().toString()` is not modelled, because it reads the clock. The update takes the timestamp string as the parameter `now`.
- DTO construction (`ApplicationDto.from`, `PaperAnswerForApplicantDto.from` and the others) is modelled as plain records, because the DTO classes are not part of this model. A list row carries the applicant and its total. The list carries only the cycle's id as Mozip metadata.
- Exception messages are not modelled. Each exception is a `ServiceError` variant carrying the ids it names.
- Transactions and isolation are not modelled, because they are concurrency concerns. Each `save` takes effect at once.
- Evaluation.java and PaperEvaluation.java are not part of this model. `paperScore` is assumed to be a Java `int`. A per-answer score is passed through as an unbounded integer.
- The applicant status enumeration is not part of this model, so a status is an arbitrary string.
- The service imports a `PaperQuestion` from a different package than the entity file shown. In the service a question is only its id and its cycle's id.
- Null lists and null elements are not modelled. These include a null request list, a null pair and a null applicant of an answer. In Java they end in a NullPointerException.
- A null `question` passed to `updateQuestion` is not modelled. That case is rejected only when the row is flushed, so `question` is a non-null string.
- `Long questionNo` is modelled as an unbounded integer. No code in the model does arithmetic on it.
