/** The credential body schema (backend/src/validation/password-validation.ts):
    length bounds on every field, at most 15 questions, and the refinement that
    every submitted question has both a question and an answer. */
module PasswordValidation {
  import opened Wrappers
  import opened Errors
  import Text

  datatype QuestionAnswer = QuestionAnswer(question: string, answer: string)

  /** A request body as the schema sees it: `image` and `questions` may be absent. */
  datatype PasswordBody = PasswordBody(
    name: string,
    password: string,
    image: Option<string>,
    questions: Option<seq<QuestionAnswer>>)

  const MaxNameLength := 100
  const MaxSecretLength := 256
  const MaxImageLength := 256
  const MaxQuestions := 15
  const MaxQuestionLength := 256
  const MaxAnswerLength := 256

  /** questionAnswerSchema */
  predicate QuestionAnswerAccepts(q: QuestionAnswer) {
    |q.question| <= MaxQuestionLength && |q.answer| <= MaxAnswerLength
  }

  /** The object part of passwordSchema (before the refinement). */
  predicate ShapeAccepts(b: PasswordBody) {
    && |b.name| <= MaxNameLength
    && |b.password| <= MaxSecretLength
    && (b.image.Some? ==> |b.image.value| <= MaxImageLength)
    && (b.questions.Some? ==>
          |b.questions.value| <= MaxQuestions &&
          forall i :: 0 <= i < |b.questions.value| ==> QuestionAnswerAccepts(b.questions.value[i]))
  }

  /** The refinement: an absent list passes; a present one needs every entry's
      question and answer to be non-empty (JavaScript truthiness of a string). */
  predicate EveryQuestionAnswered(b: PasswordBody) {
    b.questions.Some? ==>
      forall i :: 0 <= i < |b.questions.value| ==>
        b.questions.value[i].question != "" && b.questions.value[i].answer != ""
  }

  predicate PasswordSchemaAccepts(b: PasswordBody) {
    ShapeAccepts(b) && EveryQuestionAnswered(b)
  }

  // ---------------------------------------------------------------------------
  // The issues a failed parse reports, in the order the schema checks them:
  // the keys in declaration order, a list's own bound before its entries, and
  // the refinement last (it runs on a result that only has length issues).
  // ---------------------------------------------------------------------------

  function MaxLengthIssue(path: seq<PathSegment>, s: string, max: nat, message: string): seq<Issue> {
    if |s| > max then [Issue(path, message)] else []
  }

  function QuestionAnswerIssues(q: QuestionAnswer, k: nat): seq<Issue> {
    MaxLengthIssue([Key("questions"), Index(k), Key("question")], q.question, MaxQuestionLength,
                   "Question must be at most 256 characters") +
    MaxLengthIssue([Key("questions"), Index(k), Key("answer")], q.answer, MaxAnswerLength,
                   "Answer must be at most 256 characters")
  }

  /** The issues of the entries `qs`, the first of which sits at index `k`. */
  function EntryIssues(qs: seq<QuestionAnswer>, k: nat): seq<Issue>
    decreases |qs|
  {
    if qs == [] then [] else QuestionAnswerIssues(qs[0], k) + EntryIssues(qs[1..], k + 1)
  }

  function QuestionListIssues(qs: seq<QuestionAnswer>): seq<Issue> {
    (if |qs| > MaxQuestions then [Issue([Key("questions")], "You can add up to 15 questions only")] else []) +
    EntryIssues(qs, 0)
  }

  const RefinementIssue := Issue([Key("questions")], "Each question must have a corresponding answer")

  function Issues(b: PasswordBody): seq<Issue> {
    MaxLengthIssue([Key("name")], b.name, MaxNameLength, "Name must be at most 100 characters") +
    MaxLengthIssue([Key("password")], b.password, MaxSecretLength, "Password must be at most 256 characters") +
    (if b.image.Some? then MaxLengthIssue([Key("image")], b.image.value, MaxImageLength, "Image must be at most 256 characters") else []) +
    (if b.questions.Some? then QuestionListIssues(b.questions.value) else []) +
    (if EveryQuestionAnswered(b) then [] else [RefinementIssue])
  }

  /** `passwordSchema.parse(body)`: returns when there is no issue, throws otherwise. */
  function Parse(b: PasswordBody): ParseOutcome {
    var issues := Issues(b);
    if issues == [] then Parsed else Threw(ZodError(issues))
  }

  lemma {:induction false} EntryIssuesEmpty(qs: seq<QuestionAnswer>, k: nat)
    ensures EntryIssues(qs, k) == [] <==> forall i :: 0 <= i < |qs| ==> QuestionAnswerAccepts(qs[i])
    decreases |qs|
  {
    if qs != [] {
      EntryIssuesEmpty(qs[1..], k + 1);
      assert forall i :: 1 <= i < |qs| ==> qs[i] == qs[1..][i - 1];
    }
  }

  /** The issue list is the schema's verdict: empty exactly when the schema accepts. */
  lemma IssuesEmptyIffAccepts(b: PasswordBody)
    ensures Issues(b) == [] <==> PasswordSchemaAccepts(b)
    ensures Parse(b) == Parsed <==> PasswordSchemaAccepts(b)
  {
    if b.questions.Some? {
      EntryIssuesEmpty(b.questions.value, 0);
    }
  }

  /** There is no minimum length: an empty name and an empty secret pass. */
  lemma EmptyStringsPass()
    ensures PasswordSchemaAccepts(PasswordBody("", "", None, None))
    ensures PasswordSchemaAccepts(PasswordBody("", "", None, Some([])))
  {
  }

  /** A list of sixteen questions is rejected, however well-formed its entries. */
  lemma TooManyQuestionsRejected(b: PasswordBody)
    requires b.questions.Some? && |b.questions.value| > MaxQuestions
    ensures !PasswordSchemaAccepts(b)
    ensures Issue([Key("questions")], "You can add up to 15 questions only") in Issues(b)
  {
    var qs := b.questions.value;
    assert QuestionListIssues(qs)[0] == Issue([Key("questions")], "You can add up to 15 questions only");
  }

  /** A present question without an answer (or the reverse) is rejected with the
      refinement's issue; with no list at all the refinement passes. */
  lemma UnansweredQuestionRejected(b: PasswordBody, i: nat)
    requires b.questions.Some? && i < |b.questions.value|
    requires b.questions.value[i].question == "" || b.questions.value[i].answer == ""
    ensures !PasswordSchemaAccepts(b)
    ensures Issues(b)[|Issues(b)| - 1] == RefinementIssue
  {
  }

  lemma AbsentQuestionsPassRefinement(b: PasswordBody)
    requires b.questions.None?
    ensures EveryQuestionAnswered(b) && RefinementIssue !in Issues(b)
  {
  }

  /** End to end through validateRequest and errorMiddleware: a 101-character name
      with everything else in bounds answers 400 with exactly one formatted issue. */
  lemma LongNameAnswers400(b: PasswordBody)
    requires |b.name| == MaxNameLength + 1
    requires |b.password| <= MaxSecretLength && b.image.None? && b.questions.None?
    ensures Forwarded(Parse(b)) == Some(ValidationError(Some("name" + ": " + "Name must be at most 100 characters")))
    ensures ErrorResponse(Forwarded(Parse(b)).value) ==
            Response(BadRequest, ErrorBody("error", "name" + ": " + "Name must be at most 100 characters"))
  {
    var issue := Issue([Key("name")], "Name must be at most 100 characters");
    assert Issues(b) == [issue];
    FormatSingleIssue(issue);
    assert PathText([Key("name")]) == "name" by {
      assert seq(1, k requires 0 <= k < 1 => SegmentText([Key("name")][k])) == ["name"];
    }
  }

  /** An over-long answer of an entry is reported under the entry's dotted path. */
  lemma LongAnswerMessage(q: QuestionAnswer, k: nat)
    requires |q.question| <= MaxQuestionLength && |q.answer| > MaxAnswerLength
    ensures QuestionAnswerIssues(q, k) == [Issue([Key("questions"), Index(k), Key("answer")], "Answer must be at most 256 characters")]
    ensures FormatIssue(QuestionAnswerIssues(q, k)[0]) ==
            "questions" + "." + Text.NatToString(k) + "." + "answer" + ": " + "Answer must be at most 256 characters"
  {
    PathOfKeyIndexKey("questions", k, "answer");
  }
}
