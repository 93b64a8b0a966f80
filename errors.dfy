/** The error taxonomy of the backend, the request validator that turns schema
    failures into a ValidationError, and the final error handler that turns any
    error into an HTTP status and a JSON body (backend/src/middleware/error-middleware.ts). */
module Errors {
  import opened Wrappers
  import Text

  /** The statuses the core uses, by their StatusCodes names. The numbers are the
      standard ones of RFC 9110 section 15; the constants file itself is not part
      of this model. */
  datatype Status = BadRequest | Unauthorized | NotFound | InternalServerError

  function Code(s: Status): (c: nat)
    ensures 400 <= c < 600
  {
    match s
    case BadRequest => 400
    case Unauthorized => 401
    case NotFound => 404
    case InternalServerError => 500
  }

  /** AppError and its three subclasses. */
  datatype ErrorClass = Base | NotFoundClass | ValidationClass | UnauthorizedClass

  /** One segment of a schema issue's path: an object key or an array index. */
  datatype PathSegment = Key(key: string) | Index(index: nat)

  /** One issue reported by the schema library. */
  datatype Issue = Issue(path: seq<PathSegment>, message: string)

  /** Everything a handler can pass to `next` or throw: an AppError (of some class,
      with its own message and status), the schema library's error, or any other
      error (a crypto failure, a TypeError, ...). */
  datatype Error =
    | AppError(cls: ErrorClass, message: string, statusCode: Status)
    | ZodError(issues: seq<Issue>)
    | OtherError(message: string)

  /** `new AppError(message, statusCode)`. */
  function NewAppError(message: string, statusCode: Status): (e: Error)
    ensures e.AppError? && e.cls == Base
  {
    AppError(Base, message, statusCode)
  }

  /** `new NotFoundError(message?)`: NOT_FOUND with "Resource Not Found" by default. */
  function NotFoundError(message: Option<string>): (e: Error)
    ensures e.AppError? && e.cls == NotFoundClass && e.statusCode == NotFound
    ensures e.message == if message.Some? then message.value else "Resource Not Found"
  {
    AppError(NotFoundClass, message.GetOr("Resource Not Found"), NotFound)
  }

  /** `new ValidationError(message?)`: BAD_REQUEST with "Invalid Input" by default. */
  function ValidationError(message: Option<string>): (e: Error)
    ensures e.AppError? && e.cls == ValidationClass && e.statusCode == BadRequest
    ensures e.message == if message.Some? then message.value else "Invalid Input"
  {
    AppError(ValidationClass, message.GetOr("Invalid Input"), BadRequest)
  }

  /** `new UnauthorizedError(message?)`: UNAUTHORIZED with "Unauthorized Access" by default. */
  function UnauthorizedError(message: Option<string>): (e: Error)
    ensures e.AppError? && e.cls == UnauthorizedClass && e.statusCode == Unauthorized
    ensures e.message == if message.Some? then message.value else "Unauthorized Access"
  {
    AppError(UnauthorizedClass, message.GetOr("Unauthorized Access"), Unauthorized)
  }

  // ---------------------------------------------------------------------------
  // validateRequest: message construction
  // ---------------------------------------------------------------------------

  /** A path segment as `Array.prototype.join` renders it: keys as they are,
      indices in decimal. */
  function SegmentText(s: PathSegment): string {
    match s
    case Key(k) => k
    case Index(i) => Text.NatToString(i)
  }

  function PathText(path: seq<PathSegment>): string {
    Text.Join(".", seq(|path|, k requires 0 <= k < |path| => SegmentText(path[k])))
  }

  /** `${e.path.join(".")}: ${e.message}` */
  function FormatIssue(issue: Issue): string {
    PathText(issue.path) + ": " + issue.message
  }

  function FormattedIssues(issues: seq<Issue>): seq<string> {
    seq(|issues|, k requires 0 <= k < |issues| => FormatIssue(issues[k]))
  }

  /** The message of the ValidationError built from a schema failure. */
  function FormatIssues(issues: seq<Issue>): string {
    Text.Join(", ", FormattedIssues(issues))
  }

  /** One issue is rendered without any separator. */
  lemma FormatSingleIssue(issue: Issue)
    ensures FormatIssues([issue]) == PathText(issue.path) + ": " + issue.message
  {
    assert FormattedIssues([issue]) == [FormatIssue(issue)];
  }

  /** Issues are rendered in their order, each further one after ", ". */
  lemma FormatIssuesSnoc(issues: seq<Issue>, last: Issue)
    requires issues != []
    ensures FormatIssues(issues + [last]) == FormatIssues(issues) + ", " + FormatIssue(last)
  {
    assert FormattedIssues(issues + [last]) == FormattedIssues(issues) + [FormatIssue(last)];
    Text.JoinSnoc(", ", FormattedIssues(issues), FormatIssue(last));
  }

  /** A nested path renders its segments joined by dots. */
  lemma PathOfKeyIndexKey(a: string, i: nat, b: string)
    ensures PathText([Key(a), Index(i), Key(b)]) == a + "." + Text.NatToString(i) + "." + b
  {
    var parts := seq(3, k requires 0 <= k < 3 => SegmentText([Key(a), Index(i), Key(b)][k]));
    var n := Text.NatToString(i);
    assert parts == [a, n, b];
    assert parts[1..] == [n, b] && [n, b][1..] == [b];
    assert Text.Join(".", [n, b]) == n + "." + b;
  }

  // ---------------------------------------------------------------------------
  // The (req, res, next) exchange seen by a middleware
  // ---------------------------------------------------------------------------

  /** The JSON body every error response carries. */
  datatype ErrorBody = ErrorBody(status: string, message: string)

  datatype Response = Response(status: Status, body: ErrorBody)

  /** What a middleware did: every call of `next` (None for `next()`, Some(e) for
      `next(e)`) and the response it sent, if any. */
  class Exchange {
    var nextCalls: seq<Option<Error>>
    var response: Option<Response>

    constructor ()
      ensures nextCalls == [] && response == None
    {
      nextCalls := [];
      response := None;
    }
  }

  /** What `schema.parse(req.body)` did: returned, or threw an error. */
  datatype ParseOutcome = Parsed | Threw(error: Error)

  /** The argument validateRequest passes to `next`. */
  function Forwarded(outcome: ParseOutcome): (r: Option<Error>)
    ensures outcome.Parsed? <==> r.None?
    ensures outcome.Threw? && outcome.error.ZodError? ==>
      r == Some(ValidationError(Some(FormatIssues(outcome.error.issues))))
    ensures outcome.Threw? && !outcome.error.ZodError? ==> r == Some(outcome.error)
  {
    match outcome
    case Parsed => None
    case Threw(ZodError(issues)) => Some(ValidationError(Some(FormatIssues(issues))))
    case Threw(e) => Some(e)
  }

  /** validateRequest(schema): calls `next` exactly once and sends nothing. */
  method ValidateRequest(ex: Exchange, outcome: ParseOutcome)
    modifies ex
    ensures ex.nextCalls == old(ex.nextCalls) + [Forwarded(outcome)]
    ensures ex.response == old(ex.response)
  {
    var forwarded: Option<Error>;
    match outcome {
      case Parsed =>
        forwarded := None;
      case Threw(e) =>
        if e.ZodError? {
          var message := FormatIssues(e.issues);
          forwarded := Some(ValidationError(Some(message)));
        } else {
          forwarded := Some(e);
        }
    }
    ex.nextCalls := ex.nextCalls + [forwarded];
  }

  // ---------------------------------------------------------------------------
  // errorMiddleware
  // ---------------------------------------------------------------------------

  /** The response errorMiddleware sends for `err`. */
  function ErrorResponse(err: Error): (r: Response)
    ensures r.body.status == "error"
    ensures err.AppError? ==> r.status == err.statusCode && r.body.message == err.message
    ensures !err.AppError? ==> r.status == InternalServerError && r.body.message == "Internal Server Error"
  {
    if err.AppError? then Response(err.statusCode, ErrorBody("error", err.message))
    else Response(InternalServerError, ErrorBody("error", "Internal Server Error"))
  }

  method ErrorMiddleware(ex: Exchange, err: Error)
    modifies ex
    ensures ex.response == Some(ErrorResponse(err))
    ensures ex.nextCalls == old(ex.nextCalls)
  {
    if err.AppError? {
      ex.response := Some(Response(err.statusCode, ErrorBody("error", err.message)));
    } else {
      ex.response := Some(Response(InternalServerError, ErrorBody("error", "Internal Server Error")));
    }
  }

  /** Nothing of an error outside the AppError hierarchy reaches the client: any two
      such errors get the same response. */
  lemma OtherErrorsAreNotEchoed(e1: Error, e2: Error)
    requires !e1.AppError? && !e2.AppError?
    ensures ErrorResponse(e1) == ErrorResponse(e2)
    ensures ErrorResponse(e1) == Response(InternalServerError, ErrorBody("error", "Internal Server Error"))
  {
  }

  /** Each subclass reaches the client with its own status and, when no message was
      given, its default message. */
  lemma SubclassResponses()
    ensures ErrorResponse(NotFoundError(None)) == Response(NotFound, ErrorBody("error", "Resource Not Found"))
    ensures ErrorResponse(ValidationError(None)) == Response(BadRequest, ErrorBody("error", "Invalid Input"))
    ensures ErrorResponse(UnauthorizedError(None)) == Response(Unauthorized, ErrorBody("error", "Unauthorized Access"))
    ensures Code(ErrorResponse(NotFoundError(None)).status) == 404
    ensures Code(ErrorResponse(ValidationError(None)).status) == 400
    ensures Code(ErrorResponse(UnauthorizedError(None)).status) == 401
  {
  }

  /** A schema failure that reaches errorMiddleware through validateRequest answers
      400 with the formatted issues as its message. */
  lemma SchemaFailureAnswers400(issues: seq<Issue>)
    ensures var forwarded := Forwarded(Threw(ZodError(issues)));
      forwarded.Some? &&
      ErrorResponse(forwarded.value) == Response(BadRequest, ErrorBody("error", FormatIssues(issues)))
  {
  }
}
