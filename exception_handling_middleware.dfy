/**
 * ExceptionHandlingMiddleware: runs the rest of the pipeline and turns any
 * exception it throws into a JSON error response whose status depends on the
 * exception's kind.
 */
module ExceptionHandling {
  import opened Wrappers
  import opened Exceptions
  import opened Dto
  import opened Http

  // HttpStatusCode values.
  const BadRequestStatus: int := 400
  const UnauthorizedStatus: int := 401
  const ForbiddenStatus: int := 403
  const NotFoundStatus: int := 404
  const ConflictStatus: int := 409
  const InternalServerErrorStatus: int := 500

  /** Whether the exception is one of the six application exception classes. */
  predicate IsApplicationException(e: Exception) {
    e.NotFoundException? || e.UnauthorizedException? || e.BadRequestException?
    || e.ForbiddenException? || e.ConflictException? || e.InternalServerException?
  }

  /**
   * The status-code switch: one status per application exception class, and
   * 500 for InternalServerException and for every other exception.
   */
  function StatusCodeFor(e: Exception): (code: int)
    ensures code == NotFoundStatus <==> e.NotFoundException?
    ensures code == UnauthorizedStatus <==> e.UnauthorizedException?
    ensures code == BadRequestStatus <==> e.BadRequestException?
    ensures code == ForbiddenStatus <==> e.ForbiddenException?
    ensures code == ConflictStatus <==> e.ConflictException?
    ensures code == InternalServerErrorStatus <==> e.InternalServerException? || !IsApplicationException(e)
    ensures code in {BadRequestStatus, UnauthorizedStatus, ForbiddenStatus, NotFoundStatus, ConflictStatus, InternalServerErrorStatus}
  {
    match e
    case NotFoundException(_) => NotFoundStatus
    case UnauthorizedException(_) => UnauthorizedStatus
    case BadRequestException(_) => BadRequestStatus
    case ForbiddenException(_) => ForbiddenStatus
    case ConflictException(_) => ConflictStatus
    case InternalServerException(_) => InternalServerErrorStatus
    case _ => InternalServerErrorStatus
  }

  /** The response HandleExceptionAsync leaves: JSON content type, the status, and the error body appended. */
  function HandledResponse(response: Response, e: Exception): Response {
    var statusCode := StatusCodeFor(e);
    Response(statusCode, Some(JsonContentType), response.body + [ErrorJson(ErrorResponse(statusCode, Message(e)))])
  }

  /**
   * The error body agrees with the response: its StatusCode is the status
   * set, its Message is the exception's message (verbatim for the
   * application exceptions), and the content type is application/json.
   */
  lemma HandledResponseReportsException(response: Response, e: Exception)
    ensures var r := HandledResponse(response, e);
      && r.contentType == Some(JsonContentType)
      && |r.body| == |response.body| + 1
      && r.body[..|response.body|] == response.body
      && r.body[|response.body|] == ErrorJson(ErrorResponse(r.statusCode, Message(e)))
      && r.statusCode == StatusCodeFor(e)
    ensures IsApplicationException(e) ==> Message(e) == e.message
  {
    var r := HandledResponse(response, e);
    assert r.body[..|response.body|] == response.body;
  }

  /** The rest of the pipeline: the response it leaves, and whether it threw. */
  type NextStage = Response -> (Response, PipelineOutcome)

  class ExceptionHandlingMiddleware {
    const next: NextStage

    constructor (next: NextStage)
      ensures this.next == next
    {
      this.next := next;
    }

    /** InvokeAsync: run the next stage; whatever it throws is caught and answered as an error response. */
    method InvokeAsync(context: HttpContext) returns (outcome: PipelineOutcome)
      modifies context
      ensures outcome == Completed
      ensures var (after, thrown) := next(old(context.response));
        context.response == (if thrown.Propagated? then HandledResponse(after, thrown.exception) else after)
      ensures context.nextCalled
    {
      context.nextCalled := true;
      var (after, thrown) := next(context.response);
      context.response := after;
      if thrown.Propagated? {
        HandleExceptionAsync(context, thrown.exception);
      }
      outcome := Completed;
    }

    /** HandleExceptionAsync: set the content type and status, then write the serialised ErrorResponse. */
    static method HandleExceptionAsync(context: HttpContext, exception: Exception)
      modifies context
      ensures context.response == HandledResponse(old(context.response), exception)
      ensures context.nextCalled == old(context.nextCalled)
    {
      var statusCode := StatusCodeFor(exception);
      var error := ErrorResponse(statusCode, Message(exception));
      context.response := context.response.(contentType := Some(JsonContentType));
      context.response := context.response.(statusCode := statusCode);
      context.response := context.response.(body := context.response.body + [ErrorJson(error)]);
    }
  }
}
