/** The part of an ASP.NET Core HttpContext that the middlewares read and write. */
module Http {
  import opened Wrappers
  import Exceptions
  import Dto

  const Status401Unauthorized: int := 401
  const JsonContentType: string := "application/json"
  /** The content type HttpResponse.WriteAsJsonAsync sets when given none. */
  const JsonContentTypeWithCharset: string := "application/json; charset=utf-8"

  /** The values of the two request headers the core reads, in the order received. */
  datatype Request = Request(authorization: seq<string>, refreshToken: seq<string>)

  /** StringValues.FirstOrDefault(): the first value of a header, or null. */
  function FirstOrDefault(values: seq<string>): (r: Option<string>)
    ensures r.None? <==> values == []
    ensures r.Some? ==> r.value == values[0]
  {
    if values == [] then None else Some(values[0])
  }

  /** One write to the response body. */
  datatype Payload =
    | Text(text: string)                                   // HttpResponse.WriteAsync(string)
    | AuthenticationJson(auth: Dto.AuthenticationResponse)  // WriteAsJsonAsync(AuthenticationResponse)
    | ErrorJson(error: Dto.ErrorResponse)                   // WriteAsync(JsonSerializer.Serialize(ErrorResponse))

  datatype Response = Response(statusCode: int, contentType: Option<string>, body: seq<Payload>)

  /** HttpResponse.WriteAsync(text): appends to the body and leaves status and content type alone. */
  function WriteText(response: Response, text: string): (r: Response)
    ensures r.statusCode == response.statusCode && r.contentType == response.contentType
    ensures r.body == response.body + [Text(text)]
  {
    response.(body := response.body + [Text(text)])
  }

  /** HttpResponse.WriteAsJsonAsync(value): sets the JSON content type, then appends the value. */
  function WriteJson(response: Response, auth: Dto.AuthenticationResponse): (r: Response)
    ensures r.statusCode == response.statusCode && r.contentType == Some(JsonContentTypeWithCharset)
    ensures r.body == response.body + [AuthenticationJson(auth)]
  {
    Response(response.statusCode, Some(JsonContentTypeWithCharset), response.body + [AuthenticationJson(auth)])
  }

  /** How a pipeline stage ends: normally, or by letting an exception escape. */
  datatype PipelineOutcome = Completed | Propagated(exception: Exceptions.Exception)

  /**
   * The request, the response being built, and whether the stage handed the
   * context on to the next stage of the pipeline.
   */
  class HttpContext {
    const request: Request
    var response: Response
    var nextCalled: bool

    constructor (request: Request)
      ensures this.request == request
      ensures response == Response(200, None, []) && !nextCalled
    {
      this.request := request;
      response := Response(200, None, []);
      nextCalled := false;
    }
  }
}
