/** The pieces of .NET and of the Lambda runtime the backend relies on:
    exceptions, the optional logger of the Lambda context, the API Gateway
    request and response records, and `string.IsNullOrWhiteSpace`. */
module DotNet {
  import opened Options

  datatype ExceptionKind = ArgumentNull | InvalidOperation | NullReference | JsonReader | General

  datatype Exception = Exception(kind: ExceptionKind, message: string)

  /** A call that returns a value or throws. */
  datatype Outcome<+T> = Returned(value: T) | Threw(ex: Exception)

  /** `new ArgumentNullException(nameof(parameter))`. */
  function ArgumentNullFor(parameter: string): (e: Exception)
    ensures e.kind == ArgumentNull
  {
    Exception(ArgumentNull, "Value cannot be null. (Parameter '" + parameter + "')")
  }

  /** Dereferencing `null`. */
  const NullDereference := Exception(NullReference, "Object reference not set to an instance of an object.")

  /** An `ILambdaLogger`: one that works, or one whose every call throws
      `fails`. */
  datatype Logger = Logger(fails: Option<Exception>)

  /** An `ILambdaContext`, of which only the (possibly null) `Logger` is
      used. */
  datatype Context = Context(logger: Option<Logger>)

  /** `context.Logger?.LogLine(line)`: the lines written, or the logger's
      exception. A null logger writes nothing. */
  function LogLine(logger: Option<Logger>, line: string): (r: Outcome<seq<string>>)
    ensures r.Threw? <==> logger.Some? && logger.value.fails.Some?
    ensures r.Returned? ==> r.value == [] || r.value == [line]
    ensures logger.Some? && logger.value.fails.None? ==> r == Returned([line])
  {
    if logger.None? then Returned([])
    else match logger.value.fails
      case Some(ex) => Threw(ex)
      case None => Returned([line])
  }

  /** `char.IsWhiteSpace`: the Unicode space, line and paragraph separators
      and the control characters U+0009 to U+000D, U+0085 and U+00A0. */
  predicate IsWhiteSpace(c: char) {
    || ('\U{9}' <= c <= '\U{D}')
    || c == ' ' || c == '\U{85}' || c == '\U{A0}' || c == '\U{1680}'
    || ('\U{2000}' <= c <= '\U{200A}')
    || c == '\U{2028}' || c == '\U{2029}' || c == '\U{202F}' || c == '\U{205F}' || c == '\U{3000}'
  }

  /** `string.IsNullOrWhiteSpace(s)`. */
  predicate IsNullOrWhiteSpace(s: Option<string>) {
    s.None? || forall i | 0 <= i < |s.value| :: IsWhiteSpace(s.value[i])
  }

  /** An `APIGatewayProxyRequest`, of which the method, the path and the
      body are used; each may be null. */
  datatype Request = Request(httpMethod: Option<string>, path: Option<string>, body: Option<string>)

  /** A response body, by the object that was serialized into it. */
  datatype ResponseBody =
    | Text(text: string)                             // a bare string: `"Not Found"`
    | Field(name: string, value: Option<string>)     // `{ <name> = value }`
    | Message(message: string)                       // `{ message }`
    | Failure(message: string, error: string)        // `{ message, error }`
    | Envelope(inner: Response)                      // `{ summary = <response> }`

  /** An `APIGatewayProxyResponse`: status code, body and the (possibly
      null) header dictionary. */
  datatype Response = Response(statusCode: int, body: ResponseBody, headers: Option<map<string, string>>)

  const JsonHeaders := map["Content-Type" := "application/json"]
}
