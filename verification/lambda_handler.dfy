/** `SummarizeLambdaHandler`: validates the request, logs it, routes it by
    method and path, extracts the `text` field of its JSON body, asks the
    language-model service with the route's own prompt, and turns every
    exception into the error handler's 500 response. The service and the
    JSON deserializer are parameters. */
module LambdaHandler {
  import opened Options
  import opened DotNet
  import ErrorHandler

  /** What `IOpenAiService.CallOpenAiAsync(text, context, prompt)` does: return
      a (possibly null) string, or throw. */
  datatype ServiceOutcome = Answered(answer: Option<string>) | Failed(ex: Exception)

  datatype Service = Service(call: (string, string) -> ServiceOutcome)

  /** A request to the service: the text and the prompt. */
  datatype ServiceCall = ServiceCall(text: string, prompt: string)

  datatype Handler = Handler(service: Service)

  /** `new SummarizeLambdaHandler(openAiService)`. */
  function NewHandler(service: Option<Service>): (r: Outcome<Handler>)
    ensures r.Threw? <==> service.None?
    ensures r.Threw? ==> r.ex == ArgumentNullFor("openAiService")
    ensures r.Returned? ==> r.value.service == service.value
  {
    if service.None? then Threw(ArgumentNullFor("openAiService")) else Returned(Handler(service.value))
  }

  // ---------------------------------------------------------------------
  // Text extraction

  /** What `JsonConvert.DeserializeObject<dynamic>(body)?.text?.ToString()`
      makes of a non-null body: a `JsonReaderException`, another exception
      while reading the member, or the (possibly null) text. */
  datatype Deserialized = JsonReaderError | MemberError(ex: Exception) | TextField(text: Option<string>)

  const InvalidJsonMessage := "Invalid JSON format"
  const MissingTextMessage := "Text parameter is missing"

  /** The result of `TryExtractText`: the text, an error message for a 400,
      or an exception it does not catch. */
  datatype Extraction = TextOk(text: string) | ExtractError(message: string) | ExtractThrew(ex: Exception)

  /** `TryExtractText(request, out text, out errorMessage)`. A null body
      makes the deserializer throw `ArgumentNullException`, which is not a
      `JsonReaderException` and escapes. */
  function TryExtractText(body: Option<string>, deserialize: string -> Deserialized): (r: Extraction)
    ensures r.TextOk? ==> body.Some? && deserialize(body.value) == TextField(Some(r.text)) && !IsNullOrWhiteSpace(Some(r.text))
    ensures r == ExtractError(InvalidJsonMessage) <==> body.Some? && deserialize(body.value) == JsonReaderError
    ensures r == ExtractError(MissingTextMessage) <==>
      body.Some? && deserialize(body.value).TextField? && IsNullOrWhiteSpace(deserialize(body.value).text)
    ensures r.ExtractError? ==> r.message == InvalidJsonMessage || r.message == MissingTextMessage
  {
    if body.None? then ExtractThrew(ArgumentNullFor("value"))
    else match deserialize(body.value)
      case JsonReaderError => ExtractError(InvalidJsonMessage)
      case MemberError(ex) => ExtractThrew(ex)
      case TextField(text) =>
        if IsNullOrWhiteSpace(text) then ExtractError(MissingTextMessage) else TextOk(text.value)
  }

  // ---------------------------------------------------------------------
  // Routes

  datatype Route = SummaryRoute | KeyHighlightsRoute | ImportantWordsRoute

  /** The `switch` on `request.Path`. */
  function RouteOf(path: Option<string>): (r: Option<Route>)
    ensures r == Some(SummaryRoute) <==> path == Some("/summary")
    ensures r == Some(KeyHighlightsRoute) <==> path == Some("/key-highlights")
    ensures r == Some(ImportantWordsRoute) <==> path == Some("/important-words")
  {
    if path == Some("/summary") then Some(SummaryRoute)
    else if path == Some("/key-highlights") then Some(KeyHighlightsRoute)
    else if path == Some("/important-words") then Some(ImportantWordsRoute)
    else None
  }

  const SummaryPrompt := "Summarize the given text in a concise manner."
  const KeyHighlightsPrompt := "Extract key highlights from the given text. Return only the bullet points without any additional text or context."
  const ImportantWordsPrompt := "Extract the most important words or phrases from the given text that are central to the main topics. Return only the words or phrases starting with a capital letter, separated by commas, without any additional text."

  function Prompt(route: Route): string {
    match route
    case SummaryRoute => SummaryPrompt
    case KeyHighlightsRoute => KeyHighlightsPrompt
    case ImportantWordsRoute => ImportantWordsPrompt
  }

  /** The property name of a route's 200 body. */
  function FieldName(route: Route): string {
    match route
    case SummaryRoute => "summary"
    case KeyHighlightsRoute => "keyHighlights"
    case ImportantWordsRoute => "importantWords"
  }

  const EmptyResponseMessage := "Empty response from service"

  /** `Utilities.CreateResponse(statusCode, body)`: no headers. */
  function CreateResponse(statusCode: int, body: ResponseBody): Response {
    Response(statusCode, body, None)
  }

  /** The try block of `HandleAsync`, up to where it returns or throws: the
      outcome, the lines logged and the service calls made. */
  datatype Attempt = Attempt(outcome: Outcome<Response>, log: seq<string>, calls: seq<ServiceCall>)

  /** A route handler (`HandleSummaryAsync` and its two siblings): extract
      the text, call the service with the route's prompt, and answer.
      Only the summary route rejects an empty answer. */
  function HandleRoute(h: Handler, route: Route, body: Option<string>, deserialize: string -> Deserialized): (r: Attempt)
    ensures r.log == []
    ensures |r.calls| <= 1
    ensures r.calls != [] <==> TryExtractText(body, deserialize).TextOk?
    ensures r.calls != [] ==> r.calls == [ServiceCall(TryExtractText(body, deserialize).text, Prompt(route))]
  {
    match TryExtractText(body, deserialize)
    case ExtractThrew(ex) => Attempt(Threw(ex), [], [])
    case ExtractError(message) => Attempt(Returned(CreateResponse(400, Text(message))), [], [])
    case TextOk(text) =>
      var calls := [ServiceCall(text, Prompt(route))];
      match h.service.call(text, Prompt(route))
      case Failed(ex) => Attempt(Threw(ex), [], calls)
      case Answered(answer) =>
        if route == SummaryRoute && IsNullOrWhiteSpace(answer) then
          Attempt(Returned(CreateResponse(400, Text(EmptyResponseMessage))), [], calls)
        else
          Attempt(Returned(CreateResponse(200, Field(FieldName(route), answer))), [], calls)
  }

  /** `$"...{x}"` with a possibly null `x`: null prints as nothing. */
  function Interpolate(prefix: string, x: Option<string>): string {
    if x.None? then prefix else prefix + x.value
  }

  /** The try block of `HandleAsync`. */
  function Try(h: Handler, request: Option<Request>, context: Option<Context>, deserialize: string -> Deserialized): (r: Attempt)
    ensures request.None? ==> r == Attempt(Threw(ArgumentNullFor("request")), [], [])
    ensures request.Some? && context.None? ==> r == Attempt(Threw(ArgumentNullFor("context")), [], [])
  {
    if request.None? then Attempt(Threw(ArgumentNullFor("request")), [], [])
    else if context.None? then Attempt(Threw(ArgumentNullFor("context")), [], [])
    else
      var req := request.value;
      var logger := context.value.logger;
      match LogLine(logger, Interpolate("Request Path: ", req.path))
      case Threw(ex) => Attempt(Threw(ex), [], [])
      case Returned(log1) =>
        match LogLine(logger, Interpolate("Request Body: ", req.body))
        case Threw(ex) => Attempt(Threw(ex), log1, [])
        case Returned(log2) =>
          if req.httpMethod != Some("POST") then
            Attempt(Returned(CreateResponse(405, Text("Method Not Allowed"))), log1 + log2, [])
          else match RouteOf(req.path)
            case None => Attempt(Returned(CreateResponse(404, Text("Not Found"))), log1 + log2, [])
            case Some(route) =>
              var a := HandleRoute(h, route, req.body, deserialize);
              a.(log := log1 + log2 + a.log)
  }

  /** The response `HandleAsync` returns, with the lines logged and the
      service calls made on the way. */
  datatype Invocation = Invocation(response: Response, log: seq<string>, calls: seq<ServiceCall>)

  /** `HandleAsync(request, context)`: every exception of the try block
      becomes the error handler's response, so it never throws. */
  function HandleAsync(h: Handler, request: Option<Request>, context: Option<Context>, deserialize: string -> Deserialized): (r: Invocation)
    ensures r.calls == Try(h, request, context, deserialize).calls
    ensures Try(h, request, context, deserialize).outcome.Returned? ==> r.response == Try(h, request, context, deserialize).outcome.value
    ensures Try(h, request, context, deserialize).outcome.Threw? ==>
      r.response == Response(500, Message(ErrorHandler.InternalServerError), None)
  {
    var a := Try(h, request, context, deserialize);
    match a.outcome
    case Returned(response) => Invocation(response, a.log, a.calls)
    case Threw(ex) =>
      var handled := ErrorHandler.HandleException(ex, context);
      Invocation(handled.response, a.log + handled.log, a.calls)
  }
}
