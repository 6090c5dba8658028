/** Properties of the backend: the routing decision table of `HandleAsync`,
    the fixed prompts, the error handler's fixed answer, and the entry
    point's envelope. */
module LambdaProofs {
  import opened Options
  import opened DotNet
  import opened LambdaHandler
  import opened EntryPoint
  import ErrorHandler

  /** The request and context pass validation and both log lines can be
      written. */
  predicate Admitted(request: Option<Request>, context: Option<Context>) {
    request.Some? && context.Some? && (context.value.logger.None? || context.value.logger.value.fails.None?)
  }

  const InternalError := Response(500, Message(ErrorHandler.InternalServerError), None)

  /** A null request or context, or a logger that throws, ends in the error
      handler's 500 before any routing or service call. */
  lemma RejectedBeforeRouting(h: Handler, request: Option<Request>, context: Option<Context>, deserialize: string -> Deserialized)
    requires !Admitted(request, context)
    ensures HandleAsync(h, request, context, deserialize).response == InternalError
    ensures HandleAsync(h, request, context, deserialize).calls == []
  {
  }

  /** The method is checked before the path: any method but `POST`, on any
      path, is 405 "Method Not Allowed"; the request is still logged. */
  lemma MethodCheckedBeforePath(h: Handler, request: Option<Request>, context: Option<Context>, deserialize: string -> Deserialized)
    requires Admitted(request, context) && request.value.httpMethod != Some("POST")
    ensures var r := HandleAsync(h, request, context, deserialize);
      && r.response == Response(405, Text("Method Not Allowed"), None)
      && r.calls == []
      && (context.value.logger.Some? ==>
            r.log == [Interpolate("Request Path: ", request.value.path), Interpolate("Request Body: ", request.value.body)])
  {
  }

  /** A `POST` to any other path is 404 "Not Found" without a service
      call. */
  lemma UnknownPathIsNotFound(h: Handler, request: Option<Request>, context: Option<Context>, deserialize: string -> Deserialized)
    requires Admitted(request, context) && request.value.httpMethod == Some("POST")
    requires RouteOf(request.value.path).None?
    ensures HandleAsync(h, request, context, deserialize).response == Response(404, Text("Not Found"), None)
    ensures HandleAsync(h, request, context, deserialize).calls == []
  {
  }

  /** On a route, a body that is not JSON is 400 "Invalid JSON format" and a
      missing or blank `text` is 400 "Text parameter is missing", both
      without a service call; a null body, or an error while reading the
      member, is the error handler's 500. */
  lemma ExtractionFailuresSkipService(h: Handler, request: Option<Request>, context: Option<Context>, deserialize: string -> Deserialized)
    requires Admitted(request, context) && request.value.httpMethod == Some("POST")
    requires RouteOf(request.value.path).Some?
    requires !TryExtractText(request.value.body, deserialize).TextOk?
    ensures var r := HandleAsync(h, request, context, deserialize);
      var x := TryExtractText(request.value.body, deserialize);
      && r.calls == []
      && (x.ExtractError? ==> r.response == Response(400, Text(x.message), None))
      && (x.ExtractThrew? ==> r.response == InternalError)
      && (request.value.body.Some? && deserialize(request.value.body.value) == JsonReaderError ==>
            r.response == Response(400, Text(InvalidJsonMessage), None))
      && (request.value.body.Some? && deserialize(request.value.body.value) == TextField(None) ==>
            r.response == Response(400, Text(MissingTextMessage), None))
  {
  }

  /** With text in hand, a route calls the service exactly once, with its
      own prompt. A service exception is the error handler's 500; a blank or
      null answer is 400 "Empty response from service" on `/summary` only;
      otherwise the answer comes back as 200 under the route's field name. */
  lemma RouteAnswers(h: Handler, request: Option<Request>, context: Option<Context>, deserialize: string -> Deserialized)
    requires Admitted(request, context) && request.value.httpMethod == Some("POST")
    requires RouteOf(request.value.path).Some?
    requires TryExtractText(request.value.body, deserialize).TextOk?
    ensures var r := HandleAsync(h, request, context, deserialize);
      var route := RouteOf(request.value.path).value;
      var text := TryExtractText(request.value.body, deserialize).text;
      var answer := h.service.call(text, Prompt(route));
      && r.calls == [ServiceCall(text, Prompt(route))]
      && (answer.Failed? ==> r.response == InternalError)
      && (answer.Answered? && route == SummaryRoute && IsNullOrWhiteSpace(answer.answer) ==>
            r.response == Response(400, Text(EmptyResponseMessage), None))
      && (answer.Answered? && (route != SummaryRoute || !IsNullOrWhiteSpace(answer.answer)) ==>
            r.response == Response(200, Field(FieldName(route), answer.answer), None))
  {
  }

  /** The three prompts are distinct, so a service call tells which route
      made it. */
  lemma PromptsIdentifyRoutes(a: Route, b: Route)
    ensures Prompt(a) == Prompt(b) <==> a == b
  {
    if a != b {
      assert Prompt(a)[0..9] != Prompt(b)[0..9] || |Prompt(a)| != |Prompt(b)|;
    }
  }

  /** Whatever happens, the response is one of five statuses, carries no
      headers, and never contains an exception's message: its body is one of
      the fixed texts, a route's answer, or the fixed error message. */
  lemma ResponseShape(h: Handler, request: Option<Request>, context: Option<Context>, deserialize: string -> Deserialized)
    ensures var r := HandleAsync(h, request, context, deserialize).response;
      && r.statusCode in {200, 400, 404, 405, 500}
      && r.headers == None
      && (r.body.Text? ==> r.body.text in {"Method Not Allowed", "Not Found", InvalidJsonMessage, MissingTextMessage, EmptyResponseMessage})
      && (r.body.Message? ==> r.body.message == ErrorHandler.InternalServerError && r.statusCode == 500)
      && (r.body.Field? ==> r.statusCode == 200 && r.body.name in {"summary", "keyHighlights", "importantWords"})
      && !r.body.Failure? && !r.body.Envelope?
  {
  }

  // ---------------------------------------------------------------------
  // The error handler

  /** The error handler's response depends neither on the exception nor on
      the context; the exception's message reaches the log, and only when
      the logger works. */
  lemma ErrorResponseIsFixed(ex1: Exception, ex2: Exception, c1: Option<Context>, c2: Option<Context>)
    ensures ErrorHandler.HandleException(ex1, c1).response == ErrorHandler.HandleException(ex2, c2).response
    ensures ErrorHandler.HandleException(ex1, c1).response == InternalError
    ensures c1.Some? && c1.value.logger.Some? && c1.value.logger.value.fails.Some? ==> ErrorHandler.HandleException(ex1, c1).log == []
    ensures c1 == Some(Context(Some(Logger(None)))) ==> ErrorHandler.HandleException(ex1, c1).log == ["Exception occurred: " + ex1.message]
  {
  }

  // ---------------------------------------------------------------------
  // The entry point

  /** Whatever the handler answers, the entry point answers 200 with that
      response as `summary` and a JSON content type: a 404, 405 or 500 of
      the handler still leaves as an outer 200. */
  lemma EnvelopeIsAlways200(e: Entry, request: Option<Request>, context: Option<Context>, deserialize: string -> Deserialized)
    requires e.handler.Some?
    ensures var inner := HandleAsync(e.handler.value, request, context, deserialize);
      FunctionHandler(e, request, context, deserialize)
        == Returned(Invocation(Response(200, Envelope(inner.response), Some(JsonHeaders)), inner.log, inner.calls))
  {
  }

  /** An entry point made by the provider constructor always holds a
      handler, so every invocation returns an outer 200. */
  lemma ConstructedEntryAlwaysAnswers200(provider: Option<Provider>, request: Option<Request>, context: Option<Context>, deserialize: string -> Deserialized)
    requires NewEntryPoint(provider).Returned?
    ensures var r := FunctionHandler(NewEntryPoint(provider).value, request, context, deserialize);
      r.Returned? && r.value.response.statusCode == 200 && r.value.response.body.Envelope?
  {
  }

  /** Were the handler field null, the `catch` branch would answer 500 with
      the exception's message in the body, unlike the error handler; and
      with a null context or logger its own `LogError` call would throw. */
  lemma CatchBranchExposesMessage(request: Option<Request>, context: Option<Context>, deserialize: string -> Deserialized)
    ensures var r := FunctionHandler(Entry(None), request, context, deserialize);
      && (context == Some(Context(Some(Logger(None)))) ==>
            r == Returned(Invocation(Response(500, Failure(InternalErrorMessage, NullDereference.message), Some(JsonHeaders)),
                                     ["Error: " + NullDereference.message], [])))
      && (context.None? || context.value.logger.None? ==> r == Threw(NullDereference))
  {
  }
}
