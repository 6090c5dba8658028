/** `LambdaEntryPoint`: obtains the handler from the service provider and
    wraps whatever it answers in a 200 envelope with a JSON content type. */
module EntryPoint {
  import opened Options
  import opened DotNet
  import opened LambdaHandler

  /** An `IServiceProvider`, by what `GetService<SummarizeLambdaHandler>()`
      returns. */
  datatype Provider = Provider(registered: Option<Handler>)

  /** The entry point, by the handler field it holds. */
  datatype Entry = Entry(handler: Option<Handler>)

  const NotRegisteredMessage := "SummarizeLambdaHandler service is not registered."

  /** `new LambdaEntryPoint(serviceProvider)`. */
  function NewEntryPoint(provider: Option<Provider>): (r: Outcome<Entry>)
    ensures r.Returned? <==> provider.Some? && provider.value.registered.Some?
    ensures r.Returned? ==> r.value.handler == provider.value.registered
    ensures provider.None? ==> r == Threw(ArgumentNullFor("serviceProvider"))
    ensures provider.Some? && provider.value.registered.None? ==> r == Threw(Exception(InvalidOperation, NotRegisteredMessage))
  {
    if provider.None? then Threw(ArgumentNullFor("serviceProvider"))
    else if provider.value.registered.None? then Threw(Exception(InvalidOperation, NotRegisteredMessage))
    else Returned(Entry(provider.value.registered))
  }

  const InternalErrorMessage := "Internal server error"

  /** `FunctionHandler(request, context)`: the response with the lines
      logged and the service calls made, or the exception that escapes.
      `HandleAsync` itself never throws, so the `catch` branch runs only
      when the handler field is null; there `context.Logger.LogError`
      dereferences the context and its logger without a null check. */
  function FunctionHandler(e: Entry, request: Option<Request>, context: Option<Context>, deserialize: string -> Deserialized): (r: Outcome<Invocation>)
    ensures e.handler.Some? ==> r.Returned? && r.value.response.statusCode == 200
    ensures r.Returned? ==> r.value.response.headers == Some(JsonHeaders)
  {
    match e.handler
    case Some(h) =>
      var inner := HandleAsync(h, request, context, deserialize);
      Returned(Invocation(Response(200, Envelope(inner.response), Some(JsonHeaders)), inner.log, inner.calls))
    case None =>
      var ex := NullDereference;
      if context.None? || context.value.logger.None? then Threw(NullDereference)
      else match context.value.logger.value.fails
        case Some(logFailure) => Threw(logFailure)
        case None =>
          Returned(Invocation(Response(500, Failure(InternalErrorMessage, ex.message), Some(JsonHeaders)), ["Error: " + ex.message], []))
  }
}
