/** The backend's last-resort error handler: log the exception if possible
    and answer 500 with a fixed message. */
module ErrorHandler {
  import opened Options
  import opened DotNet

  const InternalServerError := "Internal Server Error"

  /** A response and the log lines written while producing it. */
  datatype Logged = Logged(response: Response, log: seq<string>)

  /** `LogException(context, ex)`: write the exception's message; a null
      context or logger writes nothing, and a logger that throws is
      ignored. */
  function LogException(context: Option<Context>, ex: Exception): (log: seq<string>)
    ensures log == [] || log == ["Exception occurred: " + ex.message]
    ensures context.Some? && context.value.logger == Some(Logger(None)) ==> log == ["Exception occurred: " + ex.message]
  {
    if context.None? then []   // the NullReferenceException is caught and ignored
    else match LogLine(context.value.logger, "Exception occurred: " + ex.message)
      case Threw(_) => []
      case Returned(lines) => lines
  }

  /** `ErrorHandler.CreateResponse(statusCode, message)`: `{ message }` with
      no headers. */
  function CreateResponse(statusCode: int, message: string): Response {
    Response(statusCode, Message(message), None)
  }

  /** `HandleException(ex, context)`. It never throws. */
  function HandleException(ex: Exception, context: Option<Context>): (r: Logged)
    ensures r.response.statusCode == 500
    ensures r.response.body == Message(InternalServerError)
    ensures r.log == LogException(context, ex)
  {
    Logged(CreateResponse(500, InternalServerError), LogException(context, ex))
  }
}
