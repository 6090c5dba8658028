/** The backend's responses as the extension receives them: Newtonsoft's
    JSON for each response body, and the API Gateway response delivered as
    an HTTP reply. The envelope nests a whole response, whose `body` is
    itself JSON text: the double encoding the extension unwraps. */
module Wire {
  import opened Options
  import opened JsValues
  import opened DotNet
  import Background
  import ErrorHandler
  import LambdaHandler

  /** `JsonConvert.SerializeObject(body)`, as the JSON value the text
      denotes. A null string property serializes as `null`. */
  function BodyJson(b: ResponseBody): (j: Json)
    ensures b.Text? <==> j.JString?
    ensures !b.Text? ==> j.JObject?
    decreases b
  {
    match b
    case Text(t) => JString(t)
    case Field(name, v) => JObject(map[name := if v.None? then JNull else JString(v.value)])
    case Message(m) => JObject(map["message" := JString(m)])
    case Failure(m, e) => JObject(map["message" := JString(m), "error" := JString(e)])
    case Envelope(inner) => JObject(map["summary" := ResponseJson(inner)])
  }

  /** A serialized `APIGatewayProxyResponse`, under the property names its
      data-contract attributes give; `body` holds the JSON text of the
      body. Numbers and booleans keep only their truthiness. */
  function ResponseJson(r: Response): (j: Json)
    ensures j.JObject? && "body" in j.fields && j.fields["body"] == JEncoded(BodyJson(r.body))
    decreases r
  {
    JObject(map[
      "statusCode" := JOther(r.statusCode != 0),
      "headers" := (if r.headers.None? then JNull else JObject(map k | k in r.headers.value :: JString(r.headers.value[k]))),
      "multiValueHeaders" := JNull,
      "body" := JEncoded(BodyJson(r.body)),
      "isBase64Encoded" := JOther(false)])
  }

  /** The HTTP reply API Gateway delivers for a Lambda response. Its
      `statusText` is left empty: the extension reads it only for a non-ok
      reply, and the entry point always answers 200. */
  function Delivered(r: Response): (o: Background.HttpOutcome)
    ensures o.HttpReply? && o.status == r.statusCode
    ensures o.payload == Background.JsonBody(BodyJson(r.body))
  {
    Background.HttpReply(r.statusCode, "", Background.JsonBody(BodyJson(r.body)))
  }

  /** The error handler's response reaches the client with its status, no
      headers, and the body `{"message": <message>}`. */
  lemma ErrorResponseOnTheWire(statusCode: int, message: string)
    ensures var r := ErrorHandler.CreateResponse(statusCode, message);
      && Delivered(r) == Background.HttpReply(statusCode, "", Background.JsonBody(JObject(map["message" := JString(message)])))
      && ResponseJson(r).fields["headers"] == JNull
  {
  }

  /** A route handler's response reaches the client with its status, no
      headers, and the serialization of the body object. */
  lemma HandlerResponseOnTheWire(statusCode: int, body: ResponseBody)
    ensures var r := LambdaHandler.CreateResponse(statusCode, body);
      && Delivered(r) == Background.HttpReply(statusCode, "", Background.JsonBody(BodyJson(body)))
      && ResponseJson(r).fields["headers"] == JNull
  {
  }
}
