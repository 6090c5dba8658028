/** How the three parts fit together: the entry point's envelope as the
    background worker unwraps it, what a backend error becomes in the tab,
    and what the worker's failure message becomes in the popup. */
module EndToEnd {
  import opened Options
  import opened JsValues
  import opened Formatter
  import opened ExtensionMessages
  import opened ContentScript
  import opened DotNet
  import opened LambdaHandler
  import opened EntryPoint
  import opened Wire
  import Background
  import ContentScriptProofs
  import BackgroundProofs
  import LambdaProofs

  /** The entry point's answer for an inner response. */
  function Outer(inner: Response): Response {
    Response(200, Envelope(inner), Some(JsonHeaders))
  }

  /** What the extension reads out of an enveloped response: the inner
      body's field when the inner response is a route's answer under that
      name (`null` for a null answer), and `undefined`, not an error, for a
      plain-string or `{ message }` body. */
  lemma UnwrapOfEnvelope(inner: Response, field: string, guarded: bool)
    requires field != "message"
    ensures var data := BodyJson(Envelope(inner));
      var r := Background.Unwrap(data, field, guarded);
      && Background.JsonOf(Delivered(Outer(inner)), field) == Normal(data)
      && r.Normal?
      && (inner.body == Field(field, None) ==> r == Normal(Null))
      && (inner.body.Field? && inner.body.name == field && inner.body.value.Some? ==> r == Normal(Str(inner.body.value.value)))
      && (inner.body.Field? && inner.body.name != field ==> r == Normal(Undefined))
      && (inner.body.Text? || inner.body.Message? ==> r == Normal(Undefined))
  {
    var data := BodyJson(Envelope(inner));
    var s := ResponseJson(inner);
    assert data.fields["summary"] == s;
    assert s.fields["body"] == JEncoded(BodyJson(inner.body));
  }

  /** A summary request that the backend answers with anything but 200
      (405, 404, 400 or its 500) still reaches the extension as an ok
      reply, and unwraps to an `undefined` summary rather than an error. */
  lemma BackendErrorsUnwrapToUndefined(h: Handler, request: Option<Request>, context: Option<Context>, deserialize: string -> Deserialized)
    ensures var inner := HandleAsync(h, request, context, deserialize).response;
      var outer := FunctionHandler(Entry(Some(h)), request, context, deserialize);
      && outer.Returned? && outer.value.response == Outer(inner)
      && (inner.statusCode != 200 ==>
            && Background.FetchSummary(Delivered(Outer(inner))) == Normal(Undefined)
            && Background.FetchKeyHighlights(Delivered(Outer(inner))) == Normal(Undefined)
            && Background.FetchImportantWords(Delivered(Outer(inner))) == Normal(Undefined))
  {
    var inner := HandleAsync(h, request, context, deserialize).response;
    LambdaProofs.ResponseShape(h, request, context, deserialize);
    LambdaProofs.EnvelopeIsAlways200(Entry(Some(h)), request, context, deserialize);
    if inner.statusCode != 200 {
      UnwrapOfEnvelope(inner, "summary", false);
      UnwrapOfEnvelope(inner, "keyHighlights", false);
      UnwrapOfEnvelope(inner, "importantWords", true);
    }
  }

  /** A summary the service produces for `/summary` arrives in the
      extension as that string. */
  lemma SummaryArrives(h: Handler, request: Request, context: Context, deserialize: string -> Deserialized)
    requires context.logger.None? || context.logger.value.fails.None?
    requires request.httpMethod == Some("POST") && request.path == Some("/summary")
    requires TryExtractText(request.body, deserialize).TextOk?
    requires var text := TryExtractText(request.body, deserialize).text;
      var a := h.service.call(text, SummaryPrompt);
      a.Answered? && !IsNullOrWhiteSpace(a.answer)
    ensures var text := TryExtractText(request.body, deserialize).text;
      var s := h.service.call(text, SummaryPrompt).answer.value;
      var outer := FunctionHandler(Entry(Some(h)), Some(request), Some(context), deserialize);
      outer.Returned? && Background.FetchSummary(Delivered(outer.value.response)) == Normal(Str(s))
  {
    var inner := HandleAsync(h, Some(request), Some(context), deserialize).response;
    LambdaProofs.RouteAnswers(h, Some(request), Some(context), deserialize);
    LambdaProofs.EnvelopeIsAlways200(Entry(Some(h)), Some(request), Some(context), deserialize);
    UnwrapOfEnvelope(inner, "summary", false);
  }

  /** When the backend fails the summary request but every call still
      reaches it, the run counts as a success: the tab is sent an
      `undefined` summary, which its listener ignores, so no popup appears
      and nothing tells the user; the stored summary is kept. */
  lemma BackendErrorShowsNoPopup(p: Page, job: Background.Job, st: Background.Storage, config: Background.HttpOutcome,
                                 summaryInner: Response, keyHighlights: Response, importantWords: Response, outcome: FetchOutcome)
    requires Valid(p)
    requires Background.Endpoint(config).Normal?
    requires summaryInner.body.Text? || summaryInner.body.Message?
    requires var i := Background.FetchImportantWords(Delivered(Outer(importantWords)));
      i.Normal? && i.value.Str? ==> SafeKeywords(Keywords(i.value.s))
    ensures var r := Background.Process(job, st, config,
              Background.Replies(Delivered(Outer(summaryInner)), Delivered(Outer(keyHighlights)), Delivered(Outer(importantWords))));
      var m := r.outbox[0].message;
      && m.summary == Undefined
      && Background.Stored(r.storage, Background.SummaryKey) == Background.Stored(st, Background.SummaryKey)
      && (m.importantWords.Str? ==> SafeKeywords(Keywords(m.importantWords.s)))
      && OnMessage(p, m, outcome) == p
  {
    var replies := Background.Replies(Delivered(Outer(summaryInner)), Delivered(Outer(keyHighlights)), Delivered(Outer(importantWords)));
    UnwrapOfEnvelope(summaryInner, "summary", false);
    UnwrapOfEnvelope(keyHighlights, "keyHighlights", false);
    UnwrapOfEnvelope(importantWords, "importantWords", true);
    var s := Background.FetchSummary(replies.summary);
    var k := Background.FetchKeyHighlights(replies.keyHighlights);
    var i := Background.FetchImportantWords(replies.importantWords);
    assert s == Normal(Undefined) && k.Normal? && i.Normal?;
    BackgroundProofs.ProcessIsAllOrNothing(job, st, config, replies);
    var r := Background.Process(job, st, config, replies);
    assert r.outbox[0].message == Background.DisplayMessage(Undefined, k.value, i.value);
    BackgroundProofs.StoreSetsEachKey(st, Undefined, k.value, i.value, Background.SummaryKey);
  }

  /** The worker's failure message does get a popup, but it lacks important
      words, so formatting throws before anything is written: the popup
      keeps "Loading summary..." (or shows the load failure when no template
      can be had), and "Failed to fetch data." is never shown. */
  lemma FailureMessageLeavesLoading(p: Page, outcome: FetchOutcome)
    requires Valid(p)
    ensures var q := OnMessage(p, Background.FailureMessage, outcome);
      var template := FetchTemplate(p.cache, outcome).template;
      && |q.body| == |p.body| + 2
      && q.body[|p.body| + 1] in q.elements
      && var popup := q.elements[q.body[|p.body| + 1]];
         && (template != [] ==> popup.innerHtml == LoadingHtml)
         && (template == [] ==> popup.innerHtml == LoadFailedHtml)
  {
    var s := DisplayEmptyPopup(p);
    ContentScriptProofs.DisplayEmptyPopupAppends(p);
    ContentScriptProofs.UpdatePopupContentFrame(s.page, s.popup, Str(Background.FailureText), Undefined, Undefined, outcome);
    var template := FetchTemplate(s.page.cache, outcome).template;
    ContentScriptProofs.UpdatePopupContentWrites(s.page, s.popup, Str(Background.FailureText), Undefined, Undefined, outcome,
      template, Format(Str(Background.FailureText), Undefined, Undefined, template),
      UpdatePopupContent(s.page, Some(s.popup), Str(Background.FailureText), Undefined, Undefined, outcome));
    var q := OnMessage(p, Background.FailureMessage, outcome);
    assert q.body == p.body + [s.overlay, s.popup];
  }
}
