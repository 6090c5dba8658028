/** Properties of the background worker: the context menu ends with one
    summarize item however the calls of overlapping `createContextMenu`
    runs interleave, the unwrapping reads the field the API wraps, a run is
    all-or-nothing, and what is stored can be read back. */
module BackgroundProofs {
  import opened Options
  import opened JsValues
  import opened ExtensionMessages
  import opened Background

  // ---------------------------------------------------------------------
  // Context menu

  /** Whatever ran before, once the last `removeAll` is followed only by
      creations of the summarize item, the menu holds exactly that item, and
      every creation after the first reports a duplicate-id error. */
  lemma {:induction false} LastRemoveAllDecides(m: Menu, calls: seq<MenuCall>, k: nat)
    requires k + 1 < |calls| && calls[k] == RemoveAll
    requires forall j | k < j < |calls| :: calls[j] == Create(SummarizeItem)
    ensures ApplyCalls(m, calls).items == [SummarizeItem]
    ensures ApplyCalls(m, calls).errors == ApplyCalls(m, calls[..k + 1]).errors + (|calls| - k - 2)
    decreases |calls|
  {
    var pre := calls[..|calls| - 1];
    var last := ApplyCalls(m, pre);
    assert calls[|calls| - 1] == Create(SummarizeItem);
    if |calls| - 1 == k + 1 {
      assert pre[|pre| - 1] == RemoveAll;
      assert last.items == [];
      assert !HasId(last.items, SummarizeId);
    } else {
      assert pre[..k + 1] == calls[..k + 1];
      LastRemoveAllDecides(m, pre, k);
      assert last.items[0].id == SummarizeId;
    }
  }

  /** One call of `createContextMenu` leaves exactly the summarize item and
      reports no error. */
  lemma CreateContextMenuLeavesOneItem(m: Menu)
    ensures CreateContextMenu(m) == Menu([SummarizeItem], m.errors)
  {
    LastRemoveAllDecides(m, ContextMenuCalls, 0);
    assert ContextMenuCalls[..1] == [RemoveAll];
  }

  /** Calling it again changes nothing. */
  lemma CreateContextMenuIsIdempotent(m: Menu)
    ensures CreateContextMenu(CreateContextMenu(m)) == CreateContextMenu(m)
  {
    CreateContextMenuLeavesOneItem(m);
    CreateContextMenuLeavesOneItem(CreateContextMenu(m));
  }

  /** Two overlapping runs, whose `removeAll` calls both complete before
      either creation, still leave one item; the second creation fails with
      a duplicate-id error that the callback logs. */
  lemma OverlappingRunsLeaveOneItem(m: Menu)
    ensures ApplyCalls(m, [RemoveAll, RemoveAll, Create(SummarizeItem), Create(SummarizeItem)]) == Menu([SummarizeItem], m.errors + 1)
  {
    var calls := [RemoveAll, RemoveAll, Create(SummarizeItem), Create(SummarizeItem)];
    LastRemoveAllDecides(m, calls, 1);
    var pre := calls[..2];
    assert pre == [RemoveAll, RemoveAll];
    assert pre[..1] == [RemoveAll] && [RemoveAll][..0] == [];
    assert ApplyCalls(m, [RemoveAll]) == m.(items := []);
    assert ApplyCalls(m, pre) == m.(items := []);
    var r := ApplyCalls(m, calls);
    assert r.items == [SummarizeItem] && r.errors == m.errors + 1;
  }

  // ---------------------------------------------------------------------
  // Starting a summary

  /** A click on another item, or without a tab, does nothing at all: no
      request, no storage change, no message. */
  lemma OnlySummarizeClicksStartWork(info: ClickInfo, tab: Option<Tab>, st: Storage, config: HttpOutcome, replies: Replies)
    ensures var r := HandleClick(info, tab, st, config, replies);
      && (info.menuItemId != Str(SummarizeId) || tab.None? ==> r == Run([], st, []))
      && (info.menuItemId == Str(SummarizeId) && tab.Some? ==>
            r == Process(Job(info.selectionText, tab.value.id), st, config, replies) && |r.outbox| == 1)
  {
  }

  /** Without a usable configuration no API call is made and the failure
      message goes out; otherwise exactly the three POST requests, carrying
      the selected text, go to the endpoint's three paths. */
  lemma RequestsFollowConfiguration(job: Job, st: Storage, config: HttpOutcome, replies: Replies)
    ensures var r := Process(job, st, config, replies);
      && (Endpoint(config).Throw? ==> r == Run([], st, [Outgoing(job.tabId, FailureMessage)]))
      && (Endpoint(config).Normal? ==>
            var api := Endpoint(config).value;
            && |r.requests| == 3
            && r.requests[0].path == SummaryPath
            && r.requests[1].path == KeyHighlightsPath
            && r.requests[2].path == ImportantWordsPath
            && forall j | 0 <= j < 3 :: r.requests[j] == Post(api, r.requests[j].path, job.text)
                                   && r.requests[j].httpMethod == "POST"
                                   && r.requests[j].contentType == "application/json")
  {
    if Endpoint(config).Normal? {
      var api := Endpoint(config).value;
      assert Process(job, st, config, replies).requests
        == [Post(api, SummaryPath, job.text), Post(api, KeyHighlightsPath, job.text), Post(api, ImportantWordsPath, job.text)];
    }
  }

  /** A config that is not ok, not JSON, or has no truthy `apiEndpoint`
      fails the run; a non-ok one with "Error loading config" and the
      status text. */
  lemma BadConfigFails(status: int, statusText: string, config: Json)
    ensures !Ok(status) ==> Endpoint(HttpReply(status, statusText, JsonBody(config))) == Throw("Error: Error loading config: " + statusText)
    ensures Endpoint(HttpReply(status, statusText, NotJson)).Throw?
    ensures Endpoint(NetworkError).Throw?
    ensures config.JObject? && "apiEndpoint" !in config.fields ==> Endpoint(HttpReply(status, statusText, JsonBody(config))).Throw?
    ensures Ok(status) && config.JObject? && "apiEndpoint" in config.fields && config.fields["apiEndpoint"] == JString([]) ==>
      Endpoint(HttpReply(status, statusText, JsonBody(config))) == Throw("Error: API endpoint is missing in the config.")
  {
  }

  // ---------------------------------------------------------------------
  // Unwrapping

  /** The envelope the API answers with: `data.summary.body` holds the text
      of a JSON object. */
  predicate Enveloped(data: Json, inner: map<string, Json>) {
    && data.JObject? && "summary" in data.fields
    && data.fields["summary"].JObject? && "body" in data.fields["summary"].fields
    && data.fields["summary"].fields["body"] == JEncoded(JObject(inner))
  }

  /** From an enveloped reply each call reads its field of the inner object,
      `undefined` if the field is missing, with or without the guard. */
  lemma UnwrapReadsInnerField(data: Json, inner: map<string, Json>, field: string, guarded: bool)
    requires Enveloped(data, inner)
    ensures Unwrap(data, field, guarded) == Normal(if field in inner then ToValue(inner[field]) else Undefined)
  {
  }

  /** The important-words guard only rejects more: whenever the guarded
      unwrap succeeds, the plain one succeeds with the same value. */
  lemma GuardOnlyRejectsMore(data: Json, field: string)
    ensures Unwrap(data, field, true).Normal? ==> Unwrap(data, field, false) == Unwrap(data, field, true)
  {
  }

  /** A body that is the JSON literal `false` passes the plain unwrap as
      `undefined` (`JSON.parse(false).summary`) but fails the guard. */
  lemma GuardRejectsFalsyBody(field: string)
    ensures var data := JObject(map["summary" := JObject(map["body" := JOther(false)])]);
      && Unwrap(data, field, false) == Normal(Undefined)
      && Unwrap(data, field, true) == Throw("Error: Invalid response format")
  {
  }

  /** A body that is an array is not JSON text once stringified, so every
      call rejects with the parse error, guarded or not, and a run whose
      summary reply carries one stores nothing and sends the failure
      message. */
  lemma ArrayBodyFails(field: string, guarded: bool, job: Job, st: Storage, config: HttpOutcome, replies: Replies)
    requires Endpoint(config).Normal?
    requires replies.summary == HttpReply(200, "OK", JsonBody(JObject(map["summary" := JObject(map["body" := JArray])])))
    ensures Unwrap(JObject(map["summary" := JObject(map["body" := JArray])]), field, guarded).Throw?
    ensures var r := Process(job, st, config, replies);
      r.storage == st && r.outbox == [Outgoing(job.tabId, FailureMessage)]
  {
    ProcessIsAllOrNothing(job, st, config, replies);
  }

  /** A reply without `summary` fails every call; only the guarded one says
      "Invalid response format". */
  lemma MissingEnvelopeFails(fields: map<string, Json>, field: string)
    requires "summary" !in fields
    ensures Unwrap(JObject(fields), field, false).Throw?
    ensures Unwrap(JObject(fields), field, true) == Throw("Error: Invalid response format")
  {
  }

  // ---------------------------------------------------------------------
  // Storage

  /** Storing three values sets each key to its value unless the value is
      `undefined`, and leaves every other key alone. */
  lemma StoreSetsEachKey(st: Storage, s: Value, k: Value, i: Value, key: string)
    ensures var after := Store(st, s, k, i);
      && Stored(after, SummaryKey) == (if s == Undefined then Stored(st, SummaryKey) else s)
      && Stored(after, KeyHighlightsKey) == (if k == Undefined then Stored(st, KeyHighlightsKey) else k)
      && Stored(after, ImportantWordsKey) == (if i == Undefined then Stored(st, ImportantWordsKey) else i)
      && (key != SummaryKey && key != KeyHighlightsKey && key != ImportantWordsKey ==> Stored(after, key) == Stored(st, key))
  {
  }

  // ---------------------------------------------------------------------
  // All or nothing

  /** A run either stores all three values and sends them to the tab in one
      `displaySummary` message, which happens exactly when the configuration
      and all three calls succeed, or leaves storage untouched and sends
      exactly the failure message. */
  lemma ProcessIsAllOrNothing(job: Job, st: Storage, config: HttpOutcome, replies: Replies)
    ensures var r := Process(job, st, config, replies);
      var s := FetchSummary(replies.summary);
      var k := FetchKeyHighlights(replies.keyHighlights);
      var i := FetchImportantWords(replies.importantWords);
      var succeeds := Endpoint(config).Normal? && s.Normal? && k.Normal? && i.Normal?;
      && (succeeds ==>
            && r.storage == Store(st, s.value, k.value, i.value)
            && r.outbox == [Outgoing(job.tabId, DisplayMessage(s.value, k.value, i.value))])
      && (!succeeds ==> r.storage == st && r.outbox == [Outgoing(job.tabId, FailureMessage)])
  {
  }

  /** Any failing call, whichever it is, sends the failure message, which
      carries no key highlights and no important words. */
  lemma OneFailureSpoilsTheRun(job: Job, st: Storage, config: HttpOutcome, replies: Replies)
    requires Endpoint(config).Normal?
    requires FetchSummary(replies.summary).Throw? || FetchKeyHighlights(replies.keyHighlights).Throw?
          || FetchImportantWords(replies.importantWords).Throw?
    ensures var r := Process(job, st, config, replies);
      && r.storage == st
      && r.outbox[0].message.summary == Str(FailureText)
      && r.outbox[0].message.keyHighlights == Undefined
      && r.outbox[0].message.importantWords == Undefined
  {
  }

  // ---------------------------------------------------------------------
  // The message handler

  function SaveMessage(s: Value, k: Value, i: Value): Message {
    Message(Str(SaveAction), s, k, i)
  }

  const RequestMessage := Message(Str(RequestAction), Undefined, Undefined, Undefined)

  /** `requestSummary` answers each field independently: the stored value
      when it is truthy, that field's default otherwise; storage is not
      touched. */
  lemma RequestAnswersStoredOrDefault(st: Storage)
    ensures var h := OnRuntimeMessage(st, RequestMessage);
      && h.storage == st && h.keepsChannelOpen && h.reply.SummaryReply?
      && (Stored(st, SummaryKey).Truthy() ==> h.reply.summary == st[SummaryKey])
      && (!Stored(st, SummaryKey).Truthy() ==> h.reply.summary == Str(NoSummaryText))
      && (Stored(st, KeyHighlightsKey).Truthy() ==> h.reply.keyHighlights == st[KeyHighlightsKey])
      && (!Stored(st, KeyHighlightsKey).Truthy() ==> h.reply.keyHighlights == Str(NoKeyHighlightsText))
      && (Stored(st, ImportantWordsKey).Truthy() ==> h.reply.importantWords == st[ImportantWordsKey])
      && (!Stored(st, ImportantWordsKey).Truthy() ==> h.reply.importantWords == Str(NoImportantWordsText))
  {
  }

  /** Saving three non-empty strings and then requesting gives them back;
      saving answers `{ status: 'success' }`. */
  lemma SaveThenRequestRoundTrips(st: Storage, s: string, k: string, i: string)
    requires s != [] && k != [] && i != []
    ensures var saved := OnRuntimeMessage(st, SaveMessage(Str(s), Str(k), Str(i)));
      && saved.reply == StatusReply("success") && saved.keepsChannelOpen
      && OnRuntimeMessage(saved.storage, RequestMessage).reply == SummaryReply(Str(s), Str(k), Str(i))
  {
    StoreSetsEachKey(st, Str(s), Str(k), Str(i), SummaryKey);
  }

  /** Saving an empty summary stores it, but a request answers with the
      default instead. */
  lemma EmptySavedSummaryReadsAsDefault(st: Storage, k: Value, i: Value)
    ensures var saved := OnRuntimeMessage(st, SaveMessage(Str([]), k, i)).storage;
      && Stored(saved, SummaryKey) == Str([])
      && OnRuntimeMessage(saved, RequestMessage).reply.summary == Str(NoSummaryText)
  {
    StoreSetsEachKey(st, Str([]), k, i, SummaryKey);
  }

  /** What a successful run shows in the tab is also what a later
      `requestSummary` answers, for every field the API filled in. */
  lemma SuccessfulRunCanBeRequested(job: Job, st: Storage, config: HttpOutcome, replies: Replies)
    requires Process(job, st, config, replies).outbox[0].message != FailureMessage
    ensures var r := Process(job, st, config, replies);
      var m := r.outbox[0].message;
      var reply := OnRuntimeMessage(r.storage, RequestMessage).reply;
      && (m.summary.Truthy() ==> reply.summary == m.summary)
      && (m.keyHighlights.Truthy() ==> reply.keyHighlights == m.keyHighlights)
      && (m.importantWords.Truthy() ==> reply.importantWords == m.importantWords)
  {
    var r := Process(job, st, config, replies);
    ProcessIsAllOrNothing(job, st, config, replies);
    var m := r.outbox[0].message;
    StoreSetsEachKey(st, m.summary, m.keyHighlights, m.importantWords, SummaryKey);
  }

  /** Messages with any other action get no answer and change nothing. */
  lemma OtherMessagesAreIgnored(st: Storage, m: Message)
    requires m.action != Str(SaveAction) && m.action != Str(RequestAction)
    ensures OnRuntimeMessage(st, m) == Handled(st, NoReply, false)
  {
  }
}
