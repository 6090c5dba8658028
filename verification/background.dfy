/** The extension's background worker: the context menu, the click that
    starts a summary, the configuration and the three API calls with their
    response unwrapping, the all-or-nothing hand-over to storage and to the
    tab, and the storage message handler. `fetch`, `chrome.storage` and
    `chrome.tabs` become explicit values: the network's answers are
    parameters, and storage and the outgoing messages are results. */
module Background {
  import opened Options
  import opened JsValues
  import opened ExtensionMessages

  // ---------------------------------------------------------------------
  // Context menu

  datatype MenuItem = MenuItem(id: string, title: string, contexts: seq<string>)

  const SummarizeId := "summarize"
  const SummarizeItem := MenuItem(SummarizeId, "Summarize selected text", ["selection"])

  /** The browser's context menu of the extension, and how many creation
      errors (`chrome.runtime.lastError`) have been reported to a callback. */
  datatype Menu = Menu(items: seq<MenuItem>, errors: nat)

  /** A call into `chrome.contextMenus`, in the order the browser runs them. */
  datatype MenuCall = RemoveAll | Create(item: MenuItem)

  predicate HasId(items: seq<MenuItem>, id: string) {
    exists j | 0 <= j < |items| :: items[j].id == id
  }

  /** `removeAll` empties the menu; `create` with an id already present
      reports an error and adds nothing. */
  function ApplyCall(m: Menu, c: MenuCall): (r: Menu)
    ensures c.RemoveAll? ==> r.items == []
    ensures c.Create? && !HasId(m.items, c.item.id) ==> r == Menu(m.items + [c.item], m.errors)
    ensures c.Create? && HasId(m.items, c.item.id) ==> r == m.(errors := m.errors + 1)
  {
    match c
    case RemoveAll => m.(items := [])
    case Create(item) =>
      if HasId(m.items, item.id) then m.(errors := m.errors + 1) else m.(items := m.items + [item])
  }

  /** The calls run one after another. */
  function ApplyCalls(m: Menu, calls: seq<MenuCall>): Menu
    decreases |calls|
  {
    if |calls| == 0 then m else ApplyCall(ApplyCalls(m, calls[..|calls| - 1]), calls[|calls| - 1])
  }

  /** `createContextMenu()`: remove all items, then, in the callback, create
      the summarize item. */
  const ContextMenuCalls := [RemoveAll, Create(SummarizeItem)]

  function CreateContextMenu(m: Menu): Menu {
    ApplyCalls(m, ContextMenuCalls)
  }

  // ---------------------------------------------------------------------
  // Starting a summary

  /** The fields of the click `info` the listener reads. */
  datatype ClickInfo = ClickInfo(menuItemId: Value, selectionText: Value)

  datatype Tab = Tab(id: Value)

  /** A summary to produce: the selected text and the tab to show it in. */
  datatype Job = Job(text: Value, tabId: Value)

  /** The `contextMenus.onClicked` listener: only the summarize item starts
      a job. Reading `tab.id` of a missing tab throws. */
  function OnClicked(info: ClickInfo, tab: Option<Tab>): (r: Completion<Option<Job>>)
    ensures r.Normal? && r.value.Some? <==> info.menuItemId == Str(SummarizeId) && tab.Some?
    ensures r.Normal? && r.value.Some? ==> r.value.value == Job(info.selectionText, tab.value.id)
    ensures r.Throw? <==> info.menuItemId == Str(SummarizeId) && tab.None?
  {
    if info.menuItemId != Str(SummarizeId) then Normal(None)
    else if tab.None? then Throw("TypeError: Cannot read properties of undefined (reading 'id')")
    else Normal(Some(Job(info.selectionText, tab.value.id)))
  }

  // ---------------------------------------------------------------------
  // HTTP

  /** What `response.json()` yields: JSON, or text that is not JSON. */
  datatype Payload = NotJson | JsonBody(data: Json)

  /** How a `fetch` settles: a network error rejects; otherwise a response
      with its status, its `statusText` and its body. */
  datatype HttpOutcome = NetworkError | HttpReply(status: int, statusText: string, payload: Payload)

  /** `response.ok`. */
  predicate Ok(status: int) {
    200 <= status <= 299
  }

  /** The `fetch().then(check ok).then(r => r.json())` prefix every call
      shares: the JSON of an ok response, or the rejection. */
  function JsonOf(reply: HttpOutcome, what: string): (r: Completion<Json>)
    ensures r.Normal? <==> reply.HttpReply? && Ok(reply.status) && reply.payload.JsonBody?
    ensures r.Normal? ==> r.value == reply.payload.data
  {
    match reply
    case NetworkError => Throw("TypeError: Failed to fetch")
    case HttpReply(status, statusText, payload) =>
      if !Ok(status) then Throw("Error: Error " + what + ": " + statusText)
      else match payload
        case NotJson => Throw("SyntaxError: Unexpected token")
        case JsonBody(data) => Normal(data)
  }

  // ---------------------------------------------------------------------
  // Configuration

  /** The configuration step of `fetchFromConfigAndProcess`: load
      `config.json` and insist on a truthy `apiEndpoint`. */
  function Endpoint(config: HttpOutcome): (r: Completion<Json>)
    ensures r.Normal? <==>
      && JsonOf(config, "loading config").Normal?
      && var c := config.payload.data;
         c.JObject? && "apiEndpoint" in c.fields && JsonTruthy(Some(c.fields["apiEndpoint"]))
    ensures r.Normal? ==> r.value == config.payload.data.fields["apiEndpoint"]
    ensures config.HttpReply? && !Ok(config.status) ==> r == Throw("Error: Error loading config: " + config.statusText)
  {
    assert "Error: Error " + "loading config" + ": " == "Error: Error loading config: ";
    match JsonOf(config, "loading config")
    case Throw(e) => Throw(e)
    case Normal(c) =>
      match Member(Some(c), "apiEndpoint")
      case Throw(e) => Throw(e)
      case Normal(api) =>
        if !JsonTruthy(api) then Throw("Error: API endpoint is missing in the config.")
        else Normal(api.value)
  }

  // ---------------------------------------------------------------------
  // The API calls

  /** `fetch(`${endpoint}${path}`, { method, headers: { 'Content-Type' },
      body: JSON.stringify({ text }) })`. The URL is the endpoint value
      converted to a string followed by the path. */
  datatype Request = Request(endpoint: Json, path: string, httpMethod: string, contentType: string, text: Value)

  const SummaryPath := "/summary"
  const KeyHighlightsPath := "/key-highlights"
  const ImportantWordsPath := "/important-words"

  function Post(endpoint: Json, path: string, text: Value): Request {
    Request(endpoint, path, "POST", "application/json", text)
  }

  /** The unwrapping every API call applies to an ok response's JSON `data`:
      `JSON.parse(data.summary.body)[field]`. With `guarded` set (the
      important-words call), `data.summary && data.summary.body` must be
      truthy first, else the call rejects with "Invalid response format". */
  function Unwrap(data: Json, field: string, guarded: bool): (r: Completion<Value>)
    ensures data.JNull? ==> r.Throw?
    ensures guarded && r.Normal? ==>
      && data.JObject? && "summary" in data.fields
      && var s := data.fields["summary"];
         JsonTruthy(Some(s)) && s.JObject? && "body" in s.fields && JsonTruthy(Some(s.fields["body"]))
    ensures r.Normal? ==>
      && data.JObject? && "summary" in data.fields
      && var s := data.fields["summary"];
         s.JObject? && "body" in s.fields && (s.fields["body"].JEncoded? || s.fields["body"].JOther?)
    ensures data.JObject? && "summary" in data.fields && data.fields["summary"].JObject? && "body" in data.fields["summary"].fields ==>
      var b := data.fields["summary"].fields["body"];
      && (b.JEncoded? ==> r == Property(b.value, field))
      && (b.JArray? || b.JString? || b.JObject? || b.JNull? ==> r.Throw?)
  {
    match Member(Some(data), "summary")
    case Throw(e) => Throw(e)
    case Normal(summary) =>
      if guarded && !(JsonTruthy(summary) && JsonTruthy(Member(summary, "body").value)) then
        Throw("Error: Invalid response format")
      else match Member(summary, "body")
        case Throw(e) => Throw(e)
        case Normal(body) =>
          match Parse(body)
          case Throw(e) => Throw(e)
          case Normal(parsed) => Property(parsed, field)
  }

  /** `fetchSummary(apiUrl, text)` once its request has settled. */
  function FetchSummary(reply: HttpOutcome): (r: Completion<Value>)
    ensures r.Normal? ==> reply.HttpReply? && Ok(reply.status) && reply.payload.JsonBody?
    ensures reply.HttpReply? && !Ok(reply.status) ==> r == Throw("Error: Error fetching summary: " + reply.statusText)
  {
    assert "Error: Error " + "fetching summary" + ": " == "Error: Error fetching summary: ";
    match JsonOf(reply, "fetching summary")
    case Throw(e) => Throw(e)
    case Normal(data) => Unwrap(data, "summary", false)
  }

  /** `fetchKeyHighlights(apiUrl, text)` once its request has settled. */
  function FetchKeyHighlights(reply: HttpOutcome): (r: Completion<Value>)
    ensures r.Normal? ==> reply.HttpReply? && Ok(reply.status) && reply.payload.JsonBody?
    ensures reply.HttpReply? && !Ok(reply.status) ==> r == Throw("Error: Error fetching key highlights: " + reply.statusText)
  {
    assert "Error: Error " + "fetching key highlights" + ": " == "Error: Error fetching key highlights: ";
    match JsonOf(reply, "fetching key highlights")
    case Throw(e) => Throw(e)
    case Normal(data) => Unwrap(data, "keyHighlights", false)
  }

  /** `fetchImportantWords(apiUrl, text)` once its request has settled. */
  function FetchImportantWords(reply: HttpOutcome): (r: Completion<Value>)
    ensures r.Normal? ==> reply.HttpReply? && Ok(reply.status) && reply.payload.JsonBody?
    ensures reply.HttpReply? && !Ok(reply.status) ==> r == Throw("Error: Error fetching important words: " + reply.statusText)
  {
    assert "Error: Error " + "fetching important words" + ": " == "Error: Error fetching important words: ";
    match JsonOf(reply, "fetching important words")
    case Throw(e) => Throw(e)
    case Normal(data) => Unwrap(data, "importantWords", true)
  }

  // ---------------------------------------------------------------------
  // Storage

  /** `chrome.storage.local`: stored values are never `undefined`. */
  type Storage = map<string, Value>

  const SummaryKey := "summary"
  const KeyHighlightsKey := "keyHighlights"
  const ImportantWordsKey := "importantWords"

  /** Setting one key; an `undefined` value is dropped by serialization and
      leaves the key as it was. */
  function Set(st: Storage, key: string, v: Value): Storage {
    if v == Undefined then st else st[key := v]
  }

  /** `chrome.storage.local.set({ summary, keyHighlights, importantWords })`. */
  function Store(st: Storage, summary: Value, keyHighlights: Value, importantWords: Value): (r: Storage)
    ensures forall key | key in st :: key in r
    ensures forall key | key in r && key !in st :: key == SummaryKey || key == KeyHighlightsKey || key == ImportantWordsKey
    ensures (forall key | key in st :: st[key] != Undefined) ==> forall key | key in r :: r[key] != Undefined
  {
    Set(Set(Set(st, SummaryKey, summary), KeyHighlightsKey, keyHighlights), ImportantWordsKey, importantWords)
  }

  /** A key read back by `chrome.storage.local.get`: absent is `undefined`. */
  function Stored(st: Storage, key: string): Value {
    if key in st then st[key] else Undefined
  }

  // ---------------------------------------------------------------------
  // fetchFromConfigAndProcess

  /** The network's answers to the three API calls. */
  datatype Replies = Replies(summary: HttpOutcome, keyHighlights: HttpOutcome, importantWords: HttpOutcome)

  /** A message sent with `chrome.tabs.sendMessage(tabId, message)`. */
  datatype Outgoing = Outgoing(tabId: Value, message: Message)

  /** What a run leaves behind: the API requests it made, in order, the
      storage, and the messages sent to tabs. */
  datatype Run = Run(requests: seq<Request>, storage: Storage, outbox: seq<Outgoing>)

  const FailureText := "Failed to fetch data."

  /** The message of the `catch` branch: only an action and a summary. */
  const FailureMessage := Message(Str(DisplayAction), Str(FailureText), Undefined, Undefined)

  function DisplayMessage(summary: Value, keyHighlights: Value, importantWords: Value): Message {
    Message(Str(DisplayAction), summary, keyHighlights, importantWords)
  }

  /** `fetchFromConfigAndProcess(text, tabId)`, with the configuration
      fetch settled as `config` and the three API calls as `replies`.
      `Promise.all` succeeds only if all three calls do; then the three
      values are stored and sent to the tab, and otherwise the failure
      message is sent and storage is left alone. */
  function Process(job: Job, st: Storage, config: HttpOutcome, replies: Replies): (r: Run)
    ensures |r.outbox| == 1 && r.outbox[0].tabId == job.tabId
    ensures r.requests == [] <==> Endpoint(config).Throw?
  {
    match Endpoint(config)
    case Throw(_) => Run([], st, [Outgoing(job.tabId, FailureMessage)])
    case Normal(api) =>
      var requests := [Post(api, SummaryPath, job.text), Post(api, KeyHighlightsPath, job.text), Post(api, ImportantWordsPath, job.text)];
      var s := FetchSummary(replies.summary);
      var k := FetchKeyHighlights(replies.keyHighlights);
      var i := FetchImportantWords(replies.importantWords);
      if s.Normal? && k.Normal? && i.Normal? then
        Run(requests, Store(st, s.value, k.value, i.value), [Outgoing(job.tabId, DisplayMessage(s.value, k.value, i.value))])
      else
        Run(requests, st, [Outgoing(job.tabId, FailureMessage)])
  }

  /** A click on the context menu with everything it sets off: nothing for
      another item or a missing tab, a full run for the summarize item. */
  function HandleClick(info: ClickInfo, tab: Option<Tab>, st: Storage, config: HttpOutcome, replies: Replies): (r: Run)
    ensures info.menuItemId != Str(SummarizeId) ==> r == Run([], st, [])
  {
    match OnClicked(info, tab)
    case Normal(Some(job)) => Process(job, st, config, replies)
    case _ => Run([], st, [])
  }

  // ---------------------------------------------------------------------
  // The runtime message handler

  const NoSummaryText := "No summary available"
  const NoKeyHighlightsText := "No key highlights available"
  const NoImportantWordsText := "No important words available"

  /** What the handler passes to `sendResponse`, if anything. */
  datatype Reply =
    | NoReply
    | StatusReply(status: string)
    | SummaryReply(summary: Value, keyHighlights: Value, importantWords: Value)

  /** The storage afterwards, the reply, and whether the listener returned
      `true` (keeping the channel open for the asynchronous reply). */
  datatype Handled = Handled(storage: Storage, reply: Reply, keepsChannelOpen: bool)

  /** The `runtime.onMessage` listener. */
  function OnRuntimeMessage(st: Storage, m: Message): (r: Handled)
    ensures r.keepsChannelOpen <==> r.reply != NoReply
    ensures r.reply.NoReply? <==> m.action != Str(SaveAction) && m.action != Str(RequestAction)
    ensures r.storage != st ==> m.action == Str(SaveAction)
  {
    if m.action == Str(SaveAction) then
      Handled(Store(st, m.summary, m.keyHighlights, m.importantWords), StatusReply("success"), true)
    else if m.action == Str(RequestAction) then
      Handled(st, SummaryReply(
        Or(Stored(st, SummaryKey), Str(NoSummaryText)),
        Or(Stored(st, KeyHighlightsKey), Str(NoKeyHighlightsText)),
        Or(Stored(st, ImportantWordsKey), Str(NoImportantWordsText))), true)
    else Handled(st, NoReply, false)
  }
}
