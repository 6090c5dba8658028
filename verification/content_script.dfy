/** The content script: the template cache, the popup and its overlay in
    the page, the two deferred callbacks (slide-in and removal), and the
    message listener that starts it all. The document is a map from element
    handles to elements plus the sequence of `document.body`'s children;
    `setTimeout` callbacks are pending timers fired by advancing the clock. */
module ContentScript {
  import opened Options
  import opened JsValues
  import opened Formatter
  import opened ExtensionMessages

  const LoadingHtml := "<p>Loading summary...</p>"
  const LoadFailedHtml := "<p>Failed to load summary.</p>"
  const FormatFailedHtml := "<p>Failed to format summary.</p>"
  const OverlayId := "popup-overlay"
  const PopupId := "summary-popup"
  /** Delay of the slide-in callback, in milliseconds. */
  const SlideInDelay := 10
  /** Delay between closing and removing the popup, in milliseconds. */
  const RemovalDelay := 500
  const ShownOffset := "0"
  const HiddenOffset := "-400px"

  // ---------------------------------------------------------------------
  // Template cache

  /** What fetching `summary-template.html` gives: a failure (the fetch or
      `response.text()` rejects), or the body of a response, whatever its
      status. */
  datatype FetchOutcome = FetchFailed | Fetched(body: string)

  /** `cachedTemplate`: `null` until a fetch resolves, then the last body a
      resolved fetch returned (possibly empty). */
  datatype TemplateCache = Uncached | Cached(template: string)
  {
    /** The cache is used only when it holds a truthy (non-empty) string. */
    predicate Usable() {
      Cached? && template != []
    }
  }

  /** The template `fetchTemplate` resolves to, the cache after it, and
      whether it went to the network. */
  datatype TemplateFetch = TemplateFetch(template: string, cache: TemplateCache, fetched: bool)

  /** `fetchTemplate()`, with `outcome` standing for what the network would
      answer if asked. */
  function FetchTemplate(cache: TemplateCache, outcome: FetchOutcome): TemplateFetch {
    if cache.Usable() then TemplateFetch(cache.template, cache, false)
    else match outcome
      case FetchFailed => TemplateFetch([], cache, true)
      case Fetched(body) => TemplateFetch(body, Cached(body), true)
  }

  // ---------------------------------------------------------------------
  // The document

  type Handle = nat

  /** An element: its `id`, its `innerHTML` and its `style.right` offset. */
  datatype Element = Element(id: string, innerHtml: string, right: string)

  /** The body of a pending `setTimeout` callback. */
  datatype Action = SlideIn(target: Handle) | RemoveChild(target: Handle)

  datatype Timer = Timer(due: int, action: Action)

  datatype Page = Page(
    elements: map<Handle, Element>,   // every element created, attached or not
    body: seq<Handle>,                // the children of document.body, in order
    nextHandle: Handle,
    listeners: map<Handle, Handle>,   // overlay -> the popup its click closes
    timers: seq<Timer>,               // pending callbacks, in scheduling order
    now: int,                         // the clock, in milliseconds
    cache: TemplateCache)

  /** Handles are fresh, the body lists created elements once each, and every
      pending callback and click listener refers to created elements. */
  predicate Valid(p: Page) {
    && (forall h | h in p.elements :: h < p.nextHandle)
    && (forall i | 0 <= i < |p.body| :: p.body[i] in p.elements)
    && Distinct(p.body)
    && (forall i | 0 <= i < |p.timers| :: p.timers[i].action.target in p.elements)
    && (forall o | o in p.listeners :: o in p.elements && p.listeners[o] in p.elements)
  }

  /** No handle occurs twice. */
  predicate Distinct(s: seq<Handle>) {
    forall i, j | 0 <= i < j < |s| :: s[i] != s[j]
  }

  /** A page with nothing in it yet. */
  function EmptyPage(now: int): (p: Page)
    ensures Valid(p)
  {
    Page(map[], [], 0, map[], [], now, Uncached)
  }

  /** `body` without `h`. */
  function Without(body: seq<Handle>, h: Handle): (r: seq<Handle>)
    ensures forall x :: x in r <==> x in body && x != h
    ensures |r| <= |body|
    decreases |body|
  {
    if |body| == 0 then []
    else if body[0] == h then Without(body[1..], h)
    else [body[0]] + Without(body[1..], h)
  }

  function SetHtml(p: Page, h: Handle, html: string): Page
    requires h in p.elements
  {
    p.(elements := p.elements[h := p.elements[h].(innerHtml := html)])
  }

  function SetRight(p: Page, h: Handle, right: string): Page
    requires h in p.elements
  {
    p.(elements := p.elements[h := p.elements[h].(right := right)])
  }

  /** The popup and overlay `displayEmptyPopup` returns, and the page after
      it. */
  datatype Shown = Shown(page: Page, popup: Handle, overlay: Handle)

  /** `displayEmptyPopup()`: create and append the overlay, then the popup
      showing the loading message; schedule the slide-in; make a click on the
      overlay close both. Nothing checks for a popup already shown. */
  function DisplayEmptyPopup(p: Page): Shown {
    var overlay := p.nextHandle;
    var popup := p.nextHandle + 1;
    var page := p.(
      elements := p.elements[overlay := Element(OverlayId, [], [])][popup := Element(PopupId, LoadingHtml, [])],
      body := p.body + [overlay, popup],
      nextHandle := p.nextHandle + 2,
      listeners := p.listeners[overlay := popup],
      timers := p.timers + [Timer(p.now + SlideInDelay, SlideIn(popup))]);
    Shown(page, popup, overlay)
  }

  /** `closePopup(summaryPopup, overlay)`: a popup in the document is pushed
      off-screen and its removal scheduled; an overlay in the document is
      removed at once; an element not in the document is left alone. */
  function ClosePopup(p: Page, popup: Option<Handle>, overlay: Option<Handle>): Page
    requires popup.Some? ==> popup.value in p.elements
  {
    var p1 :=
      if popup.Some? && popup.value in p.body then
        SetRight(p, popup.value, HiddenOffset).(timers := p.timers + [Timer(p.now + RemovalDelay, RemoveChild(popup.value))])
      else p;
    if overlay.Some? && overlay.value in p1.body then p1.(body := Without(p1.body, overlay.value))
    else p1
  }

  /** A click on an element of the document: only an overlay has a listener,
      and it closes its popup and itself. */
  function Click(p: Page, h: Handle): Page
    requires Valid(p)
  {
    if h in p.body && h in p.listeners then ClosePopup(p, Some(p.listeners[h]), Some(h)) else p
  }

  /** Running a callback. The slide-in sets the popup's offset to 0; the
      removal calls `removeChild`, which throws when the popup is no longer a
      child of the body, and an exception in a timer callback changes
      nothing. */
  function Fire(p: Page, a: Action): Page
    requires a.target in p.elements
  {
    match a
    case SlideIn(h) => SetRight(p, h, ShownOffset)
    case RemoveChild(h) => if h in p.body then p.(body := Without(p.body, h)) else p
  }

  /** The pending timer that fires first: the earliest due, and among equal
      dues the one scheduled first. */
  function Earliest(timers: seq<Timer>): (i: nat)
    requires |timers| > 0
    ensures i < |timers|
    ensures forall j | 0 <= j < |timers| :: timers[i].due <= timers[j].due
    ensures forall j | 0 <= j < i :: timers[j].due > timers[i].due
    decreases |timers|
  {
    if |timers| == 1 then 0
    else
      var k := Earliest(timers[1..]) + 1;
      if timers[0].due <= timers[k].due then 0 else k
  }

  function RemoveAt<T>(s: seq<T>, i: nat): (r: seq<T>)
    requires i < |s|
    ensures |r| == |s| - 1
    ensures forall j | 0 <= j < i :: r[j] == s[j]
    ensures forall j | i <= j < |r| :: r[j] == s[j + 1]
  {
    s[..i] + s[i + 1..]
  }

  /** Let the clock run to `until`, firing every callback due by then in
      the order the event loop runs them. */
  function RunTimers(p: Page, until: int): Page
    requires Valid(p)
    decreases |p.timers|
  {
    if |p.timers| == 0 then p.(now := until)
    else
      var i := Earliest(p.timers);
      var t := p.timers[i];
      if t.due > until then p.(now := until)
      else
        var p1 := p.(now := if t.due > p.now then t.due else p.now, timers := RemoveAt(p.timers, i));
        assert Valid(p1);
        var p2 := Fire(p1, t.action);
        assert Valid(p2) by { FireKeepsValid(p1, t.action); }
        RunTimers(p2, until)
  }

  lemma FireKeepsValid(p: Page, a: Action)
    requires Valid(p) && a.target in p.elements
    ensures Valid(Fire(p, a))
  {
    if a.RemoveChild? && a.target in p.body {
      WithoutKeepsDistinct(p.body, a.target);
      var r := Without(p.body, a.target);
      forall i | 0 <= i < |r| ensures r[i] in p.elements {
        assert r[i] in r;
      }
    }
  }

  lemma {:induction false} WithoutKeepsDistinct(body: seq<Handle>, h: Handle)
    requires Distinct(body)
    ensures Distinct(Without(body, h))
    decreases |body|
  {
    if |body| > 0 {
      assert Distinct(body[1..]) by {
        forall i, j | 0 <= i < j < |body[1..]| ensures body[1..][i] != body[1..][j] {
          assert body[1..][i] == body[i + 1] && body[1..][j] == body[j + 1];
        }
      }
      WithoutKeepsDistinct(body[1..], h);
      var r := Without(body[1..], h);
      if body[0] != h {
        assert body[0] !in body[1..] by {
          forall k | 0 <= k < |body[1..]| ensures body[1..][k] != body[0] {
            assert body[1..][k] == body[k + 1];
          }
        }
        assert body[0] !in r;
        var r' := [body[0]] + r;
        forall i, j | 0 <= i < j < |r'| ensures r'[i] != r'[j] {
          assert r'[j] == r[j - 1];
          if i > 0 {
            assert r'[i] == r[i - 1];
          } else {
            assert r[j - 1] in r;
          }
        }
      }
    }
  }

  /** `setTimeout`'s clock moved on by `ms` milliseconds. */
  function Advance(p: Page, ms: nat): Page
    requires Valid(p)
  {
    RunTimers(p, p.now + ms)
  }

  // ---------------------------------------------------------------------
  // Filling the popup

  /** `updatePopupContent(summaryPopup, summary, keyHighlights,
      importantWords)`, once the template fetch has settled. A formatter
      that throws rejects the promise and leaves the popup as it was. */
  function UpdatePopupContent(p: Page, popup: Option<Handle>, summary: Value, keyHighlights: Value, importantWords: Value, outcome: FetchOutcome): (r: Page)
    requires popup.Some? ==> popup.value in p.elements
    requires importantWords.Str? ==> SafeKeywords(Keywords(importantWords.s))
    ensures r.elements.Keys == p.elements.Keys && r.body == p.body && r.timers == p.timers
  {
    if popup.None? then p
    else
      var f := FetchTemplate(p.cache, outcome);
      Show(p.(cache := f.cache), popup.value, f.template, Format(summary, keyHighlights, importantWords, f.template))
  }

  /** The end of `updatePopupContent` once the template is known and the
      formatter has run (it runs only for a non-empty template). */
  function Show(p: Page, popup: Handle, template: string, formatted: Completion<string>): (r: Page)
    requires popup in p.elements
    ensures r.elements.Keys == p.elements.Keys && r.body == p.body && r.timers == p.timers
  {
    if template == [] then SetHtml(p, popup, LoadFailedHtml)
    else match formatted
      case Throw(_) => p
      case Normal(html) => SetHtml(p, popup, if html == [] then FormatFailedHtml else html)
  }

  /** `displaySummaryPopup(summary, keyHighlights, importantWords)`. */
  function DisplaySummaryPopup(p: Page, summary: Value, keyHighlights: Value, importantWords: Value, outcome: FetchOutcome): Page
    requires importantWords.Str? ==> SafeKeywords(Keywords(importantWords.s))
  {
    var shown := DisplayEmptyPopup(p);
    assert shown.popup in shown.page.elements;
    UpdatePopupContent(shown.page, Some(shown.popup), summary, keyHighlights, importantWords, outcome)
  }

  /** The message listener of `initContentScript`: only a `displaySummary`
      message with a truthy summary shows a popup. */
  predicate Accepts(m: Message) {
    m.action == Str(DisplayAction) && m.summary.Truthy()
  }

  function OnMessage(p: Page, m: Message, outcome: FetchOutcome): Page
    requires m.importantWords.Str? ==> SafeKeywords(Keywords(m.importantWords.s))
  {
    if Accepts(m) then DisplaySummaryPopup(p, m.summary, m.keyHighlights, m.importantWords, outcome) else p
  }
}
