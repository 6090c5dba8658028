/** Properties of the content script: the template cache settles on the
    first non-empty template, the popup pair is appended without any guard,
    closing removes the overlay at once and the popup once its timer is due,
    filling the popup touches nothing but the popup's content and the cache,
    and the message listener shows a popup exactly for an accepted
    message. */
module ContentScriptProofs {
  import opened Options
  import opened JsValues
  import opened Formatter
  import opened ExtensionMessages
  import opened ContentScript

  // ---------------------------------------------------------------------
  // Template cache

  /** What a series of `fetchTemplate()` calls resolves to, the cache left
      behind, and how many of them went to the network. */
  datatype Series = Series(templates: seq<string>, cache: TemplateCache, requests: nat)

  /** One `fetchTemplate()` call per entry of `outcomes`, each settling
      before the next starts. */
  function FetchEach(cache: TemplateCache, outcomes: seq<FetchOutcome>): (r: Series)
    ensures |r.templates| == |outcomes|
    ensures r.requests <= |outcomes|
    decreases |outcomes|
  {
    if |outcomes| == 0 then Series([], cache, 0)
    else
      var f := FetchTemplate(cache, outcomes[0]);
      var rest := FetchEach(f.cache, outcomes[1..]);
      Series([f.template] + rest.templates, rest.cache, (if f.fetched then 1 else 0) + rest.requests)
  }

  /** A fetch that delivers a usable template. */
  predicate Delivers(o: FetchOutcome) {
    o.Fetched? && o.body != []
  }

  /** With a non-empty template cached, every later call returns it and none
      goes to the network, whatever the network would have answered. */
  lemma {:induction false} CachedTemplateIsFinal(cache: TemplateCache, outcomes: seq<FetchOutcome>)
    requires cache.Usable()
    ensures var r := FetchEach(cache, outcomes);
      && r.requests == 0
      && r.cache == cache
      && forall j | 0 <= j < |outcomes| :: r.templates[j] == cache.template
    decreases |outcomes|
  {
    if |outcomes| > 0 {
      CachedTemplateIsFinal(cache, outcomes[1..]);
    }
  }

  /** Until a fetch delivers a non-empty body, every call goes to the
      network; the first such body is cached and returned by that call and
      by every call after it, so the network is asked exactly `k + 1` times. */
  lemma {:induction false} CacheSettlesOnFirstTemplate(cache: TemplateCache, outcomes: seq<FetchOutcome>, k: nat)
    requires !cache.Usable()
    requires k < |outcomes| && Delivers(outcomes[k])
    requires forall j | 0 <= j < k :: !Delivers(outcomes[j])
    ensures var r := FetchEach(cache, outcomes);
      && r.requests == k + 1
      && r.cache == Cached(outcomes[k].body)
      && forall j | k <= j < |outcomes| :: r.templates[j] == outcomes[k].body
    decreases k
  {
    var f := FetchTemplate(cache, outcomes[0]);
    if k == 0 {
      CachedTemplateIsFinal(f.cache, outcomes[1..]);
    } else {
      assert !Delivers(outcomes[0]);
      assert !f.cache.Usable();
      assert forall j | 0 <= j < k - 1 :: outcomes[1..][j] == outcomes[j + 1];
      CacheSettlesOnFirstTemplate(f.cache, outcomes[1..], k - 1);
    }
  }

  /** While no fetch delivers a non-empty body, every call goes to the
      network and resolves to the empty string: a failed fetch returns `''`,
      and an empty body is cached but not used. */
  lemma {:induction false} NoTemplateMeansEveryCallFetches(cache: TemplateCache, outcomes: seq<FetchOutcome>)
    requires !cache.Usable()
    requires forall j | 0 <= j < |outcomes| :: !Delivers(outcomes[j])
    ensures var r := FetchEach(cache, outcomes);
      && r.requests == |outcomes|
      && !r.cache.Usable()
      && forall j | 0 <= j < |outcomes| :: r.templates[j] == []
    decreases |outcomes|
  {
    if |outcomes| > 0 {
      var f := FetchTemplate(cache, outcomes[0]);
      assert !f.cache.Usable();
      assert forall j | 0 <= j < |outcomes| - 1 :: outcomes[1..][j] == outcomes[j + 1];
      NoTemplateMeansEveryCallFetches(f.cache, outcomes[1..]);
    }
  }

  /** A failed fetch resolves to `''` and leaves the cache as it was; a
      resolved fetch caches and returns its body whatever the status. */
  lemma FetchOutcomes(cache: TemplateCache, body: string)
    requires !cache.Usable()
    ensures FetchTemplate(cache, FetchFailed) == TemplateFetch([], cache, true)
    ensures FetchTemplate(cache, Fetched(body)) == TemplateFetch(body, Cached(body), true)
  {
  }

  // ---------------------------------------------------------------------
  // Showing the popup

  /** `displayEmptyPopup` appends exactly a new overlay and then a new popup
      showing the loading message, schedules the slide-in 10 ms ahead, makes
      the overlay close the popup, and keeps everything already there. */
  lemma DisplayEmptyPopupAppends(p: Page)
    requires Valid(p)
    ensures var s := DisplayEmptyPopup(p);
      && Valid(s.page)
      && s.overlay !in p.elements && s.popup !in p.elements && s.overlay != s.popup
      && s.page.body == p.body + [s.overlay, s.popup]
      && s.page.elements[s.overlay] == Element(OverlayId, [], [])
      && s.page.elements[s.popup] == Element(PopupId, LoadingHtml, [])
      && (forall h | h in p.elements :: h in s.page.elements && s.page.elements[h] == p.elements[h])
      && s.page.timers == p.timers + [Timer(p.now + SlideInDelay, SlideIn(s.popup))]
      && s.page.listeners[s.overlay] == s.popup
      && s.page.cache == p.cache && s.page.now == p.now
  {
    var s := DisplayEmptyPopup(p);
    var b := s.page.body;
    assert forall i | 0 <= i < |p.body| :: b[i] == p.body[i];
    assert b[|p.body|] == s.overlay && b[|p.body| + 1] == s.popup;
    assert forall i | 0 <= i < |p.body| :: b[i] < p.nextHandle;
    forall i | 0 <= i < |s.page.timers| ensures s.page.timers[i].action.target in s.page.elements {
      if i < |p.timers| {
        assert s.page.timers[i] == p.timers[i];
      }
    }
  }

  /** Nothing prevents a second popup: showing twice leaves two overlays and
      two popups, all distinct, in the document. */
  lemma SecondPopupIsNotPrevented(p: Page)
    requires Valid(p)
    ensures var s1 := DisplayEmptyPopup(p);
      var s2 := DisplayEmptyPopup(s1.page);
      && s2.page.body == p.body + [s1.overlay, s1.popup, s2.overlay, s2.popup]
      && s2.page.elements[s1.popup].id == PopupId == s2.page.elements[s2.popup].id
      && s1.popup != s2.popup && s1.overlay != s2.overlay
  {
    var s1 := DisplayEmptyPopup(p);
    DisplayEmptyPopupAppends(p);
    DisplayEmptyPopupAppends(s1.page);
  }

  // ---------------------------------------------------------------------
  // Closing

  /** `closePopup` removes an overlay in the document at once, keeping the
      other children in order; it pushes a popup in the document off-screen
      and schedules its removal 500 ms ahead; it leaves alone any element not
      in the document. */
  lemma ClosePopupEffect(p: Page, popup: Handle, overlay: Option<Handle>)
    requires Valid(p) && popup in p.elements
    requires overlay.Some? ==> overlay.value != popup
    ensures var c := ClosePopup(p, Some(popup), overlay);
      && Valid(c)
      && (overlay.Some? && overlay.value in p.body ==> overlay.value !in c.body)
      && (forall x :: x in c.body <==> x in p.body && (overlay.None? || x != overlay.value))
      && (popup in p.body ==>
            && c.timers == p.timers + [Timer(p.now + RemovalDelay, RemoveChild(popup))]
            && c.elements[popup].right == HiddenOffset
            && popup in c.body)
      && (popup !in p.body ==> c.timers == p.timers && c.elements == p.elements)
      && c.cache == p.cache && c.now == p.now
  {
    var c := ClosePopup(p, Some(popup), overlay);
    if popup in p.body {
      var p1 := SetRight(p, popup, HiddenOffset).(timers := p.timers + [Timer(p.now + RemovalDelay, RemoveChild(popup))]);
      forall i | 0 <= i < |p1.timers| ensures p1.timers[i].action.target in p1.elements {
        if i < |p.timers| {
          assert p1.timers[i] == p.timers[i];
        }
      }
      assert Valid(p1);
    }
    if overlay.Some? && overlay.value in p.body {
      WithoutKeepsDistinct(p.body, overlay.value);
      var r := Without(p.body, overlay.value);
      forall i | 0 <= i < |r| ensures r[i] in p.elements {
        assert r[i] in r;
      }
    }
  }

  /** Closing elements that are not in the document changes nothing. */
  lemma CloseAbsentChangesNothing(p: Page, popup: Option<Handle>, overlay: Option<Handle>)
    requires popup.Some? ==> popup.value in p.elements && popup.value !in p.body
    requires overlay.Some? ==> overlay.value !in p.body
    ensures ClosePopup(p, popup, overlay) == p
  {
  }

  // ---------------------------------------------------------------------
  // The clock

  /** `r` differs from `p` at most by moved popups and removed children: no
      element is created or rewritten, nothing joins the body, and the cache
      and listeners stay. */
  predicate OnlyMovedOrRemoved(p: Page, r: Page) {
    && r.elements.Keys == p.elements.Keys
    && (forall h | h in p.elements :: h in r.elements && r.elements[h].id == p.elements[h].id && r.elements[h].innerHtml == p.elements[h].innerHtml)
    && (forall x | x in r.body :: x in p.body)
    && r.cache == p.cache && r.listeners == p.listeners && r.nextHandle == p.nextHandle
  }

  /** The first step of the clock: the earliest pending callback is due, so
      it is taken off the queue and run with the clock at its due time. */
  function FirstDue(p: Page): (q: Page)
    requires Valid(p) && |p.timers| > 0
    ensures Valid(q)
  {
    var i := Earliest(p.timers);
    var t := p.timers[i];
    var p1 := p.(now := if t.due > p.now then t.due else p.now, timers := RemoveAt(p.timers, i));
    assert Valid(p1);
    FireKeepsValid(p1, t.action);
    Fire(p1, t.action)
  }

  lemma FirstDueStep(p: Page, until: int)
    requires Valid(p) && |p.timers| > 0 && p.timers[Earliest(p.timers)].due <= until
    ensures RunTimers(p, until) == RunTimers(FirstDue(p), until)
    ensures FirstDue(p).timers == RemoveAt(p.timers, Earliest(p.timers))
    ensures OnlyMovedOrRemoved(p, FirstDue(p))
  {
    var t := p.timers[Earliest(p.timers)];
    var p1 := p.(now := if t.due > p.now then t.due else p.now, timers := RemoveAt(p.timers, Earliest(p.timers)));
    FireOnlyMovesOrRemoves(p1, t.action);
  }

  /** A callback moves its popup or removes its element, nothing more. */
  lemma FireOnlyMovesOrRemoves(p: Page, a: Action)
    requires a.target in p.elements
    ensures OnlyMovedOrRemoved(p, Fire(p, a))
    ensures Fire(p, a).timers == p.timers && Fire(p, a).now == p.now
    ensures a.RemoveChild? ==> a.target !in Fire(p, a).body
  {
  }

  /** Running the due callbacks only moves popups and removes children, and
      leaves the clock at `until`. */
  lemma {:induction false} TimersOnlyMoveAndRemove(p: Page, until: int)
    requires Valid(p)
    ensures Valid(RunTimers(p, until))
    ensures OnlyMovedOrRemoved(p, RunTimers(p, until))
    ensures RunTimers(p, until).now == until
    decreases |p.timers|
  {
    if |p.timers| > 0 && p.timers[Earliest(p.timers)].due <= until {
      var q := FirstDue(p);
      FirstDueStep(p, until);
      TimersOnlyMoveAndRemove(q, until);
    }
  }

  /** A pending removal that is due by `until` has happened by then (or
      found its element already gone). */
  lemma {:induction false} DueRemovalHappens(p: Page, until: int, k: nat)
    requires Valid(p)
    requires k < |p.timers| && p.timers[k].action.RemoveChild? && p.timers[k].due <= until
    ensures p.timers[k].action.target !in RunTimers(p, until).body
    decreases |p.timers|
  {
    var i := Earliest(p.timers);
    var q := FirstDue(p);
    FirstDueStep(p, until);
    if i == k {
      TimersOnlyMoveAndRemove(q, until);
    } else {
      var k' := if k < i then k else k - 1;
      assert q.timers[k'] == p.timers[k];
      DueRemovalHappens(q, until, k');
    }
  }

  /** A removal callback whose element is already gone does nothing (the
      `removeChild` error stays inside the callback). */
  lemma RemovingAbsentChildIsHarmless(p: Page, h: Handle)
    requires h in p.elements && h !in p.body
    ensures Fire(p, RemoveChild(h)) == p
  {
  }

  /** Closing a popup shown on a valid page and letting 500 ms pass removes
      both elements; nothing joins the document meanwhile. */
  lemma CloseThenWaitRemovesPair(p: Page, popup: Handle, overlay: Handle)
    requires Valid(p) && popup in p.body && overlay != popup
    ensures Valid(ClosePopup(p, Some(popup), Some(overlay)))
    ensures var c := ClosePopup(p, Some(popup), Some(overlay));
      var later := Advance(c, RemovalDelay);
      && popup !in later.body && overlay !in later.body
      && (forall x | x in later.body :: x in p.body)
  {
    var c := ClosePopup(p, Some(popup), Some(overlay));
    ClosePopupEffect(p, popup, Some(overlay));
    var k := |c.timers| - 1;
    assert c.timers[k] == Timer(c.now + RemovalDelay, RemoveChild(popup));
    WaitRemoves(c, c.now + RemovalDelay, k, overlay);
  }

  /** Once a removal of some element is due, running the clock leaves that
      element out of the document, keeps out an element already gone, and
      lets nothing new in. */
  lemma WaitRemoves(c: Page, until: int, k: nat, gone: Handle)
    requires Valid(c)
    requires k < |c.timers| && c.timers[k].action.RemoveChild? && c.timers[k].due <= until
    requires gone !in c.body
    ensures c.timers[k].action.target !in RunTimers(c, until).body
    ensures gone !in RunTimers(c, until).body
    ensures forall x | x in RunTimers(c, until).body :: x in c.body
  {
    DueRemovalHappens(c, until, k);
    TimersOnlyMoveAndRemove(c, until);
  }

  /** Clicking the overlay of a popup just shown closes the pair: the
      overlay leaves at once, the popup stays until 500 ms later, and then
      the document holds only what it held before the popup was shown. */
  lemma ClickThenWaitRemovesPair(p: Page)
    requires Valid(p)
    ensures Valid(DisplayEmptyPopup(p).page)
    ensures var s := DisplayEmptyPopup(p);
      && Click(s.page, s.overlay) == ClosePopup(s.page, Some(s.popup), Some(s.overlay))
      && s.overlay !in Click(s.page, s.overlay).body
      && s.popup in Click(s.page, s.overlay).body
      && Valid(Click(s.page, s.overlay))
    ensures var s := DisplayEmptyPopup(p);
      var later := Advance(Click(s.page, s.overlay), RemovalDelay);
      && s.popup !in later.body && s.overlay !in later.body
      && (forall x | x in later.body :: x in p.body)
  {
    var s := DisplayEmptyPopup(p);
    DisplayEmptyPopupAppends(p);
    assert s.overlay in s.page.body && s.popup in s.page.body;
    ClosePopupEffect(s.page, s.popup, Some(s.overlay));
    CloseThenWaitRemovesPair(s.page, s.popup, s.overlay);
    var later := Advance(Click(s.page, s.overlay), RemovalDelay);
    forall x | x in later.body
      ensures x in p.body
    {
      assert x in s.page.body && x != s.overlay && x != s.popup;
    }
  }

  /** Closing the same popup twice schedules two removals; the second finds
      the popup gone and does nothing, and the pair is gone 500 ms later. */
  lemma DoubleCloseIsHarmless(p: Page, popup: Handle, overlay: Handle)
    requires Valid(p) && popup in p.body && overlay != popup
    ensures Valid(ClosePopup(ClosePopup(p, Some(popup), Some(overlay)), Some(popup), Some(overlay)))
    ensures var c2 := ClosePopup(ClosePopup(p, Some(popup), Some(overlay)), Some(popup), Some(overlay));
      var later := Advance(c2, RemovalDelay);
      && |c2.timers| == |p.timers| + 2
      && popup !in later.body && overlay !in later.body
  {
    var c1 := ClosePopup(p, Some(popup), Some(overlay));
    ClosePopupEffect(p, popup, Some(overlay));
    var c2 := ClosePopup(c1, Some(popup), Some(overlay));
    ClosePopupEffect(c1, popup, Some(overlay));
    var k := |c2.timers| - 1;
    assert c2.timers[k] == Timer(c2.now + RemovalDelay, RemoveChild(popup));
    WaitRemoves(c2, c2.now + RemovalDelay, k, overlay);
  }

  /** Closing within the first 10 ms does not cancel the slide-in: its
      callback still runs and brings the closing popup back on-screen, and
      the popup is removed 500 ms after the close all the same. */
  lemma EarlyCloseSlidesBackIn(p: Page)
    requires Valid(p) && p.timers == []
    ensures Valid(DisplayEmptyPopup(p).page)
    ensures var s := DisplayEmptyPopup(p);
      var c := ClosePopup(s.page, Some(s.popup), Some(s.overlay));
      && Valid(c)
      && c.elements[s.popup].right == HiddenOffset
      && s.popup in Advance(c, SlideInDelay).elements
      && Advance(c, SlideInDelay).elements[s.popup].right == ShownOffset
      && s.popup in Advance(c, SlideInDelay).body
      && s.popup !in Advance(c, RemovalDelay).body
  {
    var s := DisplayEmptyPopup(p);
    DisplayEmptyPopupAppends(p);
    var c := ClosePopup(s.page, Some(s.popup), Some(s.overlay));
    ClosePopupEffect(s.page, s.popup, Some(s.overlay));
    var slide := Timer(p.now + SlideInDelay, SlideIn(s.popup));
    var removal := Timer(p.now + RemovalDelay, RemoveChild(s.popup));
    assert c.timers == [slide, removal];
    assert Earliest(c.timers) == 0;
    var q := FirstDue(c);
    FirstDueStep(c, p.now + SlideInDelay);
    assert q.timers == [removal];
    assert q.elements[s.popup].right == ShownOffset;
    assert RunTimers(q, p.now + SlideInDelay) == q.(now := p.now + SlideInDelay);
    DueRemovalHappens(c, p.now + RemovalDelay, 1);
  }

  // ---------------------------------------------------------------------
  // Filling the popup

  /** `updatePopupContent` with a null popup does nothing, not even fetch
      the template. */
  lemma UpdateWithoutPopupChangesNothing(p: Page, summary: Value, keyHighlights: Value, importantWords: Value, outcome: FetchOutcome)
    requires importantWords.Str? ==> SafeKeywords(Keywords(importantWords.s))
    ensures UpdatePopupContent(p, None, summary, keyHighlights, importantWords, outcome) == p
  {
  }

  /** Showing a result changes nothing but the popup's content, which is
      the load failure for an empty template, unchanged when formatting
      threw, the format failure for an empty result, and the formatted HTML
      otherwise. */
  lemma ShowWrites(p: Page, h: Handle, template: string, formatted: Completion<string>)
    requires h in p.elements
    ensures var u := Show(p, h, template, formatted);
      && u.cache == p.cache && u.body == p.body && u.timers == p.timers && u.listeners == p.listeners
      && u.nextHandle == p.nextHandle && u.now == p.now
      && u.elements.Keys == p.elements.Keys
      && (forall x | x in p.elements && x != h :: u.elements[x] == p.elements[x])
      && u.elements[h].id == p.elements[h].id && u.elements[h].right == p.elements[h].right
      && (template == [] ==> u.elements[h].innerHtml == LoadFailedHtml)
      && (template != [] && formatted.Throw? ==> u.elements[h] == p.elements[h])
      && (template != [] && formatted == Normal([]) ==> u.elements[h].innerHtml == FormatFailedHtml)
      && (template != [] && formatted.Normal? && formatted.value != [] ==> u.elements[h].innerHtml == formatted.value)
  {
  }

  /** Filling a popup changes nothing but that popup's content and the
      template cache. */
  lemma UpdatePopupContentFrame(p: Page, h: Handle, summary: Value, keyHighlights: Value, importantWords: Value, outcome: FetchOutcome)
    requires h in p.elements
    requires importantWords.Str? ==> SafeKeywords(Keywords(importantWords.s))
    ensures var u := UpdatePopupContent(p, Some(h), summary, keyHighlights, importantWords, outcome);
      && u.cache == FetchTemplate(p.cache, outcome).cache
      && u.body == p.body && u.timers == p.timers && u.listeners == p.listeners
      && u.nextHandle == p.nextHandle && u.now == p.now
      && u.elements.Keys == p.elements.Keys
      && (forall x | x in p.elements && x != h :: u.elements[x] == p.elements[x])
      && u.elements[h].id == p.elements[h].id && u.elements[h].right == p.elements[h].right
  {
    var f := FetchTemplate(p.cache, outcome);
    ShowWrites(p.(cache := f.cache), h, f.template, Format(summary, keyHighlights, importantWords, f.template));
  }

  /** What a popup shows after `updatePopupContent`: the load failure for
      an empty template; what it showed before when formatting throws; the
      format failure for an empty result; the formatted HTML otherwise. */
  lemma UpdatePopupContentWrites(p: Page, h: Handle, summary: Value, keyHighlights: Value, importantWords: Value, outcome: FetchOutcome,
                                 template: string, r: Completion<string>, u: Page)
    requires h in p.elements
    requires importantWords.Str? ==> SafeKeywords(Keywords(importantWords.s))
    requires template == FetchTemplate(p.cache, outcome).template
    requires r == Format(summary, keyHighlights, importantWords, template)
    requires u == UpdatePopupContent(p, Some(h), summary, keyHighlights, importantWords, outcome)
    ensures h in u.elements
    ensures var shown := u.elements[h];
         && (template == [] ==> shown.innerHtml == LoadFailedHtml)
         && (template != [] && r.Throw? ==> shown == p.elements[h])
         && (template != [] && r == Normal([]) ==> shown.innerHtml == FormatFailedHtml)
         && (template != [] && r.Normal? && r.value != [] ==> shown.innerHtml == r.value)
  {
    var f := FetchTemplate(p.cache, outcome);
    var q := p.(cache := f.cache);
    assert u == Show(q, h, template, r);
    assert q.elements == p.elements;
    ShowWrites(q, h, template, r);
  }

  /** Without important words the formatter throws before writing anything,
      so a popup that could load its template keeps whatever it showed. */
  lemma MissingWordsKeepPopupContent(p: Page, h: Handle, summary: Value, keyHighlights: Value, outcome: FetchOutcome)
    requires h in p.elements
    requires FetchTemplate(p.cache, outcome).template != []
    ensures UpdatePopupContent(p, Some(h), summary, keyHighlights, Undefined, outcome).elements[h] == p.elements[h]
  {
  }

  // ---------------------------------------------------------------------
  // The message listener

  /** `displaySummaryPopup` appends a fresh overlay and popup, schedules the
      slide-in and fills the popup; what was already on the page keeps its
      place and content, and only the template cache may change. */
  lemma DisplaySummaryPopupAppendsFilledPair(p: Page, summary: Value, keyHighlights: Value, importantWords: Value, outcome: FetchOutcome)
    requires Valid(p)
    requires importantWords.Str? ==> SafeKeywords(Keywords(importantWords.s))
    ensures var s := DisplayEmptyPopup(p);
      var q := DisplaySummaryPopup(p, summary, keyHighlights, importantWords, outcome);
      && s.overlay !in p.elements && s.popup !in p.elements
      && q.body == p.body + [s.overlay, s.popup]
      && q.timers == p.timers + [Timer(p.now + SlideInDelay, SlideIn(s.popup))]
      && s.overlay in q.listeners && q.listeners[s.overlay] == s.popup
      && s.overlay in q.elements && q.elements[s.overlay] == Element(OverlayId, [], [])
      && s.popup in q.elements && q.elements[s.popup].id == PopupId
      && q.cache == FetchTemplate(p.cache, outcome).cache
      && (forall h | h in p.elements :: h in q.elements && q.elements[h] == p.elements[h])
  {
    var s := DisplayEmptyPopup(p);
    DisplayEmptyPopupAppends(p);
    UpdatePopupContentFrame(s.page, s.popup, summary, keyHighlights, importantWords, outcome);
  }

  /** A message shows a new popup exactly when its action is
      `displaySummary` and its summary is truthy; any other message leaves
      the page as it was. */
  lemma OnMessageShowsPopupIffAccepted(p: Page, m: Message, outcome: FetchOutcome)
    requires Valid(p)
    requires m.importantWords.Str? ==> SafeKeywords(Keywords(m.importantWords.s))
    ensures var q := OnMessage(p, m, outcome);
      && (Accepts(m) <==> |q.body| == |p.body| + 2)
      && (!Accepts(m) ==> q == p)
      && (Accepts(m) ==> q.body[..|p.body|] == p.body && q.elements[q.body[|p.body| + 1]].id == PopupId)
  {
    if Accepts(m) {
      var s := DisplayEmptyPopup(p);
      DisplayEmptyPopupAppends(p);
      UpdatePopupContentFrame(s.page, s.popup, m.summary, m.keyHighlights, m.importantWords, outcome);
      assert (p.body + [s.overlay, s.popup])[..|p.body|] == p.body;
    }
  }
}
