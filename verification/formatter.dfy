/** The content script's text formatter (`formatContentWithTemplate`): it
    turns the summary's lightweight markdown and the key-highlight lines into
    HTML, bolds the important words, and substitutes both into the popup
    template. Every regular expression of the original is modelled as the
    left-to-right scan the JavaScript engine performs for it. */
module Formatter {
  import opened JsText
  import opened JsValues

  const SummaryToken := "{{summary}}"
  const HighlightsToken := "{{keyHighlights}}"
  const KeywordSeparator := ", "

  /** Bold markup around `x`, as written by both bolding passes. */
  function Strong(x: string): string {
    "<strong>" + x + "</strong>"
  }

  // ---------------------------------------------------------------------
  // Important words

  /** `importantWords.split(', ').map(word => word.trim())`. */
  function Keywords(csv: string): (ws: seq<string>)
    ensures |ws| == |Split(csv, KeywordSeparator)| >= 1
    ensures forall i | 0 <= i < |ws| :: ws[i] == [] || (!IsJsSpace(ws[i][0]) && !IsJsSpace(ws[i][|ws[i]| - 1]))
  {
    var parts := Split(csv, KeywordSeparator);
    seq(|parts|, i requires 0 <= i < |parts| => Trim(parts[i]))
  }

  /** A character that stands for itself inside a regular expression without
      the `u` flag and inside a replacement text: ASCII, and none of
      `^$\.*+?()[{|`. A lone `]` or `}` is literal in such a pattern; `{`
      may open a quantifier. */
  predicate IsLiteralChar(c: char) {
    IsAscii(c) && c !in "^$\\.*+?()[{|"
  }

  /** A keyword the code can put into `new RegExp('\\b' + word + '\\b', 'gi')`
      unescaped and have it match itself literally; the empty keyword is
      allowed. */
  predicate SafeKeyword(w: string) {
    forall i | 0 <= i < |w| :: IsLiteralChar(w[i])
  }

  predicate SafeKeywords(ws: seq<string>) {
    forall i | 0 <= i < |ws| :: SafeKeyword(ws[i])
  }

  // ---------------------------------------------------------------------
  // Keyword bolding: text.replace(/\b<word>\b/gi, '<strong><word></strong>')

  /** Whether `t[i]` exists and is a word character. */
  predicate WordAt(t: string, i: int) {
    0 <= i < |t| && IsWordChar(t[i])
  }

  /** `\b<w>\b` (flag `i`) matches at the start of `t`, where `prevWord` says
      whether the character before `t` is a word character. `\b` holds
      between two positions whose word-ness differs; outside the string
      counts as a non-word character. */
  predicate MatchesHere(t: string, w: string, prevWord: bool) {
    && |w| <= |t|
    && FoldEq(t[..|w|], w)
    && prevWord != WordAt(t, 0)
    && (if |w| == 0 then prevWord else IsWordChar(t[|w| - 1])) != WordAt(t, |w|)
  }

  /** The global replace scan: try a match at each position from left to
      right; a match is replaced by the keyword's own spelling in bold and
      the scan resumes after it; an empty match (only the empty keyword has
      one) inserts the markup and the scan moves on by one character. */
  function BoldScan(t: string, w: string, prevWord: bool): string
    decreases |t|
  {
    if MatchesHere(t, w, prevWord) then
      if |w| == 0 then
        Strong(w) + (if |t| == 0 then [] else [t[0]] + BoldScan(t[1..], w, IsWordChar(t[0])))
      else
        Strong(w) + BoldScan(t[|w|..], w, IsWordChar(t[|w| - 1]))
    else if |t| == 0 then []
    else [t[0]] + BoldScan(t[1..], w, IsWordChar(t[0]))
  }

  /** One step of `boldImportantWords`: bold every whole-word,
      case-insensitive occurrence of `w` in `t`. */
  function BoldWord(t: string, w: string): string {
    BoldScan(t, w, false)
  }

  /** `boldImportantWords`: a left fold of `BoldWord` over the keywords, in
      list order. */
  function BoldAll(t: string, ws: seq<string>): string
    decreases |ws|
  {
    if |ws| == 0 then t else BoldAll(BoldWord(t, ws[0]), ws[1..])
  }

  // ---------------------------------------------------------------------
  // Summary markdown: three passes in a fixed order

  /** `**` starts at `t[i]`. */
  predicate StarsAt(t: string, i: int) {
    0 <= i && i + 1 < |t| && t[i] == '*' && t[i + 1] == '*'
  }

  /** No line terminator in `t[a..b]`. */
  predicate LineFree(t: string, a: int, b: int)
    requires 0 <= a && b <= |t|
  {
    forall m | a <= m < b :: !IsLineTerminator(t[m])
  }

  /** The lazy `(.*?)` followed by `\*\*`, searched from `t[j]`: the first
      `k >= j` at which `**` starts with no line terminator in `t[j..k]`; -1
      when there is none. */
  function CloseAt(t: string, j: nat): (k: int)
    requires j <= |t|
    ensures k == -1 || (j <= k && StarsAt(t, k) && LineFree(t, j, k))
    ensures k >= 0 ==> forall i | j <= i < k :: !StarsAt(t, i)
    ensures k == -1 ==> forall i | j <= i < |t| && LineFree(t, j, i) :: !StarsAt(t, i)
    decreases |t| - j
  {
    if StarsAt(t, j) then j
    else if j < |t| && !IsLineTerminator(t[j]) then CloseAt(t, j + 1)
    else -1
  }

  /** Replacing every match of the pattern `\*\*(.*?)\*\*` (flag `g`) by
      `<strong>$1</strong>`. */
  function MarkdownBold(t: string): string
    decreases |t|
  {
    if StarsAt(t, 0) && CloseAt(t, 2) >= 0 then
      var k := CloseAt(t, 2);
      Strong(t[2..k]) + MarkdownBold(t[k + 2..])
    else if |t| == 0 then []
    else [t[0]] + MarkdownBold(t[1..])
  }

  /** Index of the first line terminator at or after `i`, or `|t|`. */
  function LineEnd(t: string, i: nat): (e: nat)
    requires i <= |t|
    ensures i <= e <= |t|
    ensures forall m | i <= m < e :: !IsLineTerminator(t[m])
    ensures e < |t| ==> IsLineTerminator(t[e])
    decreases |t| - i
  {
    if i == |t| || IsLineTerminator(t[i]) then i else LineEnd(t, i + 1)
  }

  /** Replacing every match of `^- (.*)$` (flags `g` and `m`) by
      `<li>$1</li>`: `atLineStart` says whether `^` holds at the start of `t`
      (start of input or after a line terminator). */
  function ListItems(t: string, atLineStart: bool): string
    decreases |t|
  {
    if atLineStart && |t| >= 2 && t[0] == '-' && t[1] == ' ' then
      var e := LineEnd(t, 2);
      "<li>" + t[2..e] + "</li>" + ListItems(t[e..], false)
    else if |t| == 0 then []
    else [t[0]] + ListItems(t[1..], IsLineTerminator(t[0]))
  }

  /** Length of the whitespace run at the start of `t`. */
  function SpaceRun(t: string): (n: nat)
    ensures n <= |t|
    ensures AllSpace(t[..n])
    ensures n < |t| ==> !IsJsSpace(t[n])
    decreases |t|
  {
    if |t| > 0 && IsJsSpace(t[0]) then
      var n := 1 + SpaceRun(t[1..]);
      assert t[..n] == [t[0]] + t[1..][..n - 1];
      n
    else 0
  }

  /** Index of the last `\n` in `t[..n]`, or -1. */
  function LastNewline(t: string, n: nat): (j: int)
    requires n <= |t|
    ensures -1 <= j < n
    ensures j >= 0 ==> t[j] == '\n'
    ensures forall m | j < m < n :: t[m] != '\n'
    decreases n
  {
    if n == 0 then -1 else if t[n - 1] == '\n' then n - 1 else LastNewline(t, n - 1)
  }

  /** Replacing every match of `(\n\s*\n)` (flag `g`) by `</p><p>`: a `\n` followed, within the
      whitespace run after it, by another `\n` starts a match, which the
      greedy `\s*` stretches to the last `\n` of that run. */
  function Paragraphs(t: string): string
    decreases |t|
  {
    if |t| == 0 then []
    else if t[0] == '\n' && LastNewline(t[1..], SpaceRun(t[1..])) >= 0 then
      var j := LastNewline(t[1..], SpaceRun(t[1..]));
      "</p><p>" + Paragraphs(t[j + 2..])
    else [t[0]] + Paragraphs(t[1..])
  }

  /** The summary's markdown rewritten, before keyword bolding. */
  function SummaryHtml(summary: string): string {
    Paragraphs(ListItems(MarkdownBold(summary), true))
  }

  // ---------------------------------------------------------------------
  // Key highlights

  /** Removing a match of `^- ` (no flags): at most one leading "- " goes. */
  function StripBullet(line: string): (r: string)
    ensures line == r || line == "- " + r
  {
    if |line| >= 2 && line[0] == '-' && line[1] == ' ' then
      assert line == "- " + line[2..];
      line[2..]
    else line
  }

  function Item(content: string): string {
    "<li>" + content + "</li>"
  }

  /** `lines.map(line => '<li>' + stripped + '</li>').join('')`. */
  function Items(lines: seq<string>): string
    decreases |lines|
  {
    if |lines| == 0 then [] else Item(StripBullet(lines[0])) + Items(lines[1..])
  }

  /** The key highlights as list items, before keyword bolding. */
  function HighlightsHtml(keyHighlights: string): string {
    Items(Split(keyHighlights, "\n"))
  }

  // ---------------------------------------------------------------------
  // The whole formatter

  /** `formatContentWithTemplate(summary, keyHighlights, importantWords,
      template)`. A non-string argument makes `split`/`replace` throw a
      TypeError. */
  function Format(summary: Value, keyHighlights: Value, importantWords: Value, template: string): (r: Completion<string>)
    requires importantWords.Str? ==> SafeKeywords(Keywords(importantWords.s))
    ensures r.Normal? <==> summary.Str? && keyHighlights.Str? && importantWords.Str?
  {
    if !importantWords.Str? then Throw("TypeError: importantWords.split is not a function")
    else if !summary.Str? then Throw("TypeError: summary.replace is not a function")
    else if !keyHighlights.Str? then Throw("TypeError: keyHighlights.split is not a function")
    else
      var ws := Keywords(importantWords.s);
      var withSummary := ReplaceFirst(template, SummaryToken, BoldAll(SummaryHtml(summary.s), ws));
      Normal(ReplaceFirst(withSummary, HighlightsToken, BoldAll(HighlightsHtml(keyHighlights.s), ws)))
  }
}
