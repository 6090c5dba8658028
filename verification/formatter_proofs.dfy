/** Properties of the text formatter: how the important words are parsed,
    what keyword bolding does (against an independent word-by-word
    definition), what each markdown pass does to a line or a whitespace run,
    how the key highlights become list items, and how the two placeholders
    are substituted. */
module FormatterProofs {
  import opened JsText
  import opened JsValues
  import opened Formatter

  // ---------------------------------------------------------------------
  // Important words

  /** A list of trimmed words without ", " inside survives being written as
      "w1, w2, ..." and parsed back. */
  lemma KeywordsRoundTrip(ws: seq<string>)
    requires |ws| >= 1
    requires forall i | 0 <= i < |ws| :: !Contains(ws[i], KeywordSeparator)
    requires forall i | 0 <= i < |ws| :: ws[i] == [] || (!IsJsSpace(ws[i][0]) && !IsJsSpace(ws[i][|ws[i]| - 1]))
    ensures Keywords(Join(ws, KeywordSeparator)) == ws
  {
    var csv := Join(ws, KeywordSeparator);
    assert Split(csv, KeywordSeparator) == ws by {
      SplitJoin(ws, KeywordSeparator);
    }
    var ks := Keywords(csv);
    forall i | 0 <= i < |ws|
      ensures ks[i] == ws[i]
    {
      assert ks[i] == Trim(ws[i]);
      TrimmedIsFixed(ws[i]);
    }
  }

  /** `trim` leaves a string that neither starts nor ends with whitespace
      unchanged. */
  lemma TrimmedIsFixed(x: string)
    requires x == [] || (!IsJsSpace(x[0]) && !IsJsSpace(x[|x| - 1]))
    ensures Trim(x) == x
  {
    TrimPadded([], x, []);
    assert [] + x + [] == x;
  }

  /** Each keyword is the trimmed text between two ", " separators, and the
      separators are the only thing the parse drops besides whitespace. */
  lemma KeywordsAreTrimmedPieces(csv: string)
    ensures var parts := Split(csv, KeywordSeparator);
      && Join(parts, KeywordSeparator) == csv
      && forall i | 0 <= i < |parts| :: Keywords(csv)[i] == Trim(parts[i])
  {
    JoinSplit(csv, KeywordSeparator);
  }

  /** An empty important-words string does not give an empty list: it gives
      the one keyword "". */
  lemma EmptyWordsGiveEmptyKeyword()
    ensures Keywords("") == [""]
  {
    assert Split("", KeywordSeparator) == [""];
    assert Trim("") == "";
  }

  // ---------------------------------------------------------------------
  // Keyword bolding

  /** The bolding passes run in list order: adding a keyword at the end of
      the list applies it last, to the output of all the others. */
  lemma {:induction false} BoldAllAppend(t: string, ws: seq<string>, w: string)
    ensures BoldAll(t, ws + [w]) == BoldWord(BoldAll(t, ws), w)
    decreases |ws|
  {
    if |ws| == 0 {
      assert ws + [w] == [w];
      assert [w][1..] == [];
    } else {
      assert (ws + [w])[1..] == ws[1..] + [w];
      BoldAllAppend(BoldWord(t, ws[0]), ws[1..], w);
    }
  }

  predicate AllWordChars(w: string) {
    forall i | 0 <= i < |w| :: IsWordChar(w[i])
  }

  /** Length of the run of word characters at the start of `t`. */
  function WordRun(t: string): (n: nat)
    ensures n <= |t|
    ensures forall i | 0 <= i < n :: IsWordChar(t[i])
    ensures n < |t| ==> !IsWordChar(t[n])
    decreases |t|
  {
    if |t| > 0 && IsWordChar(t[0]) then 1 + WordRun(t[1..]) else 0
  }

  /** Reference definition of bolding one keyword, independent of any
      regular-expression scan: cut the text into maximal runs of word
      characters and single other characters, and replace each run that
      equals the keyword up to ASCII case by the keyword in bold. */
  function BoldWords(t: string, w: string): string
    decreases |t|
  {
    if |t| == 0 then []
    else if IsWordChar(t[0]) then
      var n := WordRun(t);
      (if FoldEq(t[..n], w) then Strong(w) else t[..n]) + BoldWords(t[n..], w)
    else [t[0]] + BoldWords(t[1..], w)
  }

  lemma FoldEqKeepsWordChars(a: string, b: string)
    requires FoldEq(a, b)
    ensures forall i | 0 <= i < |a| :: IsWordChar(a[i]) <==> IsWordChar(b[i])
  {
    forall i | 0 <= i < |a|
      ensures IsWordChar(a[i]) <==> IsWordChar(b[i])
    {
      assert AsciiLower(a[i]) == AsciiLower(b[i]);
    }
  }

  /** A keyword of word characters cannot match where the text does not
      start with a word character. */
  lemma NoMatchAtNonWord(t: string, w: string, prevWord: bool)
    requires |w| > 0 && AllWordChars(w)
    requires t == [] || !IsWordChar(t[0])
    ensures !MatchesHere(t, w, prevWord)
  {
    if |t| > 0 && |w| <= |t| {
      assert t[..|w|][0] == t[0];
      assert AsciiLower(t[0]) != AsciiLower(w[0]);
      assert !FoldEq(t[..|w|], w);
    }
  }

  /** A text shorter than the keyword is copied unchanged. */
  lemma {:induction false} ScanShortText(t: string, w: string, prevWord: bool)
    requires |t| < |w|
    ensures BoldScan(t, w, prevWord) == t
    decreases |t|
  {
    if |t| > 0 {
      ScanShortText(t[1..], w, IsWordChar(t[0]));
      assert t == [t[0]] + t[1..];
    }
  }

  /** Where the text does not start with a word character, it does not matter
      whether a word character came before. */
  lemma ScanAfterWordAtNonWord(t: string, w: string)
    requires |w| > 0 && AllWordChars(w)
    requires t == [] || !IsWordChar(t[0])
    ensures BoldScan(t, w, true) == BoldScan(t, w, false)
  {
    NoMatchAtNonWord(t, w, true);
    NoMatchAtNonWord(t, w, false);
  }

  /** Inside a word no match can start: the scan copies the rest of the
      word. */
  lemma {:induction false} ScanInsideWord(t: string, w: string)
    requires |w| > 0
    ensures BoldScan(t, w, true) == t[..WordRun(t)] + BoldScan(t[WordRun(t)..], w, true)
    decreases |t|
  {
    var n := WordRun(t);
    if n > 0 {
      var rest := BoldScan(t[n..], w, true);
      assert BoldScan(t[1..], w, true) == t[1..n] + rest by {
        assert WordRun(t[1..]) == n - 1;
        ScanInsideWord(t[1..], w);
        assert t[1..][..n - 1] == t[1..n];
        assert t[1..][n - 1..] == t[n..];
      }
      assert BoldScan(t, w, true) == [t[0]] + BoldScan(t[1..], w, true) by {
        assert !MatchesHere(t, w, true);
        ScanCopiesFirst(t, w, true);
      }
      assert t[..n] == [t[0]] + t[1..n];
      ConcatAssoc3([t[0]], t[1..n], rest);
    }
  }

  /** A run of `k` word characters followed by a non-word character (or the
      end) is the word run. */
  lemma WordRunIs(t: string, k: nat)
    requires k <= |t|
    requires forall i | 0 <= i < k :: IsWordChar(t[i])
    requires k == |t| || !IsWordChar(t[k])
    ensures WordRun(t) == k
  {
  }

  lemma MatchCoversWord(t: string, w: string)
    requires |w| > 0 && AllWordChars(w)
    requires MatchesHere(t, w, false)
    ensures WordRun(t) == |w|
  {
    FoldEqKeepsWordChars(t[..|w|], w);
    forall i | 0 <= i < |w| ensures IsWordChar(t[i]) {
      assert t[..|w|][i] == t[i];
    }
    WordRunIs(t, |w|);
  }

  /** At the start of a word (no word character before it), the keyword
      matches exactly when the whole word equals it up to ASCII case. */
  lemma MatchAtWordStart(t: string, w: string)
    requires |w| > 0 && AllWordChars(w)
    requires |t| > 0 && IsWordChar(t[0])
    ensures MatchesHere(t, w, false) <==> FoldEq(t[..WordRun(t)], w)
  {
    var n := WordRun(t);
    if MatchesHere(t, w, false) {
      MatchCoversWord(t, w);
    }
    if FoldEq(t[..n], w) {
      assert |w| == n;
      assert IsWordChar(t[n - 1]);
      assert !WordAt(t, n);
    }
  }

  /** For a keyword of word characters, the regular-expression scan agrees
      with the word-by-word reference: every whole-word, case-insensitive
      occurrence becomes `<strong>` + the keyword's own spelling +
      `</strong>`, and nothing else changes. */
  lemma {:induction false} BoldWordMatchesReference(t: string, w: string)
    requires |w| > 0 && AllWordChars(w)
    ensures BoldWord(t, w) == BoldWords(t, w)
    decreases |t|
  {
    if |t| == 0 {
    } else if !IsWordChar(t[0]) {
      assert BoldScan(t, w, false) == [t[0]] + BoldScan(t[1..], w, false) by {
        NoMatchAtNonWord(t, w, false);
        ScanCopiesFirst(t, w, false);
      }
      assert BoldScan(t[1..], w, false) == BoldWords(t[1..], w) by {
        BoldWordMatchesReference(t[1..], w);
      }
      BoldWordsAtNonWord(t, w);
    } else {
      var n := WordRun(t);
      var rest := BoldScan(t[n..], w, true);
      assert rest == BoldWords(t[n..], w) by {
        ScanAfterWordAtNonWord(t[n..], w);
        BoldWordMatchesReference(t[n..], w);
      }
      BoldWordsAtWord(t, w);
      if FoldEq(t[..n], w) {
        assert BoldScan(t, w, false) == Strong(w) + rest by {
          MatchAtWordStart(t, w);
          assert |w| == n;
          ScanMatchStep(t, w, false);
        }
      } else {
        assert BoldScan(t, w, false) == [t[0]] + BoldScan(t[1..], w, true) by {
          MatchAtWordStart(t, w);
          ScanCopiesFirst(t, w, false);
        }
        assert BoldScan(t[1..], w, true) == t[1..n] + rest by {
          assert WordRun(t[1..]) == n - 1;
          ScanInsideWord(t[1..], w);
          assert t[1..][..n - 1] == t[1..n];
          assert t[1..][n - 1..] == t[n..];
        }
        assert t[..n] == [t[0]] + t[1..n];
        ConcatAssoc3([t[0]], t[1..n], rest);
      }
    }
  }

  /** One step of the scan where a non-empty keyword matches. */
  lemma ScanMatchStep(t: string, w: string, prevWord: bool)
    requires |w| > 0 && MatchesHere(t, w, prevWord)
    ensures BoldScan(t, w, prevWord) == Strong(w) + BoldScan(t[|w|..], w, IsWordChar(t[|w| - 1]))
  {
  }

  /** One step of the reference definition at a non-word character. */
  lemma BoldWordsAtNonWord(t: string, w: string)
    requires |t| > 0 && !IsWordChar(t[0])
    ensures BoldWords(t, w) == [t[0]] + BoldWords(t[1..], w)
  {
  }

  /** One step of the reference definition at the start of a word. */
  lemma BoldWordsAtWord(t: string, w: string)
    requires |t| > 0 && IsWordChar(t[0])
    ensures BoldWords(t, w) == (if FoldEq(t[..WordRun(t)], w) then Strong(w) else t[..WordRun(t)]) + BoldWords(t[WordRun(t)..], w)
  {
  }

  /** `w` occurs at `t[p]` up to ASCII case. */
  predicate FoldOccursAt(t: string, w: string, p: int) {
    0 <= p && p + |w| <= |t| && FoldEq(t[p..p + |w|], w)
  }

  /** A non-empty keyword (a word or a phrase) that does not occur in the
      text, in any case, leaves the text unchanged. */
  lemma {:induction false} BoldAbsentKeyword(t: string, w: string, prevWord: bool)
    requires |w| > 0
    requires forall p | 0 <= p <= |t| :: !FoldOccursAt(t, w, p)
    ensures BoldScan(t, w, prevWord) == t
    decreases |t|
  {
    if |t| > 0 {
      assert !FoldOccursAt(t, w, 0);
      if |w| <= |t| {
        assert t[0..|w|] == t[..|w|];
      }
      forall p | 0 <= p <= |t[1..]|
        ensures !FoldOccursAt(t[1..], w, p)
      {
        assert !FoldOccursAt(t, w, p + 1);
        if p + |w| <= |t[1..]| {
          assert t[1..][p..p + |w|] == t[p + 1..p + 1 + |w|];
        }
      }
      BoldAbsentKeyword(t[1..], w, IsWordChar(t[0]));
    }
  }

  /** Where no match starts, the scan copies one character. */
  lemma ScanCopiesFirst(t: string, w: string, prevWord: bool)
    requires t != [] && !MatchesHere(t, w, prevWord)
    ensures BoldScan(t, w, prevWord) == [t[0]] + BoldScan(t[1..], w, IsWordChar(t[0]))
  {
  }

  /** No word runs across the seam between `a` and `b`. */
  predicate WordSeam(a: string, b: string) {
    a == [] || b == [] || !IsWordChar(a[|a| - 1]) || !IsWordChar(b[0])
  }

  /** A word run that starts inside `a` ends inside `a` when no word runs
      across the seam. */
  lemma WordRunBeforeSeam(a: string, b: string)
    requires |a| > 0 && WordSeam(a, b)
    ensures WordRun(a + b) == WordRun(a)
  {
    var n := WordRun(a);
    var t := a + b;
    forall i | 0 <= i < n
      ensures IsWordChar(t[i])
    {
      assert t[i] == a[i];
    }
    if n < |a| {
      assert t[n] == a[n];
    } else if |b| > 0 {
      assert IsWordChar(a[|a| - 1]);
      assert t[n] == b[0];
    }
    WordRunIs(t, n);
  }

  /** One step of the reference over `a + b` at a word starting in `a`. */
  lemma ConcatStepAtWord(a: string, b: string, w: string)
    requires |a| > 0 && IsWordChar(a[0]) && WordSeam(a, b)
    ensures BoldWords(a + b, w) ==
      (if FoldEq(a[..WordRun(a)], w) then Strong(w) else a[..WordRun(a)]) + BoldWords(a[WordRun(a)..] + b, w)
  {
    var t := a + b;
    var n := WordRun(a);
    WordRunBeforeSeam(a, b);
    assert t[0] == a[0];
    assert t[..n] == a[..n];
    assert t[n..] == a[n..] + b;
    BoldWordsAtWord(t, w);
  }

  /** One step of the reference over `a + b` at a non-word character of `a`. */
  lemma ConcatStepAtNonWord(a: string, b: string, w: string)
    requires |a| > 0 && !IsWordChar(a[0])
    ensures BoldWords(a + b, w) == [a[0]] + BoldWords(a[1..] + b, w)
  {
    var t := a + b;
    assert t[0] == a[0];
    assert t[1..] == a[1..] + b;
    BoldWordsAtNonWord(t, w);
  }

  /** The seam condition survives dropping a prefix of `a`. */
  lemma WordSeamSuffix(a: string, b: string, n: nat)
    requires n <= |a| && WordSeam(a, b)
    ensures WordSeam(a[n..], b)
  {
    if n < |a| {
      assert a[n..][|a[n..]| - 1] == a[|a| - 1];
    }
  }

  /** The reference definition works word by word, so it splits at any seam
      that does not cut a word. */
  lemma {:induction false} BoldWordsConcat(a: string, b: string, w: string)
    requires WordSeam(a, b)
    ensures BoldWords(a + b, w) == BoldWords(a, w) + BoldWords(b, w)
    decreases |a|
  {
    if |a| == 0 {
      assert a + b == b;
    } else if IsWordChar(a[0]) {
      var n := WordRun(a);
      var head := if FoldEq(a[..n], w) then Strong(w) else a[..n];
      WordSeamSuffix(a, b, n);
      BoldWordsConcat(a[n..], b, w);
      ConcatStepAtWord(a, b, w);
      BoldWordsAtWord(a, w);
      ConcatAssoc3(head, BoldWords(a[n..], w), BoldWords(b, w));
    } else {
      WordSeamSuffix(a, b, 1);
      BoldWordsConcat(a[1..], b, w);
      ConcatStepAtNonWord(a, b, w);
      BoldWordsAtNonWord(a, w);
      ConcatAssoc3([a[0]], BoldWords(a[1..], w), BoldWords(b, w));
    }
  }

  /** A whole word equal to the keyword up to ASCII case, at the start of the
      text, becomes the keyword in bold. */
  lemma WholeWordFirst(u: string, b: string, w: string)
    requires |w| > 0 && AllWordChars(w) && FoldEq(u, w)
    requires b == [] || !IsWordChar(b[0])
    ensures BoldWords(u + b, w) == Strong(w) + BoldWords(b, w)
  {
    var t := u + b;
    FoldEqKeepsWordChars(u, w);
    forall i | 0 <= i < |u|
      ensures IsWordChar(t[i])
    {
      assert t[i] == u[i];
    }
    if |b| > 0 {
      assert t[|u|] == b[0];
    }
    WordRunIs(t, |u|);
    assert t[..|u|] == u;
    assert t[|u|..] == b;
    BoldWordsAtWord(t, w);
  }

  /** A whole word equal to the keyword up to ASCII case, with the text on
      either side ending and starting outside a word: the word becomes the
      keyword's own spelling in bold, whatever its case, and the text on
      either side is bolded on its own. */
  lemma KeywordSpellingWins(a: string, u: string, b: string, w: string)
    requires |w| > 0 && AllWordChars(w) && FoldEq(u, w)
    requires a == [] || !IsWordChar(a[|a| - 1])
    requires b == [] || !IsWordChar(b[0])
    ensures BoldWord(a + u + b, w) == BoldWord(a, w) + Strong(w) + BoldWord(b, w)
  {
    var t := u + b;
    assert a + u + b == a + t;
    BoldWordMatchesReference(a + t, w);
    BoldWordMatchesReference(a, w);
    BoldWordMatchesReference(b, w);
    WholeWordFirst(u, b, w);
    BoldWordsConcat(a, t, w);
    ConcatAssoc3(BoldWords(a, w), Strong(w), BoldWords(b, w));
  }

  /** The reference over "li>", for the keyword "li". */
  lemma TagNameWithLi()
    ensures BoldWords("li>", "li") == Strong("li") + ">"
  {
    var t := "li>";
    WordRunIs(t, 2);
    assert t[..2] == "li";
    assert t[2..] == ">";
    BoldWordsAtWord(t, "li");
    assert ">"[1..] == [];
    BoldWordsAtNonWord(">", "li");
  }

  /** The reference over the opening list-item tag, for the keyword "li". */
  lemma OpeningTagWithLi()
    ensures BoldWords("<li>", "li") == "<" + Strong("li") + ">"
  {
    assert "<li>"[1..] == "li>";
    BoldWordsAtNonWord("<li>", "li");
    TagNameWithLi();
    ConcatAssoc3("<", Strong("li"), ">");
  }

  /** The reference over the closing list-item tag, for the keyword "li". */
  lemma ClosingTagWithLi()
    ensures BoldWords("</li>", "li") == "</" + Strong("li") + ">"
  {
    assert "</li>"[1..] == "/li>";
    assert "/li>"[1..] == "li>";
    BoldWordsAtNonWord("</li>", "li");
    BoldWordsAtNonWord("/li>", "li");
    TagNameWithLi();
    assert "<" + "/" == "</";
    ConcatAssoc3("<", "/", Strong("li") + ">");
    ConcatAssoc3("</", Strong("li"), ">");
  }

  /** The reference over three pieces, neither seam cutting a word. */
  lemma BoldWordsAround(p: string, x: string, q: string, w: string)
    requires WordSeam(p, x + q) && WordSeam(x, q)
    ensures BoldWords(p + x + q, w) == BoldWords(p, w) + BoldWords(x, w) + BoldWords(q, w)
  {
    assert p + x + q == p + (x + q);
    BoldWordsConcat(p, x + q, w);
    BoldWordsConcat(x, q, w);
    ConcatAssoc3(BoldWords(p, w), BoldWords(x, w), BoldWords(q, w));
  }

  /** Regrouping the pieces of a bolded list item. */
  lemma ItemAssoc(o1: string, s: string, o2: string, m: string, c1: string)
    ensures o1 + s + o2 + m + (c1 + s + o2) == o1 + s + o2 + m + c1 + s + o2
  {
  }

  /** Keywords also match inside markup written by the earlier passes: the
      keyword "li" bolds the tag names of every list item, and the item's
      content is bolded on its own. */
  lemma KeywordRewritesMarkup(x: string)
    ensures BoldWord(Item(x), "li") == "<" + Strong("li") + ">" + BoldWord(x, "li") + "</" + Strong("li") + ">"
  {
    var w := "li";
    assert WordSeam("<li>", x + "</li>") by {
      assert "<li>"[3] == '>';
    }
    assert WordSeam(x, "</li>") by {
      assert "</li>"[0] == '<';
    }
    BoldWordsAround("<li>", x, "</li>", w);
    BoldWordMatchesReference(Item(x), w);
    BoldWordMatchesReference(x, w);
    OpeningTagWithLi();
    ClosingTagWithLi();
    ItemAssoc("<", Strong(w), ">", BoldWord(x, w), "</");
  }

  /** Reference for the empty keyword: the text with an empty bold element
      at every word boundary, that is wherever the word-ness of two
      neighbouring positions differs (outside the text counts as non-word),
      including the end after a final word character. `prevWord` is the
      word-ness of the position before `t`. */
  function MarkBoundaries(t: string, prevWord: bool): (r: string)
    ensures |t| <= |r|
    decreases |t|
  {
    if |t| == 0 then
      (if prevWord then Strong("") else [])
    else
      (if prevWord != IsWordChar(t[0]) then Strong("") else []) + [t[0]] + MarkBoundaries(t[1..], IsWordChar(t[0]))
  }

  /** The scan with the empty keyword inserts the markup at every word
      boundary and copies every character. */
  lemma {:induction false} EmptyKeywordScan(t: string, prevWord: bool)
    ensures BoldScan(t, "", prevWord) == MarkBoundaries(t, prevWord)
    decreases |t|
  {
    if |t| == 0 {
      assert t[..0] == "";
    } else if prevWord != IsWordChar(t[0]) {
      EmptyKeywordAtBoundary(t, prevWord);
      EmptyKeywordScan(t[1..], IsWordChar(t[0]));
      ConcatAssoc3(Strong(""), [t[0]], MarkBoundaries(t[1..], IsWordChar(t[0])));
    } else {
      EmptyKeywordInsideWord(t, prevWord);
      EmptyKeywordScan(t[1..], prevWord);
      assert [] + [t[0]] == [t[0]];
    }
  }

  /** The empty keyword (from an empty important-words string) matches at
      every word boundary of the text and inserts an empty bold element
      there. */
  lemma EmptyKeywordMarksBoundaries(t: string)
    ensures BoldWord(t, "") == MarkBoundaries(t, false)
  {
    EmptyKeywordScan(t, false);
  }

  /** The empty keyword matches where word-ness changes: the markup goes in
      and the scan moves on by one character. */
  lemma EmptyKeywordAtBoundary(t: string, prevWord: bool)
    requires |t| > 0 && prevWord != IsWordChar(t[0])
    ensures BoldScan(t, "", prevWord) == Strong("") + ([t[0]] + BoldScan(t[1..], "", IsWordChar(t[0])))
  {
    assert t[..0] == "";
  }

  /** Where word-ness does not change, the empty keyword does not match. */
  lemma EmptyKeywordInsideWord(t: string, prevWord: bool)
    requires |t| > 0 && prevWord == IsWordChar(t[0])
    ensures BoldScan(t, "", prevWord) == [t[0]] + BoldScan(t[1..], "", prevWord)
  {
  }

  // ---------------------------------------------------------------------
  // Summary markdown, pass 1: **x**

  /** `**x**` becomes `<strong>x</strong>` when `x` lies on one line and
      holds no `**` of its own (the lazy match stops at the first `**`). */
  lemma MarkdownBoldPair(x: string, rest: string)
    requires forall i | 0 <= i < |x| :: !IsLineTerminator(x[i])
    requires forall i | 0 <= i < |x| :: !StarsAt(x + "*", i)
    ensures MarkdownBold("**" + x + "**" + rest) == Strong(x) + MarkdownBold(rest)
  {
    var t := "**" + x + "**" + rest;
    var n := |x| + 2;
    assert StarsAt(t, 0);
    assert StarsAt(t, n);
    assert LineFree(t, 2, n) by {
      forall m | 2 <= m < n ensures !IsLineTerminator(t[m]) {
        assert t[m] == x[m - 2];
      }
    }
    forall i | 2 <= i < n
      ensures !StarsAt(t, i)
    {
      assert t[i] == (x + "*")[i - 2];
      assert t[i + 1] == (x + "*")[i - 1];
      assert !StarsAt(x + "*", i - 2);
    }
    var k := CloseAt(t, 2);
    assert k == n;
    assert t[2..k] == x;
    assert t[k + 2..] == rest;
  }

  /** A bold marker never spans lines: `**a` and `b**` on two lines stay as
      they are. */
  lemma MarkdownBoldStaysOnItsLine()
    ensures MarkdownBold("**a\nb**") == "**a\nb**"
  {
    var t := "**a\nb**";
    assert CloseAt(t, 2) == -1 by {
      assert !StarsAt(t, 2) && !IsLineTerminator(t[2]);
      assert !StarsAt(t, 3) && IsLineTerminator(t[3]);
    }
    assert t[1..] == "*a\nb**";
    assert !StarsAt("*a\nb**", 0);
    assert MarkdownBold("**") == "**" by {
      assert CloseAt("**", 2) == -1;
      assert "**"[1..] == "*";
    }
    assert "*a\nb**"[1..] == "a\nb**";
    assert "a\nb**"[1..] == "\nb**";
    assert "\nb**"[1..] == "b**";
    assert "b**"[1..] == "**";
  }

  /** Without `**` in it, the text is left alone by pass 1. */
  lemma {:induction false} MarkdownBoldWithoutStars(t: string)
    requires forall i | 0 <= i < |t| :: !StarsAt(t, i)
    ensures MarkdownBold(t) == t
    decreases |t|
  {
    if |t| > 0 {
      forall i | 0 <= i < |t[1..]| ensures !StarsAt(t[1..], i) {
        assert !StarsAt(t, i + 1);
      }
      MarkdownBoldWithoutStars(t[1..]);
    }
  }

  /** Text in which no `**` starts is copied as it is, whatever follows it. */
  lemma {:induction false} MarkdownBoldSkips(x: string, rest: string)
    requires forall i | 0 <= i < |x| :: !StarsAt(x + rest, i)
    ensures MarkdownBold(x + rest) == x + MarkdownBold(rest)
    decreases |x|
  {
    if |x| > 0 {
      var t := x + rest;
      assert !StarsAt(t, 0);
      assert t[1..] == x[1..] + rest;
      forall i | 0 <= i < |x[1..]| ensures !StarsAt(x[1..] + rest, i) {
        assert !StarsAt(t, i + 1);
      }
      MarkdownBoldSkips(x[1..], rest);
      calc {
        MarkdownBold(t);
        [t[0]] + MarkdownBold(x[1..] + rest);
        [x[0]] + (x[1..] + MarkdownBold(rest));
        { assert x == [x[0]] + x[1..]; }
        x + MarkdownBold(rest);
      }
    } else {
      assert x + rest == rest;
    }
  }

  /** The lazy search for the closing `**` stops at a line terminator: in
      `a + [c] + b` it finds what it finds in `a` alone. */
  lemma {:induction false} CloseAtStopsAtLineEnd(a: string, c: char, b: string, j: nat)
    requires j <= |a| && IsLineTerminator(c)
    ensures CloseAt(a + [c] + b, j) == CloseAt(a, j)
    decreases |a| - j
  {
    var t := a + [c] + b;
    assert t[|a|] == c;
    if j < |a| {
      assert t[j] == a[j];
      assert t[j + 1] == if j + 1 < |a| then a[j + 1] else c;
      CloseAtStopsAtLineEnd(a, c, b, j + 1);
    }
  }

  /** One step of pass 1 over `a + [c] + b` where a closed pair starts `a`. */
  lemma BoldLinesStepPair(a: string, c: char, b: string)
    requires IsLineTerminator(c)
    requires StarsAt(a, 0) && CloseAt(a, 2) >= 0
    ensures MarkdownBold(a + [c] + b) == Strong(a[2..CloseAt(a, 2)]) + MarkdownBold(a[CloseAt(a, 2) + 2..] + [c] + b)
  {
    var t := a + [c] + b;
    var k := CloseAt(a, 2);
    assert StarsAt(t, 0);
    CloseAtStopsAtLineEnd(a, c, b, 2);
    assert t[2..k] == a[2..k];
    assert t[k + 2..] == a[k + 2..] + [c] + b;
  }

  /** One step of pass 1 over `a + [c] + b` where no closed pair starts `a`. */
  lemma BoldLinesStepCopy(a: string, c: char, b: string)
    requires IsLineTerminator(c)
    requires |a| > 0 && !(StarsAt(a, 0) && CloseAt(a, 2) >= 0)
    ensures MarkdownBold(a + [c] + b) == [a[0]] + MarkdownBold(a[1..] + [c] + b)
  {
    var t := a + [c] + b;
    if StarsAt(a, 0) {
      CloseAtStopsAtLineEnd(a, c, b, 2);
    }
    assert t[0] == a[0];
    assert |a| == 1 ==> t[1] == c;
    assert !StarsAt(t, 0) || CloseAt(t, 2) < 0;
    assert t[1..] == a[1..] + [c] + b;
  }

  /** Pass 1 works line by line: text split at any line terminator is
      rewritten as its two sides are, each on its own. */
  lemma {:induction false} MarkdownBoldLines(a: string, c: char, b: string)
    requires IsLineTerminator(c)
    ensures MarkdownBold(a + [c] + b) == MarkdownBold(a) + [c] + MarkdownBold(b)
    decreases |a|
  {
    if |a| == 0 {
      var t := a + [c] + b;
      assert t == [c] + b;
      assert t[1..] == b;
    } else {
      var x, n;
      if StarsAt(a, 0) && CloseAt(a, 2) >= 0 {
        var k := CloseAt(a, 2);
        x, n := Strong(a[2..k]), k + 2;
        BoldLinesStepPair(a, c, b);
      } else {
        x, n := [a[0]], 1;
        BoldLinesStepCopy(a, c, b);
      }
      assert MarkdownBold(a) == x + MarkdownBold(a[n..]);
      MarkdownBoldLines(a[n..], c, b);
      ConcatAssoc3(x, MarkdownBold(a[n..]) + [c], MarkdownBold(b));
      ConcatAssoc3(x, MarkdownBold(a[n..]), [c]);
    }
  }

  // ---------------------------------------------------------------------
  // Summary markdown, pass 2: "- " lines

  /** One line of pass 2: a line starting with "- " becomes a list item,
      any other line is kept. */
  function ListLine(line: string): string {
    if |line| >= 2 && line[0] == '-' && line[1] == ' ' then "<li>" + line[2..] + "</li>" else line
  }

  predicate OneLine(x: string) {
    forall i | 0 <= i < |x| :: !IsLineTerminator(x[i])
  }

  lemma {:induction false} ListItemsMidLine(x: string, tail: string)
    requires OneLine(x)
    ensures ListItems(x + tail, false) == x + ListItems(tail, false)
    decreases |x|
  {
    if |x| > 0 {
      assert (x + tail)[0] == x[0];
      assert !IsLineTerminator(x[0]);
      assert (x + tail)[1..] == x[1..] + tail;
      ListItemsMidLine(x[1..], tail);
      assert x == [x[0]] + x[1..];
    } else {
      assert x + tail == tail;
    }
  }

  /** Pass 2 works line by line: the first line is rewritten on its own, its
      line terminator is kept, and the rest starts a new line. */
  lemma LineEndOfFirstLine(line: string, c: char, rest: string)
    requires OneLine(line) && IsLineTerminator(c) && |line| >= 2
    ensures LineEnd(line + [c] + rest, 2) == |line|
  {
    var t := line + [c] + rest;
    var e := LineEnd(t, 2);
    assert t[|line|] == c;
    forall m | 0 <= m < |line| ensures t[m] == line[m] {
    }
    assert e <= |line|;
  }

  lemma ListItemsAtTerminator(c: char, rest: string)
    requires IsLineTerminator(c)
    ensures ListItems([c] + rest, false) == [c] + ListItems(rest, true)
  {
    assert ([c] + rest)[1..] == rest;
  }

  /** One step of pass 2 where a "- " item starts. */
  lemma ListItemsBulletStep(t: string, e: nat)
    requires |t| >= 2 && t[0] == '-' && t[1] == ' '
    requires LineEnd(t, 2) == e
    ensures ListItems(t, true) == "<li>" + t[2..e] + "</li>" + ListItems(t[e..], false)
  {
  }

  /** One step of pass 2 where no item starts: a character is copied. */
  lemma ListItemsCopyStep(t: string, atLineStart: bool)
    requires |t| > 0 && !(atLineStart && |t| >= 2 && t[0] == '-' && t[1] == ' ')
    ensures ListItems(t, atLineStart) == [t[0]] + ListItems(t[1..], IsLineTerminator(t[0]))
  {
  }

  /** Pass 2 works line by line: the first line is rewritten on its own, its
      line terminator is kept, and the rest starts a new line. */
  lemma ListItemsFirstLine(line: string, c: char, rest: string)
    requires OneLine(line) && IsLineTerminator(c)
    ensures ListItems(line + [c] + rest, true) == ListLine(line) + [c] + ListItems(rest, true)
  {
    var t := line + [c] + rest;
    var tail := ListItems(rest, true);
    assert ListItems([c] + rest, false) == [c] + tail by {
      ListItemsAtTerminator(c, rest);
    }
    if |line| >= 2 && line[0] == '-' && line[1] == ' ' {
      assert ListItems(t, true) == ListLine(line) + ListItems([c] + rest, false) by {
        LineEndOfFirstLine(line, c, rest);
        assert t[2..|line|] == line[2..];
        assert t[|line|..] == [c] + rest;
        ListItemsBulletStep(t, |line|);
      }
      ConcatAssoc3(ListLine(line), [c], tail);
    } else if |line| == 0 {
      assert t == [c] + rest;
      assert ListItems(t, true) == [c] + tail by {
        ListItemsCopyStep(t, true);
        assert t[1..] == rest;
      }
    } else {
      assert ListItems(t, true) == [line[0]] + (line[1..] + ([c] + tail)) by {
        ListItemsCopyStep(t, true);
        assert t[1..] == line[1..] + ([c] + rest);
        ListItemsMidLine(line[1..], [c] + rest);
      }
      assert line == [line[0]] + line[1..];
      ConcatAssoc3([line[0]], line[1..], [c] + tail);
      ConcatAssoc3(line, [c], tail);
    }
  }

  /** The last line (no line terminator after it) is rewritten on its own. */
  lemma ListItemsLastLine(line: string)
    requires OneLine(line)
    ensures ListItems(line, true) == ListLine(line)
  {
    if |line| >= 2 && line[0] == '-' && line[1] == ' ' {
      assert LineEnd(line, 2) == |line|;
      assert line[|line|..] == [];
    } else if |line| > 0 {
      ListItemsMidLine(line[1..], []);
      assert line[1..] + [] == line[1..];
      assert line == [line[0]] + line[1..];
    }
  }

  // ---------------------------------------------------------------------
  // Summary markdown, pass 3: blank lines

  lemma {:induction false} ParagraphsWithoutNewline(x: string, tail: string)
    requires '\n' !in x
    ensures Paragraphs(x + tail) == x + Paragraphs(tail)
    decreases |x|
  {
    if |x| > 0 {
      assert x == [x[0]] + x[1..];
      assert (x + tail)[0] == x[0] != '\n';
      assert (x + tail)[1..] == x[1..] + tail;
      ParagraphsWithoutNewline(x[1..], tail);
    } else {
      assert x + tail == tail;
    }
  }

  lemma {:induction false} SpaceRunOfSpaces(u: string, y: string)
    requires AllSpace(u)
    requires y == [] || !IsJsSpace(y[0])
    ensures SpaceRun(u + y) == |u|
    decreases |u|
  {
    if |u| > 0 {
      assert (u + y)[1..] == u[1..] + y;
      SpaceRunOfSpaces(u[1..], y);
    } else {
      assert u + y == y;
    }
  }

  /** The whitespace run `m + "\n" + b` in front of `y`, with no `\n` in `b`:
      its length, and its last `\n`. */
  lemma RunAndLastNewline(m: string, b: string, y: string)
    requires '\n' !in b
    requires AllSpace(m) && AllSpace(b)
    requires y == [] || !IsJsSpace(y[0])
    ensures SpaceRun(m + "\n" + b + y) == |m| + 1 + |b|
    ensures LastNewline(m + "\n" + b + y, |m| + 1 + |b|) == |m|
  {
    AllSpaceAroundBreak(m, b);
    SpaceRunOfSpaces(m + "\n" + b, y);
    LastNewlineBeforeB(m + "\n", b, y);
  }

  lemma AllSpaceAroundBreak(m: string, b: string)
    requires AllSpace(m) && AllSpace(b)
    ensures AllSpace(m + "\n" + b)
  {
    assert AllSpace("\n") by { assert "\n"[0] == '\n'; }
    AllSpaceConcat(m, "\n");
    AllSpaceConcat(m + "\n", b);
  }

  /** The last `\n` before the end of `b` in `a + b + y`, when `a` ends with
      one and `b` has none. */
  lemma LastNewlineBeforeB(a: string, b: string, y: string)
    requires '\n' !in b
    requires |a| > 0 && a[|a| - 1] == '\n'
    ensures LastNewline(a + b + y, |a| + |b|) == |a| - 1
  {
    var u := a + b + y;
    assert u[|a| - 1] == '\n';
    forall i | |a| <= i < |a| + |b| ensures u[i] != '\n' {
      assert u[i] == b[i - |a|];
      assert b[i - |a|] in b;
    }
  }

  /** A `\n` opening a whitespace run that holds another `\n`: everything up
      to the run's last `\n` goes, replaced by one `</p><p>`. */
  lemma ParagraphsAtRun(m: string, b: string, y: string)
    requires '\n' !in b
    requires AllSpace(m) && AllSpace(b)
    requires y == [] || !IsJsSpace(y[0])
    ensures Paragraphs("\n" + (m + "\n" + b + y)) == "</p><p>" + Paragraphs(b + y)
  {
    var u := m + "\n" + b + y;
    var t := "\n" + u;
    assert t[|m| + 2..] == b + y;
    assert Paragraphs(t) == "</p><p>" + Paragraphs(t[|m| + 2..]) by {
      assert t[1..] == u;
      RunAndLastNewline(m, b, y);
      ParagraphsBreakStep(t, |m|);
    }
  }

  /** One step of pass 3 at a `\n` whose whitespace run holds another `\n`. */
  lemma ParagraphsBreakStep(t: string, j: int)
    requires |t| > 0 && t[0] == '\n'
    requires LastNewline(t[1..], SpaceRun(t[1..])) == j >= 0
    ensures Paragraphs(t) == "</p><p>" + Paragraphs(t[j + 2..])
  {
  }

  /** A `\n` whose whitespace run holds no other `\n` is kept. */
  lemma ParagraphsAtLoneBreak(b: string, y: string)
    requires '\n' !in b
    requires AllSpace(b)
    requires y == [] || !IsJsSpace(y[0])
    ensures Paragraphs("\n" + (b + y)) == "\n" + Paragraphs(b + y)
  {
    var t := "\n" + (b + y);
    SpaceRunOfSpaces(b, y);
    assert t[1..] == b + y;
    forall i | 0 <= i < |b| ensures (b + y)[i] != '\n' {
      assert (b + y)[i] == b[i];
      assert b[i] in b;
    }
    assert LastNewline(b + y, |b|) == -1;
  }

  /** A whitespace run holding two or more newlines: the stretch from its
      first to its last newline becomes one `</p><p>`; the whitespace before
      the first and after the last newline is kept. */
  lemma ParagraphsBlankRun(a: string, m: string, b: string, y: string)
    requires '\n' !in a && '\n' !in b
    requires AllSpace(m) && AllSpace(b)
    requires y == [] || !IsJsSpace(y[0])
    ensures Paragraphs(a + ("\n" + (m + "\n" + b + y))) == a + ("</p><p>" + (b + Paragraphs(y)))
  {
    ParagraphsWithoutNewline(a, "\n" + (m + "\n" + b + y));
    ParagraphsAtRun(m, b, y);
    ParagraphsWithoutNewline(b, y);
  }

  /** A whitespace run with at most one newline is kept as it is. */
  lemma ParagraphsSingleBreak(a: string, b: string, y: string)
    requires '\n' !in a && '\n' !in b
    requires AllSpace(b)
    requires y == [] || !IsJsSpace(y[0])
    ensures Paragraphs(a + ("\n" + (b + y))) == a + ("\n" + (b + Paragraphs(y)))
  {
    ParagraphsWithoutNewline(a, "\n" + (b + y));
    ParagraphsAtLoneBreak(b, y);
    ParagraphsWithoutNewline(b, y);
  }

  // ---------------------------------------------------------------------
  // Key highlights

  /** One list item per line: the highlights hold one more item than they
      have newlines, each line loses at most one leading "- ", and the lines
      rejoined with "\n" give back the input. */
  lemma HighlightsOneItemPerLine(h: string)
    ensures var lines := Split(h, "\n");
      && |lines| == CountChar(h, '\n') + 1
      && Join(lines, "\n") == h
      && HighlightsHtml(h) == Items(lines)
  {
    SplitCount(h, '\n');
    assert "\n" == ['\n'];
    JoinSplit(h, "\n");
  }

  /** The item for each line, concatenated with no separator. */
  function Bullets(contents: seq<string>): string
    decreases |contents|
  {
    if |contents| == 0 then [] else Item(contents[0]) + Bullets(contents[1..])
  }

  /** The lines "- " + c, one per entry. */
  function BulletLines(contents: seq<string>): (lines: seq<string>)
    ensures |lines| == |contents|
    ensures forall i | 0 <= i < |contents| :: lines[i] == "- " + contents[i]
    decreases |contents|
  {
    if |contents| == 0 then [] else ["- " + contents[0]] + BulletLines(contents[1..])
  }

  lemma {:induction false} ItemsOfBulletLines(contents: seq<string>)
    ensures Items(BulletLines(contents)) == Bullets(contents)
    decreases |contents|
  {
    if |contents| > 0 {
      var lines := BulletLines(contents);
      assert StripBullet(lines[0]) == contents[0] by {
        assert lines[0][2..] == contents[0];
      }
      assert lines[1..] == BulletLines(contents[1..]);
      ItemsOfBulletLines(contents[1..]);
    }
  }

  /** Highlights written as "- a\n- b\n..." come out as exactly the items
      a, b, ... in order. */
  lemma HighlightsOfBulletList(contents: seq<string>)
    requires |contents| >= 1
    requires forall i | 0 <= i < |contents| :: '\n' !in contents[i]
    ensures HighlightsHtml(Join(BulletLines(contents), "\n")) == Bullets(contents)
  {
    var lines := BulletLines(contents);
    forall i | 0 <= i < |lines|
      ensures !Contains(lines[i], "\n")
    {
      assert '\n' !in lines[i] by {
        assert lines[i] == "- " + contents[i];
      }
      NotContainsChar(lines[i], '\n');
    }
    assert "\n" == ['\n'];
    SplitJoin(lines, "\n");
    ItemsOfBulletLines(contents);
  }

  // ---------------------------------------------------------------------
  // Placeholder substitution

  /** Neither placeholder can overlap another occurrence of itself. */
  lemma PlaceholdersHaveNoBorder()
    ensures NoBorder(SummaryToken) && NoBorder(HighlightsToken)
  {
    assert SummaryToken[..|SummaryToken| - 2] == "{{summary";
    NoBorderByLastChar(SummaryToken);
    assert HighlightsToken[..|HighlightsToken| - 2] == "{{keyHighlights";
    NoBorderByLastChar(HighlightsToken);
  }

  /** A pattern whose last character does not occur before its last two,
      and whose second and third characters differ, has no border. */
  lemma NoBorderByLastChar(t: string)
    requires |t| >= 3 && t[1] != t[2]
    requires t[|t| - 1] !in t[..|t| - 2]
    ensures NoBorder(t)
  {
    forall n | 0 < n < |t|
      ensures t[..n] != t[|t| - n..]
    {
      if n == |t| - 1 {
        assert t[..n][1] != t[|t| - n..][1];
      } else {
        assert t[..|t| - 2][n - 1] == t[n - 1];
        assert t[..n][n - 1] != t[|t| - n..][n - 1];
      }
    }
  }

  /** A template without either placeholder comes back unchanged. */
  lemma FormatWithoutPlaceholders(summary: string, keyHighlights: string, importantWords: string, template: string)
    requires SafeKeywords(Keywords(importantWords))
    requires !Contains(template, SummaryToken) && !Contains(template, HighlightsToken)
    ensures Format(Str(summary), Str(keyHighlights), Str(importantWords), template) == Normal(template)
  {
  }

  /** The summary goes where the first `{{summary}}` is; the search for
      `{{keyHighlights}}` then runs on that result, so the highlights go where
      the first `{{keyHighlights}}` of the substituted text is. */
  lemma FormatSubstitutesInOrder(summary: string, keyHighlights: string, importantWords: string, a: string, b: string)
    requires SafeKeywords(Keywords(importantWords))
    requires !Contains(a, SummaryToken)
    requires '$' !in BoldAll(SummaryHtml(summary), Keywords(importantWords))
    ensures var s := BoldAll(SummaryHtml(summary), Keywords(importantWords));
      var h := BoldAll(HighlightsHtml(keyHighlights), Keywords(importantWords));
      Format(Str(summary), Str(keyHighlights), Str(importantWords), a + SummaryToken + b)
        == Normal(ReplaceFirst(a + s + b, HighlightsToken, h))
  {
    PlaceholdersHaveNoBorder();
    ReplaceFirstAfter(a, SummaryToken, b, BoldAll(SummaryHtml(summary), Keywords(importantWords)));
  }

  /** With both placeholders in place, once each, and content free of `$`,
      the template receives the summary and the highlights at those places. */
  lemma FormatFillsTemplate(summary: string, keyHighlights: string, importantWords: string, a: string, b: string, c: string)
    requires SafeKeywords(Keywords(importantWords))
    requires !Contains(a, SummaryToken)
    ensures var s := BoldAll(SummaryHtml(summary), Keywords(importantWords));
      var h := BoldAll(HighlightsHtml(keyHighlights), Keywords(importantWords));
      '$' !in s && '$' !in h && !Contains(a + s + b, HighlightsToken) ==>
      Format(Str(summary), Str(keyHighlights), Str(importantWords), a + SummaryToken + b + HighlightsToken + c)
        == Normal(a + s + b + h + c)
  {
    var s := BoldAll(SummaryHtml(summary), Keywords(importantWords));
    var h := BoldAll(HighlightsHtml(keyHighlights), Keywords(importantWords));
    if '$' !in s && '$' !in h && !Contains(a + s + b, HighlightsToken) {
      FormatSubstitutesInOrder(summary, keyHighlights, importantWords, a, b + HighlightsToken + c);
      ConcatAssoc(a + SummaryToken, b, HighlightsToken, c);
      ConcatAssoc(a + s, b, HighlightsToken, c);
      ConcatAssoc3(b, HighlightsToken, c);
      PlaceholdersHaveNoBorder();
      ReplaceFirstAfter(a + s + b, HighlightsToken, c, h);
    }
  }

  /** `$&` in the summary is a replacement pattern, not text: wherever it
      stands, the placeholder itself is written back there. */
  lemma DollarPatternRestoresPlaceholder(a: string, b: string, x: string, y: string)
    requires !Contains(a, SummaryToken)
    requires '$' !in x && '$' !in y
    ensures ReplaceFirst(a + SummaryToken + b, SummaryToken, x + "$&" + y) == a + x + SummaryToken + y + b
  {
    PlaceholdersHaveNoBorder();
    ReplaceFirstMatchPattern(a, SummaryToken, b, x, y);
  }
}
