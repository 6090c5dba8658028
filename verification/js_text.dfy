/** The pieces of the JavaScript string library that the content script
    relies on: the character classes of non-Unicode regular expressions,
    `split`/`join`, `trim`, and `replace` with a string pattern (first
    occurrence only, with `$`-patterns expanded in the replacement text).
    A JavaScript string is modelled as a sequence of characters. */
module JsText {

  /** `\w` of a non-Unicode regular expression: [A-Za-z0-9_]. */
  predicate IsWordChar(c: char) {
    ('a' <= c <= 'z') || ('A' <= c <= 'Z') || ('0' <= c <= '9') || c == '_'
  }

  /** The characters `.` does not match and at which multiline `^`/`$` stop. */
  predicate IsLineTerminator(c: char) {
    c == '\n' || c == '\r' || c == '\U{2028}' || c == '\U{2029}'
  }

  /** `\s` of a regular expression and the characters `String.prototype.trim`
      removes: WhiteSpace (tab, vertical tab, form feed, space, no-break space,
      byte-order mark and the space separators) plus the line terminators. */
  predicate IsJsSpace(c: char) {
    || c == '\t' || c == '\U{000B}' || c == '\U{000C}' || c == ' '
    || c == '\U{00A0}' || c == '\U{FEFF}' || c == '\U{1680}'
    || ('\U{2000}' <= c <= '\U{200A}')
    || c == '\U{202F}' || c == '\U{205F}' || c == '\U{3000}'
    || IsLineTerminator(c)
  }

  predicate AllSpace(s: string) {
    forall i | 0 <= i < |s| :: IsJsSpace(s[i])
  }

  predicate IsAscii(c: char) {
    c as int < 128
  }

  /** ASCII lower-casing. For a pattern made of ASCII characters, this is
      exactly the case folding of a non-Unicode regular expression with flag
      `i`: such a regular expression never folds a non-ASCII character onto
      an ASCII one. */
  function AsciiLower(c: char): (d: char)
    ensures IsWordChar(d) <==> IsWordChar(c)
    ensures IsAscii(d) <==> IsAscii(c)
    ensures !('A' <= d <= 'Z')
  {
    if 'A' <= c <= 'Z' then (c as int + 32) as char else c
  }

  /** Case-insensitive equality of two strings under ASCII folding. */
  predicate FoldEq(a: string, b: string) {
    |a| == |b| && forall i | 0 <= i < |a| :: AsciiLower(a[i]) == AsciiLower(b[i])
  }

  /** `t` occurs in `s` starting at index `i`. */
  predicate OccursAt(s: string, t: string, i: int) {
    0 <= i && i + |t| <= |s| && s[i..i + |t|] == t
  }

  predicate Contains(s: string, t: string) {
    exists i | 0 <= i <= |s| - |t| :: OccursAt(s, t, i)
  }

  /** Index of the first occurrence of `t` in `s` at or after `from`, or -1. */
  function IndexFrom(s: string, t: string, from: nat): (r: int)
    requires from <= |s|
    ensures r == -1 || (from <= r && OccursAt(s, t, r))
    ensures r == -1 ==> forall j | from <= j :: !OccursAt(s, t, j)
    ensures r >= 0 ==> forall j | from <= j < r :: !OccursAt(s, t, j)
    decreases |s| - from
  {
    if OccursAt(s, t, from) then from
    else if from + |t| >= |s| then -1
    else IndexFrom(s, t, from + 1)
  }

  /** `s.indexOf(t)`. */
  function IndexOf(s: string, t: string): (r: int)
    ensures r == -1 <==> !Contains(s, t)
    ensures r >= 0 ==> OccursAt(s, t, r) && forall j | 0 <= j < r :: !OccursAt(s, t, j)
  {
    var r := IndexFrom(s, t, 0);
    assert r >= 0 ==> Contains(s, t);
    r
  }

  /** The replacement text of `String.prototype.replace` with a string
      pattern (GetSubstitution with no capture groups): `$$` is `$`, `$&` the
      matched text, `` $` `` the text before it, `$'` the text after it; any
      other `$` stands for itself. */
  function Expand(rep: string, matched: string, before: string, after: string): string
    decreases |rep|
  {
    if |rep| == 0 then []
    else if rep[0] == '$' && |rep| >= 2 && rep[1] == '$' then "$" + Expand(rep[2..], matched, before, after)
    else if rep[0] == '$' && |rep| >= 2 && rep[1] == '&' then matched + Expand(rep[2..], matched, before, after)
    else if rep[0] == '$' && |rep| >= 2 && rep[1] == '`' then before + Expand(rep[2..], matched, before, after)
    else if rep[0] == '$' && |rep| >= 2 && rep[1] == '\'' then after + Expand(rep[2..], matched, before, after)
    else [rep[0]] + Expand(rep[1..], matched, before, after)
  }

  /** `s.replace(pat, rep)` for a string `pat`: only the first occurrence is
      replaced; a string without `pat` comes back unchanged. */
  function ReplaceFirst(s: string, pat: string, rep: string): (r: string)
    ensures !Contains(s, pat) ==> r == s
    ensures Contains(s, pat) && '$' !in rep ==>
      exists i :: && OccursAt(s, pat, i) && r == s[..i] + rep + s[i + |pat|..]
                  && forall j | 0 <= j < i :: !OccursAt(s, pat, j)
  {
    var i := IndexOf(s, pat);
    if i < 0 then s
    else
      var before, after := s[..i], s[i + |pat|..];
      var r := before + Expand(rep, pat, before, after) + after;
      if '$' !in rep then
        ExpandWithoutDollar(rep, pat, before, after);
        assert r == s[..i] + rep + s[i + |pat|..];
        r
      else r
  }

  lemma {:induction false} ExpandWithoutDollar(rep: string, matched: string, before: string, after: string)
    requires '$' !in rep
    ensures Expand(rep, matched, before, after) == rep
    decreases |rep|
  {
    if |rep| > 0 {
      assert rep == [rep[0]] + rep[1..];
      ExpandWithoutDollar(rep[1..], matched, before, after);
    }
  }

  /** `s.split(sep)` for a non-empty separator: the pieces between the
      leftmost non-overlapping occurrences of `sep`. */
  function Split(s: string, sep: string): (parts: seq<string>)
    requires |sep| > 0
    ensures |parts| >= 1
    decreases |s|
  {
    if |s| < |sep| then [s]
    else if s[..|sep|] == sep then [[]] + Split(s[|sep|..], sep)
    else
      var rest := Split(s[1..], sep);
      [[s[0]] + rest[0]] + rest[1..]
  }

  /** `parts.join(sep)`. */
  function Join(parts: seq<string>, sep: string): string
    decreases |parts|
  {
    if |parts| == 0 then []
    else if |parts| == 1 then parts[0]
    else parts[0] + sep + Join(parts[1..], sep)
  }

  /** Number of times `c` occurs in `s`. */
  function CountChar(s: string, c: char): nat
    decreases |s|
  {
    if |s| == 0 then 0 else (if s[0] == c then 1 else 0) + CountChar(s[1..], c)
  }

  /** Leading characters that `trim` removes. */
  function TrimStart(s: string): (r: string)
    ensures |r| <= |s| && r == s[|s| - |r|..]
    ensures AllSpace(s[..|s| - |r|])
    ensures r == [] || !IsJsSpace(r[0])
    decreases |s|
  {
    if |s| > 0 && IsJsSpace(s[0]) then
      var r := TrimStart(s[1..]);
      assert s[..|s| - |r|] == [s[0]] + s[1..][..|s| - 1 - |r|];
      r
    else s
  }

  /** Trailing characters that `trim` removes. */
  function TrimEnd(s: string): (r: string)
    ensures |r| <= |s| && r == s[..|r|]
    ensures AllSpace(s[|r|..])
    ensures r == [] || !IsJsSpace(r[|r| - 1])
    decreases |s|
  {
    if |s| > 0 && IsJsSpace(s[|s| - 1]) then
      var r := TrimEnd(s[..|s| - 1]);
      assert s[|r|..] == s[..|s| - 1][|r|..] + [s[|s| - 1]];
      r
    else s
  }

  /** `s.trim()`: the infix of `s` left after removing whitespace at both
      ends. */
  function Trim(s: string): (r: string)
    ensures exists i :: OccursAt(s, r, i) && AllSpace(s[..i]) && AllSpace(s[i + |r|..])
    ensures r == [] || (!IsJsSpace(r[0]) && !IsJsSpace(r[|r| - 1]))
  {
    var t := TrimStart(s);
    var r := TrimEnd(t);
    InfixOfSuffix(s, t, r);
    var i := |s| - |t|;
    assert OccursAt(s, r, i) && AllSpace(s[..i]) && AllSpace(s[i + |r|..]);
    r
  }

  /** A prefix `r` of a suffix `t` of `s` is an infix of `s`, and what
      follows `r` in `t` is what follows it in `s`. */
  lemma InfixOfSuffix(s: string, t: string, r: string)
    requires |t| <= |s| && t == s[|s| - |t|..]
    requires |r| <= |t| && r == t[..|r|]
    requires AllSpace(t[|r|..])
    ensures OccursAt(s, r, |s| - |t|)
    ensures AllSpace(s[|s| - |t| + |r|..])
  {
    var i := |s| - |t|;
    assert s[i + |r|..] == t[|r|..];
    assert s[i..i + |r|] == t[..|r|];
  }

  // ---------------------------------------------------------------------
  // split / join

  lemma JoinCons(p: string, rest: seq<string>, sep: string)
    ensures Join([p] + rest, sep) == p + (if |rest| == 0 then [] else sep + Join(rest, sep))
  {
    assert ([p] + rest)[1..] == rest;
  }

  /** Joining the pieces of a split with the same separator gives back the
      input. */
  lemma {:induction false} JoinSplit(s: string, sep: string)
    requires |sep| > 0
    ensures Join(Split(s, sep), sep) == s
    decreases |s|
  {
    if |s| < |sep| {
    } else if s[..|sep|] == sep {
      var rest := Split(s[|sep|..], sep);
      JoinSplit(s[|sep|..], sep);
      JoinCons([], rest, sep);
      assert s == s[..|sep|] + s[|sep|..];
    } else {
      var rest := Split(s[1..], sep);
      JoinSplit(s[1..], sep);
      JoinCons([s[0]] + rest[0], rest[1..], sep);
      JoinCons(rest[0], rest[1..], sep);
      assert rest == [rest[0]] + rest[1..];
      assert s == [s[0]] + s[1..];
    }
  }

  /** Splitting on a one-character separator gives one more piece than there
      are occurrences of that character. */
  lemma {:induction false} SplitCount(s: string, c: char)
    ensures |Split(s, [c])| == CountChar(s, c) + 1
    decreases |s|
  {
    if |s| >= 1 {
      SplitCount(s[1..], c);
      assert s[..1] == [c] <==> s[0] == c;
    }
  }

  lemma ContainsSuffix(a: string, t: string, k: nat)
    requires k <= |a|
    requires Contains(a[k..], t)
    ensures Contains(a, t)
  {
    var i :| 0 <= i <= |a[k..]| - |t| && OccursAt(a[k..], t, i);
    assert a[k..][i..i + |t|] == a[k + i..k + i + |t|];
    assert OccursAt(a, t, k + i);
  }

  /** A separator that cannot straddle the boundary between a piece and a
      neighbouring separator: one character, or two different ones (as
      "\n" and ", "). */
  predicate Unbordered(sep: string) {
    |sep| == 1 || (|sep| == 2 && sep[0] != sep[1])
  }

  lemma {:induction false} SplitWithoutSeparator(a: string, sep: string)
    requires Unbordered(sep)
    requires !Contains(a, sep)
    ensures Split(a, sep) == [a]
    decreases |a|
  {
    if |a| >= |sep| {
      assert !OccursAt(a, sep, 0);
      if Contains(a[1..], sep) {
        ContainsSuffix(a, sep, 1);
      }
      SplitWithoutSeparator(a[1..], sep);
      assert a == [a[0]] + a[1..];
    }
  }

  lemma {:induction false} SplitAfterPiece(a: string, b: string, sep: string)
    requires Unbordered(sep)
    requires !Contains(a, sep)
    ensures Split(a + sep + b, sep) == [a] + Split(b, sep)
    decreases |a|
  {
    var s := a + sep + b;
    if |a| == 0 {
      assert s[..|sep|] == sep;
      assert s[|sep|..] == b;
    } else {
      if |a| >= |sep| {
        assert !OccursAt(a, sep, 0);
        assert s[..|sep|] == a[..|sep|];
      } else {
        assert s[..2] == [a[0], sep[0]];
      }
      assert s[..|sep|] != sep;
      if Contains(a[1..], sep) {
        ContainsSuffix(a, sep, 1);
      }
      assert s[1..] == a[1..] + sep + b;
      SplitAfterPiece(a[1..], b, sep);
      assert a == [a[0]] + a[1..];
    }
  }

  /** Splitting a join recovers the pieces, provided no piece contains the
      separator (and the separator cannot overlap itself, as with ", "). */
  lemma {:induction false} SplitJoin(parts: seq<string>, sep: string)
    requires Unbordered(sep)
    requires |parts| >= 1
    requires forall i | 0 <= i < |parts| :: !Contains(parts[i], sep)
    ensures Split(Join(parts, sep), sep) == parts
    decreases |parts|
  {
    if |parts| == 1 {
      SplitWithoutSeparator(parts[0], sep);
    } else {
      SplitJoin(parts[1..], sep);
      SplitAfterPiece(parts[0], Join(parts[1..], sep), sep);
      assert parts == [parts[0]] + parts[1..];
    }
  }

  // ---------------------------------------------------------------------
  // trim

  lemma {:induction false} TrimStartPadded(p: string, x: string)
    requires AllSpace(p)
    requires x == [] || !IsJsSpace(x[0])
    requires x == [] ==> p == []
    ensures TrimStart(p + x) == x
    decreases |p|
  {
    if |p| > 0 {
      assert (p + x)[1..] == p[1..] + x;
      TrimStartPadded(p[1..], x);
    }
  }

  lemma {:induction false} TrimEndPadded(x: string, q: string)
    requires AllSpace(q)
    requires x == [] || !IsJsSpace(x[|x| - 1])
    ensures TrimEnd(x + q) == x
    decreases |q|
  {
    if |q| > 0 {
      assert (x + q)[..|x + q| - 1] == x + q[..|q| - 1];
      TrimEndPadded(x, q[..|q| - 1]);
    }
  }

  lemma AllSpaceConcat(x: string, y: string)
    requires AllSpace(x) && AllSpace(y)
    ensures AllSpace(x + y)
  {
    forall i | 0 <= i < |x + y| ensures IsJsSpace((x + y)[i]) {
      if i < |x| { assert (x + y)[i] == x[i]; } else { assert (x + y)[i] == y[i - |x|]; }
    }
  }

  lemma {:induction false} TrimAllSpace(p: string)
    requires AllSpace(p)
    ensures TrimStart(p) == []
    decreases |p|
  {
    if |p| > 0 {
      TrimAllSpace(p[1..]);
    }
  }

  /** `trim` removes exactly the whitespace around a word that neither starts
      nor ends with whitespace. */
  lemma TrimPadded(p: string, x: string, q: string)
    requires AllSpace(p) && AllSpace(q)
    requires x == [] || (!IsJsSpace(x[0]) && !IsJsSpace(x[|x| - 1]))
    ensures Trim(p + x + q) == x
  {
    if x == [] {
      assert p + x + q == p + q;
      TrimAllSpace(p + q);
    } else {
      assert p + x + q == p + (x + q);
      TrimStartPadded(p, x + q);
      TrimEndPadded(x, q);
    }
  }

  // ---------------------------------------------------------------------
  // first-occurrence replace

  /** No proper prefix of `pat` is also a suffix of it, so two occurrences of
      `pat` can never overlap. */
  predicate NoBorder(pat: string) {
    forall n | 0 < n < |pat| :: pat[..n] != pat[|pat| - n..]
  }

  /** When `pat` does not occur in `a` and cannot overlap itself, its first
      occurrence in `a + pat + b` is right after `a`. */
  lemma FirstAfter(a: string, pat: string, b: string)
    requires NoBorder(pat)
    requires !Contains(a, pat)
    ensures IndexOf(a + pat + b, pat) == |a|
  {
    var s := a + pat + b;
    assert s[|a|..|a| + |pat|] == pat;
    assert OccursAt(s, pat, |a|);
    forall j | 0 <= j < |a|
      ensures !OccursAt(s, pat, j)
    {
      if j + |pat| <= |a| {
        assert s[j..j + |pat|] == a[j..j + |pat|];
        assert !OccursAt(a, pat, j);
      } else {
        var n := j + |pat| - |a|;
        assert 0 < n < |pat|;
        assert pat[..n] != pat[|pat| - n..];
        assert s[|a|..j + |pat|] == pat[..n];
        assert s[j..j + |pat|][|a| - j..] == s[|a|..j + |pat|];
      }
    }
  }

  /** When `pat` first occurs right after `a`, the replacement goes exactly
      there and the rest of the text is kept. */
  lemma ReplaceFirstAfter(a: string, pat: string, b: string, rep: string)
    requires NoBorder(pat)
    requires !Contains(a, pat)
    requires '$' !in rep
    ensures ReplaceFirst(a + pat + b, pat, rep) == a + rep + b
  {
    var s := a + pat + b;
    FirstAfter(a, pat, b);
    ExpandWithoutDollar(rep, pat, a, b);
    assert s[..|a|] == a;
    assert s[|a| + |pat|..] == b;
  }

  /** `$&` in a replacement text stands for the matched text; the text
      around it, free of `$`, is copied. */
  lemma {:induction false} ExpandMatchPattern(x: string, y: string, matched: string, before: string, after: string)
    requires '$' !in x && '$' !in y
    ensures Expand(x + "$&" + y, matched, before, after) == x + matched + y
    decreases |x|
  {
    var rep := x + "$&" + y;
    if |x| == 0 {
      assert rep == "$&" + y;
      assert rep[2..] == y;
      ExpandWithoutDollar(y, matched, before, after);
    } else {
      assert rep[0] == x[0];
      assert rep[1..] == x[1..] + "$&" + y;
      ExpandMatchPattern(x[1..], y, matched, before, after);
      assert x == [x[0]] + x[1..];
      ConcatAssoc3([x[0]], x[1..] + matched, y);
      ConcatAssoc3([x[0]], x[1..], matched);
    }
  }

  /** A replacement text holding `$&` writes the first occurrence of `pat`
      back in its place, between the replacement's own text. */
  lemma ReplaceFirstMatchPattern(a: string, pat: string, b: string, x: string, y: string)
    requires NoBorder(pat)
    requires !Contains(a, pat)
    requires '$' !in x && '$' !in y
    ensures ReplaceFirst(a + pat + b, pat, x + "$&" + y) == a + x + pat + y + b
  {
    var s := a + pat + b;
    FirstAfter(a, pat, b);
    assert s[..|a|] == a;
    assert s[|a| + |pat|..] == b;
    ExpandMatchPattern(x, y, pat, a, b);
    ConcatAssoc3(a, x + pat, y);
    ConcatAssoc3(a, x, pat);
  }

  lemma NotContainsChar(s: string, c: char)
    requires c !in s
    ensures !Contains(s, [c])
  {
    forall j | 0 <= j < |s|
      ensures !OccursAt(s, [c], j)
    {
      assert s[j..j + 1] == [s[j]];
    }
  }

  lemma ConcatAssoc(a: string, p: string, b: string, y: string)
    ensures a + p + b + y == a + (p + (b + y))
  {
  }

  lemma ConcatAssoc3(a: string, b: string, c: string)
    ensures a + b + c == a + (b + c)
  {
  }
}
