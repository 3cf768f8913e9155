/** The string operations of Rust's `str` (and JavaScript's `String`) that the
    recipe format is built from, over strings as sequences of Unicode scalar
    values. */
module Strings {
  import opened Wrappers

  /** Rust's `char::is_whitespace`: the Unicode White_Space property. */
  predicate IsWhitespace(c: char) {
    || ('\t' <= c <= '\r')
    || c == ' '
    || c == '\U{85}'
    || c == '\U{A0}'
    || c == '\U{1680}'
    || ('\U{2000}' <= c <= '\U{200A}')
    || c == '\U{2028}'
    || c == '\U{2029}'
    || c == '\U{202F}'
    || c == '\U{205F}'
    || c == '\U{3000}'
  }

  /** `str::trim_start`: drops the leading whitespace. */
  function TrimStart(s: string): (r: string)
    ensures |r| <= |s|
    ensures r == [] || !IsWhitespace(r[0])
  {
    if |s| > 0 && IsWhitespace(s[0]) then TrimStart(s[1..]) else s
  }

  /** `str::trim_end`: drops the trailing whitespace. */
  function TrimEnd(s: string): (r: string)
    ensures |r| <= |s|
    ensures r == [] || !IsWhitespace(r[|r| - 1])
  {
    if |s| > 0 && IsWhitespace(s[|s| - 1]) then TrimEnd(s[..|s| - 1]) else s
  }

  /** `TrimStart` keeps a suffix and drops only whitespace. */
  lemma {:induction false} TrimStartDropsWhitespace(s: string)
    ensures TrimStart(s) == s[|s| - |TrimStart(s)|..]
    ensures forall i :: 0 <= i < |s| - |TrimStart(s)| ==> IsWhitespace(s[i])
  {
    if |s| > 0 && IsWhitespace(s[0]) {
      TrimStartDropsWhitespace(s[1..]);
      assert s[1..][|s| - 1 - |TrimStart(s)|..] == s[|s| - |TrimStart(s)|..];
      forall i | 0 < i < |s| - |TrimStart(s)|
        ensures IsWhitespace(s[i])
      {
        assert s[i] == s[1..][i - 1];
      }
    }
  }

  /** `TrimEnd` keeps a prefix and drops only whitespace. */
  lemma {:induction false} TrimEndDropsWhitespace(s: string)
    ensures TrimEnd(s) == s[..|TrimEnd(s)|]
    ensures forall i :: |TrimEnd(s)| <= i < |s| ==> IsWhitespace(s[i])
  {
    if |s| > 0 && IsWhitespace(s[|s| - 1]) {
      TrimEndDropsWhitespace(s[..|s| - 1]);
      assert s[..|s| - 1][..|TrimEnd(s)|] == s[..|TrimEnd(s)|];
      forall i | |TrimEnd(s)| <= i < |s| - 1
        ensures IsWhitespace(s[i])
      {
        assert s[i] == s[..|s| - 1][i];
      }
    }
  }

  /** `str::trim`: drops whitespace at both ends. */
  function Trim(s: string): string {
    TrimEnd(TrimStart(s))
  }

  /** A text trims to nothing exactly when it is all whitespace. */
  lemma TrimEmpty(s: string)
    ensures Trim(s) == [] <==> forall i :: 0 <= i < |s| ==> IsWhitespace(s[i])
  {
    var t := TrimStart(s);
    TrimStartDropsWhitespace(s);
    TrimEndDropsWhitespace(t);
    if t != [] {
      assert !IsWhitespace(t[0]) && t[0] == s[|s| - |t|];
    }
  }

  /** `s` holds no line break, so it stays one line when a text is read
      back line by line. */
  predicate OneLine(s: string) {
    '\n' !in s
  }

  /** A line that reads back as itself from a written text: one line, and
      no `'\r'` at its end, which would be taken for half of a `"\r\n"`
      line break. */
  predicate PlainLine(line: string) {
    OneLine(line) && (line == [] || line[|line| - 1] != '\r')
  }

  /** A non-empty trimmed line without a line break is plain, and stays
      plain behind any one-line prefix such as an indentation. */
  lemma PlainAfter(prefix: string, line: string)
    requires OneLine(prefix) && line != [] && Trimmed(line) && OneLine(line)
    ensures PlainLine(line) && PlainLine(prefix + line)
  {
    assert (prefix + line)[|prefix + line| - 1] == line[|line| - 1];
  }

  /** Every line of `lines` is plain. */
  predicate AllPlain(lines: seq<string>) {
    forall i :: 0 <= i < |lines| ==> PlainLine(lines[i])
  }

  lemma AllPlainConcat(a: seq<string>, b: seq<string>)
    requires AllPlain(a) && AllPlain(b)
    ensures AllPlain(a + b)
  {
    forall i | |a| <= i < |a + b|
      ensures PlainLine((a + b)[i])
    {
      assert (a + b)[i] == b[i - |a|];
    }
  }

  /** Pieces and a separator without line breaks join into one line. */
  lemma {:induction false} JoinOneLine(pieces: seq<string>, sep: string)
    requires OneLine(sep) && forall i :: 0 <= i < |pieces| ==> OneLine(pieces[i])
    ensures OneLine(Join(pieces, sep))
    decreases |pieces|
  {
    if |pieces| > 1 {
      JoinOneLine(pieces[1..], sep);
    }
  }

  /** Concatenation regroups freely. */
  lemma AppendAssociates<T>(a: seq<T>, b: seq<T>, c: seq<T>)
    ensures a + (b + c) == (a + b) + c
  {
  }

  /** Neither end of `s` is whitespace: `Trim` leaves it as it is. */
  predicate Trimmed(s: string) {
    s == [] || (!IsWhitespace(s[0]) && !IsWhitespace(s[|s| - 1]))
  }

  lemma TrimmedIsFixed(s: string)
    requires Trimmed(s)
    ensures TrimStart(s) == s && TrimEnd(s) == s && Trim(s) == s
  {
  }

  /** The result of `Trim` is trimmed. */
  lemma TrimIsTrimmed(s: string)
    ensures Trimmed(Trim(s))
  {
    var t := TrimStart(s);
    var r := TrimEnd(t);
    if r != [] {
      TrimEndDropsWhitespace(t);
      assert r[0] == t[0];
    }
  }

  /** Leading whitespace in front of a trimmed string is all that `Trim` removes. */
  lemma TrimPadded(pad: string, s: string)
    requires forall i :: 0 <= i < |pad| ==> IsWhitespace(pad[i])
    requires Trimmed(s)
    ensures Trim(pad + s) == s
  {
    TrimStartPadded(pad, s);
    TrimmedIsFixed(s);
  }

  lemma {:induction false} TrimStartPadded(pad: string, s: string)
    requires forall i :: 0 <= i < |pad| ==> IsWhitespace(pad[i])
    requires s == [] || !IsWhitespace(s[0])
    ensures TrimStart(pad + s) == s
    decreases |pad|
  {
    if pad != [] {
      assert (pad + s)[1..] == pad[1..] + s;
      TrimStartPadded(pad[1..], s);
    }
  }

  /** Trailing whitespace after a string that does not end in whitespace is
      all that `TrimEnd` removes. */
  lemma {:induction false} TrimEndPadded(s: string, pad: string)
    requires forall i :: 0 <= i < |pad| ==> IsWhitespace(pad[i])
    requires s == [] || !IsWhitespace(s[|s| - 1])
    decreases |pad|
    ensures TrimEnd(s + pad) == s
  {
    if pad != [] {
      assert (s + pad)[..|s + pad| - 1] == s + pad[..|pad| - 1];
      TrimEndPadded(s, pad[..|pad| - 1]);
    } else {
      assert s + pad == s;
    }
  }

  /** Whitespace on both sides of a non-empty trimmed string is all that
      `Trim` removes. */
  lemma TrimBothPadded(left: string, s: string, right: string)
    requires forall i :: 0 <= i < |left| ==> IsWhitespace(left[i])
    requires forall i :: 0 <= i < |right| ==> IsWhitespace(right[i])
    requires s != [] && Trimmed(s)
    ensures Trim(left + s + right) == s
  {
    assert left + s + right == left + (s + right);
    TrimStartPadded(left, s + right);
    TrimEndPadded(s, right);
  }

  /** `s` begins with `prefix` (`str::starts_with`). */
  predicate StartsWith(s: string, prefix: string) {
    |prefix| <= |s| && s[..|prefix|] == prefix
  }

  /** `pat` occurs in `s` at index `k`. */
  predicate OccursAt(s: string, pat: string, k: nat) {
    k + |pat| <= |s| && s[k..k + |pat|] == pat
  }

  /** The first index at or after `k` where `pat` occurs (`str::find`). */
  function FindFrom(s: string, pat: string, k: nat): (r: Option<nat>)
    decreases |s| - k
    ensures r.Some? ==> k <= r.value && OccursAt(s, pat, r.value)
    ensures r.Some? ==> forall j :: k <= j < r.value ==> !OccursAt(s, pat, j)
    ensures r.None? ==> forall j :: k <= j ==> !OccursAt(s, pat, j)
  {
    if k + |pat| > |s| then None
    else if s[k..k + |pat|] == pat then Some(k)
    else FindFrom(s, pat, k + 1)
  }

  function Find(s: string, pat: string): Option<nat> {
    FindFrom(s, pat, 0)
  }

  /** `str::split_once`: the text before and after the first occurrence of `pat`. */
  function SplitOnce(s: string, pat: string): (r: Option<(string, string)>)
    ensures r.Some? ==> s == r.value.0 + pat + r.value.1
  {
    match Find(s, pat)
    case None => None
    case Some(k) =>
      assert s == s[..k] + pat + s[k + |pat|..];
      Some((s[..k], s[k + |pat|..]))
  }

  /** `SplitOnce` cuts at the first occurrence of `pat`, and finds none only
      when there is none. */
  lemma SplitOnceFirst(s: string, pat: string)
    ensures var r := SplitOnce(s, pat);
      && (r.Some? ==> OccursAt(s, pat, |r.value.0|))
      && (r.Some? ==> forall j :: 0 <= j < |r.value.0| ==> !OccursAt(s, pat, j))
      && (r.None? ==> forall j :: 0 <= j ==> !OccursAt(s, pat, j))
  {
  }

  /** When `pat` first occurs right after `a`, `SplitOnce` cuts there. */
  lemma SplitOnceAt(a: string, pat: string, b: string)
    requires forall j :: 0 <= j < |a| ==> !OccursAt(a + pat + b, pat, j)
    ensures SplitOnce(a + pat + b, pat) == Some((a, b))
  {
    var s := a + pat + b;
    assert OccursAt(s, pat, |a|) by {
      assert s[|a|..|a| + |pat|] == pat;
    }
    var r := SplitOnce(s, pat);
    SplitOnceFirst(s, pat);
    assert r.Some?;
    assert |r.value.0| == |a|;
    assert r.value.0 == s[..|a|] == a;
    assert r.value.1 == s[|a| + |pat|..] == b;
  }

  /** The common case of `SplitOnceAt`: the first character of `pat` does not occur in `a`. */
  lemma SplitOnceFirstChar(a: string, pat: string, b: string)
    requires |pat| > 0 && pat[0] !in a
    ensures SplitOnce(a + pat + b, pat) == Some((a, b))
  {
    forall j | 0 <= j < |a|
      ensures !OccursAt(a + pat + b, pat, j)
    {
      NoOccurrenceAt(a + pat + b, pat, j);
    }
    SplitOnceAt(a, pat, b);
  }

  /** A pattern whose first two characters differ first occurs right after
      `a` when its second character does not occur in `a`. */
  lemma SplitOnceSecondChar(a: string, pat: string, b: string)
    requires |pat| >= 2 && pat[0] != pat[1] && pat[1] !in a
    ensures SplitOnce(a + pat + b, pat) == Some((a, b))
  {
    var s := a + pat + b;
    forall j | 0 <= j < |a|
      ensures !OccursAt(s, pat, j)
    {
      if j + |pat| <= |s| {
        assert s[j..j + |pat|][1] == s[j + 1];
      }
    }
    SplitOnceAt(a, pat, b);
  }

  /** A string without the first character of `pat` has no occurrence of `pat`. */
  lemma SplitOnceAbsent(s: string, pat: string)
    requires |pat| > 0 && pat[0] !in s
    ensures SplitOnce(s, pat) == None
  {
    forall j | 0 <= j < |s|
      ensures !OccursAt(s, pat, j)
    {
      NoOccurrenceAt(s, pat, j);
    }
    SplitOnceFirst(s, pat);
  }

  /** A string without the second character of a two-character pattern has
      no occurrence of it. */
  lemma SplitOnceSecondAbsent(s: string, pat: string)
    requires |pat| == 2 && pat[1] !in s
    ensures SplitOnce(s, pat) == None
  {
    forall j | 0 <= j
      ensures !OccursAt(s, pat, j)
    {
      if j + 2 <= |s| {
        assert s[j..j + 2][1] == s[j + 1];
      }
    }
    SplitOnceFirst(s, pat);
  }

  /** `pat` cannot occur where its first character is missing. */
  lemma NoOccurrenceAt(s: string, pat: string, j: nat)
    requires |pat| > 0 && j < |s| && s[j] != pat[0]
    ensures !OccursAt(s, pat, j)
  {
    if j + |pat| <= |s| {
      assert s[j..j + |pat|][0] == s[j];
    }
  }

  /** `str::split` with a non-empty pattern: every piece between occurrences. */
  function SplitAll(s: string, pat: string): (r: seq<string>)
    requires |pat| > 0
    decreases |s|
    ensures |r| > 0
  {
    match SplitOnce(s, pat)
    case None => [s]
    case Some((a, b)) => [a] + SplitAll(b, pat)
  }

  /** `slice::join`: the pieces with `sep` between them. */
  function Join(pieces: seq<string>, sep: string): string {
    if |pieces| == 0 then []
    else if |pieces| == 1 then pieces[0]
    else pieces[0] + sep + Join(pieces[1..], sep)
  }

  /** Splitting a join gives back the pieces when no piece holds the first
      character of the separator. */
  lemma {:induction false} SplitAllJoin(pieces: seq<string>, sep: string)
    requires |pieces| > 0 && |sep| > 0
    requires forall i :: 0 <= i < |pieces| ==> sep[0] !in pieces[i]
    ensures SplitAll(Join(pieces, sep), sep) == pieces
  {
    if |pieces| == 1 {
      SplitOnceAbsent(pieces[0], sep);
    } else {
      SplitOnceFirstChar(pieces[0], sep, Join(pieces[1..], sep));
      SplitAllJoin(pieces[1..], sep);
    }
  }

  /** A string of `n` spaces (`" ".repeat(n)`). */
  function Spaces(n: nat): (r: string)
    ensures |r| == n && forall i :: 0 <= i < n ==> r[i] == ' '
  {
    if n == 0 then [] else [' '] + Spaces(n - 1)
  }
}
