/** The parts of Rust's `str` API that the reader and its tools rely on, stated on
    `seq<char>`: whitespace splitting and trimming, splitting on a character,
    searching, replacement, lower-casing and decimal integers (`u32`/`u16`
    parsing and formatting). */
module Strings {
  import opened Wrappers

  const U32_LIMIT: nat := 0x1_0000_0000
  const U16_LIMIT: nat := 0x1_0000

  /** Unicode `White_Space`, the set Rust's `trim` and `split_whitespace` use. */
  predicate IsWhitespace(c: char) {
    ('\U{9}' <= c <= '\U{D}') || c == ' ' || c == '\U{85}' || c == '\U{A0}'
    || c == '\U{1680}' || ('\U{2000}' <= c <= '\U{200A}') || c == '\U{2028}' || c == '\U{2029}'
    || c == '\U{202F}' || c == '\U{205F}' || c == '\U{3000}'
  }

  predicate NoWhitespace(s: string) {
    forall i :: 0 <= i < |s| ==> !IsWhitespace(s[i])
  }

  predicate AllWhitespace(s: string) {
    forall i :: 0 <= i < |s| ==> IsWhitespace(s[i])
  }

  predicate IsDigit(c: char) {
    '0' <= c <= '9'
  }

  predicate AllDigits(s: string) {
    forall i :: 0 <= i < |s| ==> IsDigit(s[i])
  }

  predicate StartsWith(s: string, prefix: string) {
    |prefix| <= |s| && s[..|prefix|] == prefix
  }

  predicate EndsWith(s: string, suffix: string) {
    |suffix| <= |s| && s[|s| - |suffix|..] == suffix
  }

  lemma StartsWithAppend(a: string, b: string)
    ensures StartsWith(a + b, a)
  {
    assert (a + b)[..|a|] == a;
  }

  lemma EndsWithAppend(a: string, b: string)
    ensures EndsWith(a + b, b)
  {
    assert (a + b)[|a + b| - |b|..] == b;
  }

  /** `pat` occurs in `s` starting at index `i`. */
  predicate OccursAt(s: string, pat: string, i: nat) {
    i + |pat| <= |s| && s[i..i + |pat|] == pat
  }

  /** Rust's `str::contains` with a string pattern. */
  predicate Contains(s: string, pat: string) {
    exists i: nat | i <= |s| :: OccursAt(s, pat, i)
  }

  // ---------------------------------------------------------------------------
  // Searching

  /** The first index of `c` in `s` (Rust's `find(char)`). */
  function IndexOf(s: string, c: char): (r: Option<nat>)
    ensures r.Some? ==> r.value < |s| && s[r.value] == c && c !in s[..r.value]
    ensures r.None? <==> c !in s
  {
    if |s| == 0 then None
    else if s[0] == c then Some(0)
    else match IndexOf(s[1..], c)
      case None => None
      case Some(i) => assert s[..i + 1] == [s[0]] + s[1..][..i]; Some(i + 1)
  }

  /** The last index of `c` in `s` (Rust's `rfind(char)`). */
  function LastIndexOf(s: string, c: char): (r: Option<nat>)
    ensures r.Some? ==> r.value < |s| && s[r.value] == c && c !in s[r.value + 1..]
    ensures r.None? <==> c !in s
  {
    if |s| == 0 then None
    else if s[|s| - 1] == c then Some(|s| - 1)
    else
      var r := LastIndexOf(s[..|s| - 1], c);
      assert r.Some? ==> s[r.value + 1..] == s[..|s| - 1][r.value + 1..] + [s[|s| - 1]];
      assert r.None? ==> s == s[..|s| - 1] + [s[|s| - 1]];
      r
  }

  /** The first index at which `pat` occurs in `s` (Rust's `find(&str)`). */
  function Find(s: string, pat: string): (r: Option<nat>)
    ensures r.Some? ==> OccursAt(s, pat, r.value) && forall j: nat :: j < r.value ==> !OccursAt(s, pat, j)
    ensures r.None? ==> forall j: nat :: !OccursAt(s, pat, j)
    decreases |s|
  {
    if |s| < |pat| then None
    else if s[..|pat|] == pat then Some(0)
    else
      OccursShift(s, pat);
      match Find(s[1..], pat)
      case None => None
      case Some(i) => Some(i + 1)
  }

  lemma OccursShift(s: string, pat: string)
    requires |s| > 0
    ensures forall j: nat :: OccursAt(s, pat, j + 1) <==> OccursAt(s[1..], pat, j)
    ensures forall j: nat :: j >= 1 ==> (OccursAt(s, pat, j) <==> OccursAt(s[1..], pat, j - 1))
  {
    forall j: nat ensures OccursAt(s, pat, j + 1) <==> OccursAt(s[1..], pat, j) {
      if j + 1 + |pat| <= |s| {
        assert s[1..][j..j + |pat|] == s[j + 1..j + 1 + |pat|];
      }
    }
    forall j: nat | j >= 1 ensures OccursAt(s, pat, j) <==> OccursAt(s[1..], pat, j - 1) {
      assert OccursAt(s, pat, (j - 1) + 1) <==> OccursAt(s[1..], pat, j - 1);
    }
  }

  /** A pattern whose first character does not occur in `s` is not found. */
  lemma FindAbsent(s: string, pat: string)
    requires |pat| > 0 && pat[0] !in s
    ensures Find(s, pat) == None
  {
    forall j: nat ensures !OccursAt(s, pat, j) {
      assert j + |pat| <= |s| ==> s[j..j + |pat|][0] == s[j] != pat[0];
    }
  }

  /** An occurrence inside either part is an occurrence in the concatenation. */
  lemma OccursInConcat(a: string, b: string, pat: string, j: nat)
    ensures OccursAt(a, pat, j) ==> OccursAt(a + b, pat, j)
    ensures OccursAt(b, pat, j) ==> OccursAt(a + b, pat, |a| + j)
  {
    if OccursAt(a, pat, j) {
      assert (a + b)[j..j + |pat|] == a[j..j + |pat|];
    }
    if OccursAt(b, pat, j) {
      assert (a + b)[|a| + j..|a| + j + |pat|] == b[j..j + |pat|];
    }
  }

  lemma FindContains(s: string, pat: string)
    ensures Find(s, pat).Some? <==> Contains(s, pat)
  {
  }

  // ---------------------------------------------------------------------------
  // Trimming

  /** Rust's `trim_start`: drops leading whitespace. */
  function TrimStart(s: string): (r: string)
    ensures EndsWith(s, r) && AllWhitespace(s[..|s| - |r|])
    ensures r == [] || !IsWhitespace(r[0])
    decreases |s|
  {
    if |s| > 0 && IsWhitespace(s[0]) then
      var r := TrimStart(s[1..]);
      assert s[|s| - |r|..] == s[1..][|s| - 1 - |r|..];
      assert s[..|s| - |r|] == [s[0]] + s[1..][..|s| - 1 - |r|];
      r
    else s
  }

  /** Rust's `trim_end`: drops trailing whitespace. */
  function TrimEnd(s: string): (r: string)
    ensures StartsWith(s, r) && AllWhitespace(s[|r|..])
    ensures r == [] || !IsWhitespace(r[|r| - 1])
    decreases |s|
  {
    if |s| > 0 && IsWhitespace(s[|s| - 1]) then
      var r := TrimEnd(s[..|s| - 1]);
      assert s[..|r|] == s[..|s| - 1][..|r|];
      assert s[|r|..] == s[..|s| - 1][|r|..] + [s[|s| - 1]];
      r
    else s
  }

  /** Rust's `trim`: drops whitespace at both ends. */
  function Trim(s: string): (r: string)
    ensures r == [] || (!IsWhitespace(r[0]) && !IsWhitespace(r[|r| - 1]))
    ensures |r| <= |s|
  {
    var t := TrimStart(s);
    var r := TrimEnd(t);
    assert r != [] ==> r[0] == t[0];
    r
  }

  lemma TrimNoWhitespace(s: string)
    requires NoWhitespace(s)
    ensures Trim(s) == s
  {
  }

  /** Neither end of `s` is whitespace: what `trim` leaves. */
  predicate Trimmed(s: string) {
    s == [] || (!IsWhitespace(s[0]) && !IsWhitespace(s[|s| - 1]))
  }

  lemma {:induction false} TrimStartSkips(w: string, s: string)
    requires AllWhitespace(w) && (s == [] || !IsWhitespace(s[0]))
    ensures TrimStart(w + s) == s
  {
    if |w| > 0 {
      assert (w + s)[1..] == w[1..] + s;
      TrimStartSkips(w[1..], s);
    } else {
      assert w + s == s;
    }
  }

  lemma {:induction false} TrimEndSkips(s: string, w: string)
    requires AllWhitespace(w) && (s == [] || !IsWhitespace(s[|s| - 1]))
    ensures TrimEnd(s + w) == s
  {
    if |w| > 0 {
      var v := w[..|w| - 1];
      assert (s + w)[..|s + w| - 1] == s + v;
      TrimEndSkips(s, v);
    } else {
      assert s + w == s;
    }
  }

  /** Trimming removes exactly the whitespace around a trimmed text. */
  lemma TrimSurrounded(w1: string, s: string, w2: string)
    requires AllWhitespace(w1) && AllWhitespace(w2) && Trimmed(s)
    ensures Trim(w1 + s + w2) == s
  {
    if s == [] {
      assert w1 + s + w2 == w1 + w2;
      assert AllWhitespace(w1 + w2);
      TrimStartSkips(w1 + w2, []);
      assert w1 + w2 + [] == w1 + w2;
    } else {
      assert w1 + s + w2 == w1 + (s + w2);
      TrimStartSkips(w1, s + w2);
      TrimEndSkips(s, w2);
    }
  }

  /** A leading space never survives trimming. */
  lemma TrimLeadingSpace(s: string)
    ensures Trim(" " + s) == Trim(s)
  {
    assert (" " + s)[1..] == s;
    assert TrimStart(" " + s) == TrimStart(s);
  }

  /** Rust's `trim_start_matches(c)`: drops every leading `c`. */
  function TrimStartMatches(s: string, c: char): (r: string)
    ensures EndsWith(s, r) && (r == [] || r[0] != c)
    ensures forall i :: 0 <= i < |s| - |r| ==> s[i] == c
    decreases |s|
  {
    if |s| > 0 && s[0] == c then TrimStartMatches(s[1..], c) else s
  }

  // ---------------------------------------------------------------------------
  // Joining and splitting

  /** Rust's `join(sep)` over a slice of strings. */
  function Join(parts: seq<string>, sep: string): string
    decreases |parts|
  {
    if |parts| == 0 then ""
    else if |parts| == 1 then parts[0]
    else parts[0] + sep + Join(parts[1..], sep)
  }

  lemma JoinAppend(parts: seq<string>, last: string, sep: string)
    requires |parts| > 0
    ensures Join(parts + [last], sep) == Join(parts, sep) + sep + last
    decreases |parts|
  {
    if |parts| == 1 {
      assert parts + [last] == [parts[0], last];
    } else {
      assert (parts + [last])[1..] == parts[1..] + [last];
      JoinAppend(parts[1..], last, sep);
    }
  }

  /** Rust's `split(c)`: the pieces between occurrences of `sep` (at least one). */
  function Split(s: string, sep: char): (r: seq<string>)
    ensures |r| >= 1
    ensures forall i :: 0 <= i < |r| ==> sep !in r[i]
    ensures Join(r, [sep]) == s
    ensures r[0] == (match IndexOf(s, sep) case Some(i) => s[..i] case None => s)
    decreases |s|
  {
    match IndexOf(s, sep)
    case None => [s]
    case Some(i) =>
      assert s == s[..i] + [sep] + s[i + 1..];
      SplitAround(s[..i], sep, s[i + 1..], Split(s[i + 1..], sep))
  }

  /** The pieces of `head + [sep] + tail`, given those of `tail`. */
  function SplitAround(head: string, sep: char, tail: string, rest: seq<string>): (r: seq<string>)
    requires sep !in head && |rest| >= 1 && Join(rest, [sep]) == tail
    requires forall i :: 0 <= i < |rest| ==> sep !in rest[i]
    ensures |r| >= 1 && r[0] == head
    ensures forall i :: 0 <= i < |r| ==> sep !in r[i]
    ensures Join(r, [sep]) == head + [sep] + tail
  {
    var r := [head] + rest;
    assert r[1..] == rest;
    assert forall k :: 0 < k < |r| ==> r[k] == rest[k - 1];
    r
  }

  lemma SplitConcat(a: string, sep: char, b: string)
    requires sep !in a
    ensures Split(a + [sep] + b, sep) == [a] + Split(b, sep)
  {
    var s := a + [sep] + b;
    IndexOfFirst(a, sep, [sep] + b);
    assert s == a + ([sep] + b);
    assert s[..|a|] == a && s[|a| + 1..] == b;
  }

  /** Splitting a join on a separator no piece contains gives the pieces back. */
  lemma {:induction false} SplitJoin(pieces: seq<string>, sep: char)
    requires |pieces| >= 1
    requires forall i :: 0 <= i < |pieces| ==> sep !in pieces[i]
    ensures Split(Join(pieces, [sep]), sep) == pieces
    decreases |pieces|
  {
    if |pieces| == 1 {
      SplitNoSep(pieces[0], sep);
    } else {
      SplitJoin(pieces[1..], sep);
      SplitConcat(pieces[0], sep, Join(pieces[1..], [sep]));
      assert pieces == [pieces[0]] + pieces[1..];
    }
  }

  /** Every character of a join comes from a piece or from the separator. */
  lemma {:induction false} JoinChars(pieces: seq<string>, sep: string, P: char -> bool)
    requires forall i, j :: 0 <= i < |pieces| && 0 <= j < |pieces[i]| ==> P(pieces[i][j])
    requires forall j :: 0 <= j < |sep| ==> P(sep[j])
    ensures forall j :: 0 <= j < |Join(pieces, sep)| ==> P(Join(pieces, sep)[j])
    decreases |pieces|
  {
    if |pieces| > 1 {
      JoinChars(pieces[1..], sep, P);
      var rest := Join(pieces[1..], sep);
      var s := pieces[0] + sep + rest;
      forall j | 0 <= j < |s| ensures P(s[j]) {
        if j < |pieces[0]| {
          assert s[j] == pieces[0][j];
        } else if j < |pieces[0]| + |sep| {
          assert s[j] == sep[j - |pieces[0]|];
        } else {
          assert s[j] == rest[j - |pieces[0]| - |sep|];
        }
      }
    }
  }

  /** Text found in one piece of a join is found in the join. */
  lemma {:induction false} JoinContains(pieces: seq<string>, sep: string, i: nat, pat: string)
    requires i < |pieces| && Contains(pieces[i], pat)
    ensures Contains(Join(pieces, sep), pat)
    decreases |pieces|
  {
    if |pieces| > 1 {
      var rest := Join(pieces[1..], sep);
      assert Join(pieces, sep) == pieces[0] + (sep + rest) == (pieces[0] + sep) + rest;
      if i == 0 {
        var j: nat :| j <= |pieces[0]| && OccursAt(pieces[0], pat, j);
        OccursInConcat(pieces[0], sep + rest, pat, j);
        assert OccursAt(Join(pieces, sep), pat, j);
      } else {
        JoinContains(pieces[1..], sep, i - 1, pat);
        var k: nat :| k <= |rest| && OccursAt(rest, pat, k);
        OccursInConcat(pieces[0] + sep, rest, pat, k);
        assert OccursAt(Join(pieces, sep), pat, |pieces[0] + sep| + k);
      }
    }
  }

  lemma SplitNoSep(s: string, sep: char)
    requires sep !in s
    ensures Split(s, sep) == [s]
  {
  }

  /** Rust's `split_once(c)`: the text before and after the first `sep`. */
  function SplitOnce(s: string, sep: char): (r: Option<(string, string)>)
    ensures r.None? <==> sep !in s
    ensures r.Some? ==> sep !in r.value.0 && s == r.value.0 + [sep] + r.value.1
  {
    match IndexOf(s, sep)
    case None => None
    case Some(i) =>
      assert s == s[..i] + [sep] + s[i + 1..];
      Some((s[..i], s[i + 1..]))
  }

  lemma SplitOnceFirst(a: string, sep: char, b: string)
    requires sep !in a
    ensures SplitOnce(a + [sep] + b, sep) == Some((a, b))
  {
    var s := a + [sep] + b;
    IndexOfFirst(a, sep, [sep] + b);
    assert s == a + ([sep] + b);
    assert s[..|a|] == a && s[|a| + 1..] == b;
  }

  lemma {:induction false} IndexOfFirst(a: string, c: char, t: string)
    requires c !in a && t != [] && t[0] == c
    ensures IndexOf(a + t, c) == Some(|a|)
    decreases |a|
  {
    if a == [] {
      assert a + t == t;
    } else {
      assert (a + t)[0] == a[0];
      assert (a + t)[1..] == a[1..] + t;
      IndexOfFirst(a[1..], c, t);
    }
  }

  /** Rust's `rsplit_once(c)`: the text before and after the last `sep`. */
  function RSplitOnce(s: string, sep: char): (r: Option<(string, string)>)
    ensures r.None? <==> sep !in s
    ensures r.Some? ==> sep !in r.value.1 && s == r.value.0 + [sep] + r.value.1
  {
    match LastIndexOf(s, sep)
    case None => None
    case Some(i) =>
      assert s == s[..i] + [sep] + s[i + 1..];
      Some((s[..i], s[i + 1..]))
  }

  /** Splitting at the last `sep` finds the one before a `sep`-free tail. */
  lemma RSplitOnceLast(a: string, sep: char, b: string)
    requires sep !in b
    ensures RSplitOnce(a + [sep] + b, sep) == Some((a, b))
  {
    var s := a + [sep] + b;
    assert s[|a|] == sep;
    var i := LastIndexOf(s, sep).value;
    forall j | i < j < |s| ensures s[j] != sep {
      assert s[j] == s[i + 1..][j - i - 1];
    }
    forall k | |a| < k < |s| ensures s[k] != sep {
      assert s[k] == b[k - |a| - 1];
    }
    assert s[..|a|] == a && s[|a| + 1..] == b;
  }

  /** Number of leading characters of `s` that are not whitespace. */
  function WordLength(s: string): (n: nat)
    ensures n <= |s| && NoWhitespace(s[..n])
    ensures n < |s| ==> IsWhitespace(s[n])
  {
    if |s| == 0 || IsWhitespace(s[0]) then 0
    else
      var n := 1 + WordLength(s[1..]);
      assert s[..n] == [s[0]] + s[1..][..n - 1];
      n
  }

  predicate IsWord(w: string) {
    w != [] && NoWhitespace(w)
  }

  /** Rust's `split_whitespace`: the maximal runs of non-whitespace characters. */
  function SplitWhitespace(s: string): (r: seq<string>)
    ensures forall i :: 0 <= i < |r| ==> IsWord(r[i])
    decreases |s|
  {
    if |s| == 0 then []
    else if IsWhitespace(s[0]) then SplitWhitespace(s[1..])
    else
      var n := WordLength(s);
      [s[..n]] + SplitWhitespace(s[n..])
  }

  lemma {:induction false} SplitWhitespaceOfWord(w: string)
    requires IsWord(w)
    ensures SplitWhitespace(w) == [w]
  {
    var n := WordLength(w);
    assert n == |w|;
    assert !IsWhitespace(w[0]);
    assert w[..n] == w && w[n..] == [];
  }

  lemma {:induction false} SplitWhitespaceSkip(ws: string, s: string)
    requires AllWhitespace(ws)
    ensures SplitWhitespace(ws + s) == SplitWhitespace(s)
    decreases |ws|
  {
    if |ws| > 0 {
      assert (ws + s)[1..] == ws[1..] + s;
      SplitWhitespaceSkip(ws[1..], s);
    } else {
      assert ws + s == s;
    }
  }

  /** Splitting the single-space join of words gives the words back. */
  lemma {:induction false} SplitWhitespaceJoin(words: seq<string>)
    requires forall i :: 0 <= i < |words| ==> IsWord(words[i])
    ensures SplitWhitespace(Join(words, " ")) == words
    decreases |words|
  {
    if |words| == 0 {
    } else if |words| == 1 {
      SplitWhitespaceOfWord(words[0]);
    } else {
      var w := words[0];
      var rest := Join(words[1..], " ");
      var s := w + " " + rest;
      assert Join(words, " ") == s;
      WordPrefix(w, " " + rest);
      assert s == w + (" " + rest);
      assert s[|w|..] == " " + rest;
      SplitWhitespaceSkip(" ", rest);
      SplitWhitespaceJoin(words[1..]);
      assert SplitWhitespace(s) == [w] + SplitWhitespace(s[|w|..]);
      assert words == [w] + words[1..];
    }
  }

  lemma {:induction false} WordPrefix(w: string, t: string)
    requires IsWord(w)
    requires t != [] && IsWhitespace(t[0])
    ensures WordLength(w + t) == |w|
    decreases |w|
  {
    if |w| > 1 {
      assert (w + t)[1..] == w[1..] + t;
      WordPrefix(w[1..], t);
    } else {
      assert (w + t)[1..] == t;
    }
  }

  // ---------------------------------------------------------------------------
  // Replacement and case

  /** Rust's `replace(pat, rep)`: every non-overlapping occurrence, left to right. */
  function Replace(s: string, pat: string, rep: string): string
    requires |pat| > 0
    decreases |s|
  {
    if |s| < |pat| then s
    else if s[..|pat|] == pat then rep + Replace(s[|pat|..], pat, rep)
    else [s[0]] + Replace(s[1..], pat, rep)
  }

  lemma {:induction false} ReplaceAbsent(s: string, pat: string, rep: string)
    requires |pat| > 0 && !Contains(s, pat)
    ensures Replace(s, pat, rep) == s
    decreases |s|
  {
    if |s| >= |pat| {
      assert !OccursAt(s, pat, 0);
      OccursShift(s, pat);
      assert !Contains(s[1..], pat);
      ReplaceAbsent(s[1..], pat, rep);
    }
  }

  /** Replacing one character by another, as Rust's `replace(' ', "_")` does. */
  function ReplaceChar(s: string, from: char, to: char): (r: string)
    ensures |r| == |s|
    ensures forall i :: 0 <= i < |s| ==> r[i] == (if s[i] == from then to else s[i])
  {
    seq(|s|, i requires 0 <= i < |s| => if s[i] == from then to else s[i])
  }

  /** Lower-casing of one character: ASCII and the Latin-1 capitals. */
  function LowerChar(c: char): char {
    if 'A' <= c <= 'Z' then (c as int + 32) as char
    else if '\U{C0}' <= c <= '\U{DE}' && c != '\U{D7}' then (c as int + 32) as char
    else c
  }

  /** Rust's `to_lowercase`, restricted to ASCII and Latin-1. */
  function ToLower(s: string): (r: string)
    ensures |r| == |s|
    ensures forall i :: 0 <= i < |s| ==> r[i] == LowerChar(s[i])
  {
    seq(|s|, i requires 0 <= i < |s| => LowerChar(s[i]))
  }

  lemma ToLowerIdempotent(s: string)
    ensures ToLower(ToLower(s)) == ToLower(s)
  {
  }

  // ---------------------------------------------------------------------------
  // Decimal integers

  function DigitValue(c: char): nat
    requires IsDigit(c)
  {
    c as int - '0' as int
  }

  function DigitChar(d: nat): (c: char)
    requires d < 10
    ensures IsDigit(c) && DigitValue(c) == d
  {
    ('0' as int + d) as char
  }

  /** The value of a string of decimal digits. */
  function DigitsValue(s: string): nat
    requires AllDigits(s)
  {
    if |s| == 0 then 0
    else DigitsValue(s[..|s| - 1]) * 10 + DigitValue(s[|s| - 1])
  }

  /** Rust's unsigned `str::parse`: an optional `+`, then at least one ASCII digit,
      with the value below `limit`; no whitespace is allowed anywhere. */
  function ParseUnsigned(s: string, limit: nat): (r: Option<nat>)
    ensures r.Some? ==> r.value < limit
    ensures r.Some? ==> s != [] && IsDigit(s[|s| - 1])
  {
    var digits := if |s| > 0 && s[0] == '+' then s[1..] else s;
    if |digits| == 0 || !AllDigits(digits) then None
    else if DigitsValue(digits) < limit then Some(DigitsValue(digits))
    else None
  }

  /** `str::parse::<u32>()`. */
  function ParseU32(s: string): (r: Option<nat>)
    ensures r.Some? ==> r.value < U32_LIMIT
  {
    ParseUnsigned(s, U32_LIMIT)
  }

  /** `str::parse::<u16>()`. */
  function ParseU16(s: string): (r: Option<nat>)
    ensures r.Some? ==> r.value < U16_LIMIT
  {
    ParseUnsigned(s, U16_LIMIT)
  }

  /** Decimal rendering of a natural number, as Rust's `{}` formats an integer. */
  function NatToString(n: nat): (s: string)
    ensures |s| > 0 && AllDigits(s)
    ensures DigitsValue(s) == n
    ensures s[0] != '0' || n == 0
  {
    if n < 10 then [DigitChar(n)]
    else
      var p := NatToString(n / 10);
      var s := p + [DigitChar(n % 10)];
      assert s[..|s| - 1] == p;
      s
  }

  /** Formatting then parsing a `u32` gives the number back. */
  lemma ParseNatToString(n: nat)
    requires n < U32_LIMIT
    ensures ParseU32(NatToString(n)) == Some(n)
  {
    var s := NatToString(n);
    assert s[0] != '+';
  }

  lemma NatToStringNoWhitespace(n: nat)
    ensures IsWord(NatToString(n))
  {
    var s := NatToString(n);
    forall i | 0 <= i < |s| ensures !IsWhitespace(s[i]) {
      assert IsDigit(s[i]);
    }
  }

  lemma {:induction false} DigitsValueInjective(a: string, b: string)
    requires AllDigits(a) && AllDigits(b) && |a| == |b|
    requires DigitsValue(a) == DigitsValue(b)
    ensures a == b
    decreases |a|
  {
    if |a| > 0 {
      var la, lb := a[..|a| - 1], b[..|b| - 1];
      assert DigitsValue(a) % 10 == DigitValue(a[|a| - 1]);
      assert DigitsValue(b) % 10 == DigitValue(b[|b| - 1]);
      assert DigitsValue(la) == DigitsValue(lb);
      DigitsValueInjective(la, lb);
      assert a == la + [a[|a| - 1]];
      assert b == lb + [b[|b| - 1]];
    }
  }

  lemma {:induction false} NatToStringInjective(m: nat, n: nat)
    requires NatToString(m) == NatToString(n)
    ensures m == n
  {
  }
}
