/** The command palette's search logic (site/src/components/command_palette.rs):
    reading a typed verse reference, ranking verse numbers, normalising text
    for search, and the layered fuzzy scorer. */
module CommandPalette {
  import opened Wrappers
  import opened Strings
  import Percent
  import opened Arithmetic

  // ---------------------------------------------------------------------------
  // Verse references

  /** A reference typed as `"<book> <chapter>:<verse>"`; the verse is absent
      for an incomplete `"<book> <chapter>:"`. */
  datatype VerseReference = VerseReference(bookName: string, chapter: nat, verse: Option<nat>)

  /** `parse_verse_reference`: the query trimmed and lower-cased; before the
      first `:` at least two words whose last is the chapter number; after it
      nothing, or a number (the start of a range `a-b`). */
  function ParseVerseReference(query: string): (r: Option<VerseReference>)
    ensures r.Some? ==> ':' in query
    ensures r.Some? ==> r.value.chapter < U32_LIMIT
    ensures r.Some? && r.value.verse.Some? ==> r.value.verse.value < U32_LIMIT
  {
    var q := ToLower(Trim(query));
    var r := ParseLowered(q);
    if r.Some? then ColonInQuery(query, q, IndexOf(q, ':').value); r else r
  }

  /** The reference read from the already trimmed, lower-cased query. */
  function ParseLowered(q: string): (r: Option<VerseReference>)
    ensures r.Some? ==> IndexOf(q, ':').Some?
    ensures r.Some? ==> r.value.chapter < U32_LIMIT
    ensures r.Some? && r.value.verse.Some? ==> r.value.verse.value < U32_LIMIT
  {
    match IndexOf(q, ':')
    case None => None
    case Some(pos) =>
      var parts := SplitWhitespace(q[..pos]);
      if |parts| < 2 then None
      else
        match ParseU32(parts[|parts| - 1])
        case None => None
        case Some(chapter) => ReferenceTail(Join(parts[..|parts| - 1], " "), chapter, Trim(q[pos + 1..]))
  }

  lemma ColonInQuery(query: string, q: string, pos: nat)
    requires q == ToLower(Trim(query)) && pos < |q| && q[pos] == ':'
    ensures ':' in query
  {
    var t := Trim(query);
    assert LowerChar(t[pos]) == ':';
    assert t[pos] == ':';
    TrimIsInfix(query);
  }

  /** Every character of `Trim(s)` is a character of `s`. */
  lemma TrimIsInfix(s: string)
    ensures forall c :: c in Trim(s) ==> c in s
  {
    var t := TrimStart(s);
    assert t == s[|s| - |t|..];
    var r := TrimEnd(t);
    assert r == t[..|r|];
  }

  /** Text whose characters lower-casing leaves alone. */
  predicate IsLowerText(s: string) {
    forall i :: 0 <= i < |s| ==> LowerChar(s[i]) == s[i]
  }

  lemma ToLowerOfLower(s: string)
    requires IsLowerText(s)
    ensures ToLower(s) == s
  {
  }

  lemma TrimClean(s: string)
    requires s != [] && !IsWhitespace(s[0]) && !IsWhitespace(s[|s| - 1])
    ensures Trim(s) == s
  {
    assert TrimStart(s) == s;
    assert TrimEnd(s) == s;
  }

  /** The text before the colon of a reference: the book words and the
      chapter number. */
  function ReferenceHead(words: seq<string>, chapter: nat): string {
    Join(words + [NatToString(chapter)], " ")
  }

  /** The words before the colon of a reference come back as the book (joined
      by single spaces) and the chapter. */
  lemma ReferenceHeadParts(words: seq<string>, chapter: nat)
    requires |words| > 0 && forall i :: 0 <= i < |words| ==> IsWord(words[i])
    ensures SplitWhitespace(ReferenceHead(words, chapter)) == words + [NatToString(chapter)]
    ensures ReferenceHead(words, chapter) != [] && !IsWhitespace(ReferenceHead(words, chapter)[0])
  {
    var all := words + [NatToString(chapter)];
    NatToStringNoWhitespace(chapter);
    assert forall i :: 0 <= i < |all| ==> IsWord(all[i]);
    SplitWhitespaceJoin(all);
    JoinAppend(words, NatToString(chapter), " ");
    JoinFirst(words, " ");
  }

  lemma {:induction false} JoinFirst(parts: seq<string>, sep: string)
    requires |parts| > 0 && parts[0] != []
    ensures Join(parts, sep) != [] && Join(parts, sep)[0] == parts[0][0]
  {
    if |parts| > 1 {
      assert Join(parts, sep) == parts[0] + sep + Join(parts[1..], sep);
    }
  }

  /** A well-formed lower-case reference `"<book words> <chapter>:<tail>"`
      reads back as its book and chapter; the verse then depends on the tail
      alone. */
  lemma ParseReferenceHead(words: seq<string>, chapter: nat, tail: string)
    requires |words| > 0 && forall i :: 0 <= i < |words| ==> IsWord(words[i]) && ':' !in words[i]
    requires IsLowerText(ReferenceHead(words, chapter)) && IsLowerText(tail)
    requires chapter < U32_LIMIT
    requires tail == [] || !IsWhitespace(tail[|tail| - 1])
    ensures ParseVerseReference(ReferenceHead(words, chapter) + ":" + tail)
         == ReferenceTail(Join(words, " "), chapter, Trim(tail))
  {
    var head := ReferenceHead(words, chapter);
    var q := head + ":" + tail;
    ReferenceHeadParts(words, chapter);
    calc {
      ParseVerseReference(q);
      { ReferenceQueryNormal(head, tail); ParseNormalQuery(q); }
      ParseLowered(q);
      { ReferenceColon(words, chapter, tail);
        ParseLoweredSplit(q, |head|, words, chapter); }
      ReferenceTail(Join(words, " "), chapter, Trim(tail));
    }
  }

  /** A query that is already trimmed and lower case is parsed as it is. */
  lemma ParseNormalQuery(q: string)
    requires ToLower(Trim(q)) == q
    ensures ParseVerseReference(q) == ParseLowered(q)
  {
  }

  /** What the lowered parser makes of a query whose first colon follows
      book words and a chapter number. */
  lemma ParseLoweredSplit(q: string, pos: nat, words: seq<string>, chapter: nat)
    requires IndexOf(q, ':') == Some(pos) && |words| > 0 && chapter < U32_LIMIT
    requires SplitWhitespace(q[..pos]) == words + [NatToString(chapter)]
    ensures ParseLowered(q) == ReferenceTail(Join(words, " "), chapter, Trim(q[pos + 1..]))
  {
    var parts := words + [NatToString(chapter)];
    assert parts[..|parts| - 1] == words;
    ParseU32OfChapter(chapter);
  }

  /** A reference query is already trimmed and lower case. */
  lemma ReferenceQueryNormal(head: string, tail: string)
    requires head != [] && !IsWhitespace(head[0])
    requires IsLowerText(head) && IsLowerText(tail)
    requires tail == [] || !IsWhitespace(tail[|tail| - 1])
    ensures ToLower(Trim(head + ":" + tail)) == head + ":" + tail
  {
    var q := head + ":" + tail;
    assert IsLowerText(q) by {
      forall i | 0 <= i < |q| ensures LowerChar(q[i]) == q[i] {
        if i < |head| {
          assert q[i] == head[i];
        } else if i > |head| {
          assert q[i] == tail[i - |head| - 1];
        }
      }
    }
    assert q[0] == head[0];
    assert q[|q| - 1] == (if tail == [] then ':' else tail[|tail| - 1]);
    TrimClean(q);
    ToLowerOfLower(q);
  }

  /** The colon of a reference query is the one after the chapter. */
  lemma ReferenceColon(words: seq<string>, chapter: nat, tail: string)
    requires forall i :: 0 <= i < |words| ==> ':' !in words[i]
    ensures var q := ReferenceHead(words, chapter) + ":" + tail;
      && IndexOf(q, ':') == Some(|ReferenceHead(words, chapter)|)
      && q[..|ReferenceHead(words, chapter)|] == ReferenceHead(words, chapter)
      && q[|ReferenceHead(words, chapter)| + 1..] == tail
  {
    var head := ReferenceHead(words, chapter);
    var all := words + [NatToString(chapter)];
    assert ':' !in head by {
      NatToStringNoColon(chapter);
      assert forall i, j :: 0 <= i < |all| && 0 <= j < |all[i]| ==> all[i][j] != ':' by {
        forall i, j | 0 <= i < |all| && 0 <= j < |all[i]| ensures all[i][j] != ':' {
          assert all[i][j] in all[i];
        }
      }
      JoinChars(all, " ", c => c != ':');
    }
    var q := head + ":" + tail;
    assert q == head + (":" + tail);
    IndexOfFirst(head, ':', ":" + tail);
  }

  lemma NatToStringNoColon(n: nat)
    ensures ':' !in NatToString(n)
  {
    var s := NatToString(n);
    forall i | 0 <= i < |s| ensures s[i] != ':' {
      assert IsDigit(s[i]);
    }
  }

  lemma ParseU32OfChapter(chapter: nat)
    requires chapter < U32_LIMIT
    ensures ParseU32(NatToString(chapter)) == Some(chapter)
  {
    ParseNatToString(chapter);
  }

  /** What the part after the colon makes of a reference to `book` and
      `chapter`. */
  function ReferenceTail(book: string, chapter: nat, after: string): (r: Option<VerseReference>)
    ensures r.Some? ==> r.value.bookName == book && r.value.chapter == chapter
    ensures r.Some? && r.value.verse.Some? ==> r.value.verse.value < U32_LIMIT
    ensures r.Some? && r.value.verse.None? <==> after == []
  {
    if after == [] then Some(VerseReference(book, chapter, None))
    else match ParseU32(Split(after, '-')[0])
      case None => None
      case Some(verse) => Some(VerseReference(book, chapter, Some(verse)))
  }

  /** `"<book> <chapter>:<verse>"` reads back as that book, chapter and verse. */
  lemma ParseFullReference(words: seq<string>, chapter: nat, verse: nat)
    requires |words| > 0 && forall i :: 0 <= i < |words| ==> IsWord(words[i]) && ':' !in words[i]
    requires IsLowerText(ReferenceHead(words, chapter))
    requires chapter < U32_LIMIT && verse < U32_LIMIT
    ensures ParseVerseReference(ReferenceHead(words, chapter) + ":" + NatToString(verse))
         == Some(VerseReference(Join(words, " "), chapter, Some(verse)))
  {
    var v := NatToString(verse);
    DigitsAreLower(v);
    NatToStringNoWhitespace(verse);
    ParseReferenceHead(words, chapter, v);
    TrimClean(v);
    SplitNoSep(v, '-');
    ParseNatToString(verse);
  }

  /** `"<book> <chapter>:<a>-<b>"` takes the start of the range as the verse. */
  lemma ParseRangeReference(words: seq<string>, chapter: nat, a: nat, b: nat)
    requires |words| > 0 && forall i :: 0 <= i < |words| ==> IsWord(words[i]) && ':' !in words[i]
    requires IsLowerText(ReferenceHead(words, chapter))
    requires chapter < U32_LIMIT && a < U32_LIMIT
    ensures ParseVerseReference(ReferenceHead(words, chapter) + ":" + NatToString(a) + "-" + NatToString(b))
         == Some(VerseReference(Join(words, " "), chapter, Some(a)))
  {
    var t := NatToString(a) + "-" + NatToString(b);
    assert IsLowerText(t) && !IsWhitespace(t[|t| - 1]) && Trim(t) == t && Split(t, '-')[0] == NatToString(a) by {
      RangeTail(a, b);
    }
    RangeQuery(ReferenceHead(words, chapter), NatToString(a), NatToString(b));
    assert ParseVerseReference(ReferenceHead(words, chapter) + ":" + t)
        == ReferenceTail(Join(words, " "), chapter, t) by {
      ParseReferenceHead(words, chapter, t);
    }
    assert ParseU32(NatToString(a)) == Some(a) by {
      ParseNatToString(a);
    }
  }

  lemma RangeQuery(head: string, sa: string, sb: string)
    ensures head + ":" + sa + "-" + sb == head + ":" + (sa + "-" + sb)
  {
  }

  /** The text of a verse range is clean and splits at its dash. */
  lemma RangeTail(a: nat, b: nat)
    ensures var t := NatToString(a) + "-" + NatToString(b);
      && IsLowerText(t) && !IsWhitespace(t[|t| - 1]) && Trim(t) == t
      && Split(t, '-')[0] == NatToString(a)
  {
    DigitRangeClean(NatToString(a), NatToString(b));
    DigitRangeSplit(NatToString(a), NatToString(b));
  }

  lemma DigitRangeClean(sa: string, sb: string)
    requires sa != [] && sb != [] && AllDigits(sa) && AllDigits(sb)
    ensures var t := sa + "-" + sb;
      && IsLowerText(t) && !IsWhitespace(t[|t| - 1]) && Trim(t) == t
  {
    var t := sa + "-" + sb;
    assert AllDigits(sb);
    assert t[|t| - 1] == sb[|sb| - 1];
    assert t[0] == sa[0];
    forall i | 0 <= i < |t| ensures LowerChar(t[i]) == t[i] {
      if i < |sa| {
        assert t[i] == sa[i];
      } else if i > |sa| {
        assert t[i] == sb[i - |sa| - 1];
      }
    }
    TrimClean(t);
  }

  lemma DigitRangeSplit(sa: string, sb: string)
    requires AllDigits(sa)
    ensures Split(sa + "-" + sb, '-')[0] == sa
  {
    assert '-' !in sa by {
      forall i | 0 <= i < |sa| ensures sa[i] != '-' {
        assert IsDigit(sa[i]);
      }
    }
    SplitConcat(sa, '-', sb);
    assert sa + "-" + sb == sa + ['-'] + sb;
  }

  /** `"<book> <chapter>:"` reads back as a reference without a verse. */
  lemma ParseIncompleteReference(words: seq<string>, chapter: nat)
    requires |words| > 0 && forall i :: 0 <= i < |words| ==> IsWord(words[i]) && ':' !in words[i]
    requires IsLowerText(ReferenceHead(words, chapter))
    requires chapter < U32_LIMIT
    ensures ParseVerseReference(ReferenceHead(words, chapter) + ":")
         == Some(VerseReference(Join(words, " "), chapter, None))
  {
    assert ReferenceHead(words, chapter) + ":" == ReferenceHead(words, chapter) + ":" + "";
    ParseReferenceHead(words, chapter, "");
  }

  lemma DigitsAreLower(s: string)
    requires AllDigits(s)
    ensures IsLowerText(s)
  {
    forall i | 0 <= i < |s| ensures LowerChar(s[i]) == s[i] {
      assert IsDigit(s[i]);
    }
  }

  /** A query without a colon is never a reference. */
  lemma NoColonNoReference(query: string)
    requires ':' !in query
    ensures ParseVerseReference(query).None?
  {
  }

  // ---------------------------------------------------------------------------
  // Verse numbers

  /** `score_verse_number_match`: 1000 for the number itself, 800 when its
      digits start with the searched digits, 400 when the searched digits
      start with its digits, 600 when they occur inside it, else 0 — tested
      in that order. */
  function ScoreVerseNumber(verse: nat, search: nat): (r: nat)
    requires verse < U32_LIMIT && search < U32_LIMIT
    ensures r == 1000 <==> verse == search
    ensures r > 0 <==> Contains(NatToString(verse), NatToString(search)) || StartsWith(NatToString(search), NatToString(verse))
    ensures r == 800 ==> verse != search && StartsWith(NatToString(verse), NatToString(search))
  {
    var v := NatToString(verse);
    var s := NatToString(search);
    assert StartsWith(v, s) ==> OccursAt(v, s, 0);
    if verse == search then 1000
    else if StartsWith(v, s) then 800
    else if StartsWith(s, v) then 400
    else if Contains(v, s) then 600
    else 0
  }

  /** The score bands in terms of the two digit strings alone: the same
      digits, the searched digits as a proper prefix, the verse's digits as a
      proper prefix of the searched ones, the searched digits inside but not
      at the start, and otherwise no match. */
  lemma ScoreVerseNumberBands(verse: nat, search: nat)
    requires verse < U32_LIMIT && search < U32_LIMIT
    ensures var v, s, r := NatToString(verse), NatToString(search), ScoreVerseNumber(verse, search);
      && (r == 1000 <==> v == s)
      && (r == 800 <==> |s| < |v| && StartsWith(v, s))
      && (r == 400 <==> |v| < |s| && StartsWith(s, v))
      && (r == 600 <==> Contains(v, s) && !StartsWith(v, s))
      && (r == 0 <==> !Contains(v, s) && !StartsWith(s, v))
  {
    var v, s := NatToString(verse), NatToString(search);
    if v == s {
      NatToStringInjective(verse, search);
    }
    if StartsWith(v, s) && |s| == |v| {
      assert v[..|v|] == v;
    }
    if StartsWith(s, v) && |s| == |v| {
      assert s[..|s|] == s;
    }
    if Contains(v, s) {
      var i: nat :| i <= |v| && OccursAt(v, s, i);
      assert |s| <= |v|;
      if StartsWith(s, v) {
        assert s[..|v|] == v;
        assert s == v;
        assert OccursAt(v, s, 0);
      }
    }
    assert StartsWith(v, s) ==> OccursAt(v, s, 0);
  }

  /** The searched number itself outranks every other verse number. */
  lemma ExactVerseRanksFirst(verse: nat, other: nat, search: nat)
    requires verse < U32_LIMIT && other < U32_LIMIT && search < U32_LIMIT
    requires verse == search && other != search
    ensures ScoreVerseNumber(verse, search) > ScoreVerseNumber(other, search)
  {
  }

  // ---------------------------------------------------------------------------
  // Text normalisation

  /** The accented letters the search folds to their base letter. In
      Latin-1 the listed letters form short runs: `è..ë`, `ì..ï`, `ò..ô` and
      `ö`, `ù..ü`, `à..â` and `ä`, and their capitals 32 below. */
  function FoldAccent(c: char): (r: char) {
    if '\U{E8}' <= c <= '\U{EB}' then 'e'
    else if '\U{EC}' <= c <= '\U{EF}' then 'i'
    else if '\U{F2}' <= c <= '\U{F4}' || c == '\U{F6}' then 'o'
    else if '\U{F9}' <= c <= '\U{FC}' then 'u'
    else if '\U{E0}' <= c <= '\U{E2}' || c == '\U{E4}' then 'a'
    else if c == '\U{FD}' || c == '\U{1EF3}' || c == '\U{177}' || c == '\U{FF}' then 'y'
    else if c == '\U{E7}' then 'c'
    else if c == '\U{F1}' then 'n'
    else if '\U{C8}' <= c <= '\U{CB}' then 'E'
    else if '\U{CC}' <= c <= '\U{CF}' then 'I'
    else if '\U{D2}' <= c <= '\U{D4}' || c == '\U{D6}' then 'O'
    else if '\U{D9}' <= c <= '\U{DC}' then 'U'
    else if '\U{C0}' <= c <= '\U{C2}' || c == '\U{C4}' then 'A'
    else if c == '\U{DD}' || c == '\U{1EF2}' || c == '\U{176}' || c == '\U{178}' then 'Y'
    else if c == '\U{C7}' then 'C'
    else if c == '\U{D1}' then 'N'
    else c
  }

  /** The character the search compares: accent folded, then lower-cased. */
  function SearchChar(c: char): char {
    LowerChar(FoldAccent(c))
  }

  /** `normalize_text_for_search`. */
  function Normalize(text: string): (r: string)
    ensures |r| == |text| && forall i :: 0 <= i < |text| ==> r[i] == SearchChar(text[i])
  {
    ToLower(seq(|text|, i requires 0 <= i < |text| => FoldAccent(text[i])))
  }

  /** A character of normalised text is its own search character: it is
      neither accented nor upper case. */
  lemma SearchCharFixed(c: char)
    ensures SearchChar(SearchChar(c)) == SearchChar(c)
    ensures SearchChar(LowerChar(c)) == SearchChar(c)
  {
    SearchCharIdempotent(c);
    SearchCharOfLower(c);
  }

  lemma SearchCharIdempotent(c: char)
    ensures SearchChar(SearchChar(c)) == SearchChar(c)
  {
    if c < '\U{C0}' {
      assert FoldAccent(c) == c;
    } else if c < '\U{E0}' {
    } else if c <= '\U{FF}' {
    }
  }

  lemma SearchCharOfLower(c: char)
    ensures SearchChar(LowerChar(c)) == SearchChar(c)
  {
    if c < '\U{C0}' {
      assert FoldAccent(c) == c;
    } else if c < '\U{E0}' {
    } else if c <= '\U{FF}' {
    } else {
      assert LowerChar(c) == c;
    }
  }

  /** Normalising twice changes nothing. */
  lemma NormalizeIdempotent(text: string)
    ensures Normalize(Normalize(text)) == Normalize(text)
  {
    forall i | 0 <= i < |text| ensures SearchChar(SearchChar(text[i])) == SearchChar(text[i]) {
      SearchCharFixed(text[i]);
    }
  }

  /** Search ignores case: lower-casing first gives the same normal form. */
  lemma NormalizeIgnoresCase(text: string)
    ensures Normalize(ToLower(text)) == Normalize(text)
  {
    forall i | 0 <= i < |text| ensures SearchChar(LowerChar(text[i])) == SearchChar(text[i]) {
      SearchCharFixed(text[i]);
    }
  }

  // ---------------------------------------------------------------------------
  // Numbered book names

  /** `convert_arabic_to_roman`: `"1 "`, `"2 "` and `"3 "` become `"i "`,
      `"ii "` and `"iii "` wherever they occur. */
  function ArabicToRoman(text: string): string {
    Replace(Replace(Replace(text, "1 ", "i "), "2 ", "ii "), "3 ", "iii ")
  }

  /** `convert_roman_to_arabic` as written: the capital numerals `"III "`,
      `"II "`, `"I "` and then the small ones are replaced wherever they
      occur, also at the end of a longer word. */
  function RomanToArabic(text: string): string {
    Numerals('i', Numerals('I', text))
  }

  /** One pass of numerals written with the letter `x`, longest first. */
  function Numerals(x: char, text: string): string {
    Replace(Replace(Replace(text, [x, x, x, ' '], "3 "), [x, x, ' '], "2 "), [x, ' '], "1 ")
  }

  lemma AbsentStart(s: string, pat: string)
    requires |pat| > 0 && pat[0] !in s
    ensures !Contains(s, pat)
  {
    FindAbsent(s, pat);
    FindContains(s, pat);
  }

  lemma ReplaceSkip(c: char, rest: string, pat: string, rep: string)
    requires |pat| > 0 && c != pat[0]
    ensures Replace([c] + rest, pat, rep) == [c] + Replace(rest, pat, rep)
  {
    var s := [c] + rest;
    assert s[1..] == rest;
    if |s| >= |pat| {
      assert s[..|pat|][0] == c;
    }
  }

  lemma ReplaceHead(pat: string, rest: string, rep: string)
    requires |pat| > 0
    ensures Replace(pat + rest, pat, rep) == rep + Replace(rest, pat, rep)
  {
    var s := pat + rest;
    assert s[..|pat|] == pat;
    assert s[|pat|..] == rest;
  }

  /** Text without the digits 1, 2 and 3 is left as it is. */
  lemma ArabicToRomanUnnumbered(text: string)
    requires '1' !in text && '2' !in text && '3' !in text
    ensures ArabicToRoman(text) == text
  {
    AbsentStart(text, "1 ");
    ReplaceAbsent(text, "1 ", "i ");
    AbsentStart(text, "2 ");
    ReplaceAbsent(text, "2 ", "ii ");
    AbsentStart(text, "3 ");
    ReplaceAbsent(text, "3 ", "iii ");
  }

  /** A leading book number becomes its Roman numeral. */
  lemma ArabicToRomanNumbered(rest: string)
    requires '1' !in rest && '2' !in rest && '3' !in rest
    ensures ArabicToRoman("1 " + rest) == "i " + rest
    ensures ArabicToRoman("2 " + rest) == "ii " + rest
    ensures ArabicToRoman("3 " + rest) == "iii " + rest
  {
    ArabicOne(rest);
    ArabicTwo(rest);
    ArabicThree(rest);
  }

  lemma ArabicOne(rest: string)
    requires '1' !in rest && '2' !in rest && '3' !in rest
    ensures ArabicToRoman("1 " + rest) == "i " + rest
  {
    PassThrough(rest, "1 ", "i ");
    ReplaceHead("1 ", rest, "i ");
    PassThrough("i " + rest, "2 ", "ii ");
    PassThrough("i " + rest, "3 ", "iii ");
  }

  lemma ArabicTwo(rest: string)
    requires '1' !in rest && '2' !in rest && '3' !in rest
    ensures ArabicToRoman("2 " + rest) == "ii " + rest
  {
    PassThrough("2 " + rest, "1 ", "i ");
    PassThrough(rest, "2 ", "ii ");
    ReplaceHead("2 ", rest, "ii ");
    PassThrough("ii " + rest, "3 ", "iii ");
  }

  lemma ArabicThree(rest: string)
    requires '1' !in rest && '2' !in rest && '3' !in rest
    ensures ArabicToRoman("3 " + rest) == "iii " + rest
  {
    PassThrough("3 " + rest, "1 ", "i ");
    PassThrough("3 " + rest, "2 ", "ii ");
    PassThrough(rest, "3 ", "iii ");
    ReplaceHead("3 ", rest, "iii ");
  }

  /** Replacing a pattern whose first character does not occur changes
      nothing. */
  lemma PassThrough(s: string, pat: string, rep: string)
    requires |pat| > 0 && pat[0] !in s
    ensures Replace(s, pat, rep) == s
  {
    AbsentStart(s, pat);
    ReplaceAbsent(s, pat, rep);
  }

  /** A leading numeral, capital or small, becomes its number. */
  lemma RomanToArabicNumbered(rest: string)
    requires 'i' !in rest && 'I' !in rest
    ensures RomanToArabic("i " + rest) == "1 " + rest
    ensures RomanToArabic("ii " + rest) == "2 " + rest
    ensures RomanToArabic("iii " + rest) == "3 " + rest
    ensures RomanToArabic("I " + rest) == "1 " + rest
    ensures RomanToArabic("II " + rest) == "2 " + rest
    ensures RomanToArabic("III " + rest) == "3 " + rest
  {
    NumeralsOfNumber('i', rest);
    NumeralsOfNumber('I', rest);
    NumeralsPassOver('I', "i " + rest);
    NumeralsPassOver('I', "ii " + rest);
    NumeralsPassOver('I', "iii " + rest);
    NumeralsPassOver('i', "1 " + rest);
    NumeralsPassOver('i', "2 " + rest);
    NumeralsPassOver('i', "3 " + rest);
  }

  /** Text without the letter is left alone by its numeral pass. */
  lemma NumeralsPassOver(x: char, s: string)
    requires x !in s
    ensures Numerals(x, s) == s
  {
    PassThrough(s, [x, x, x, ' '], "3 ");
    PassThrough(s, [x, x, ' '], "2 ");
    PassThrough(s, [x, ' '], "1 ");
  }

  /** Each numeral at the front becomes its number. */
  lemma NumeralsOfNumber(x: char, rest: string)
    requires x !in rest && x != ' ' && x !in "123"
    ensures Numerals(x, [x, ' '] + rest) == "1 " + rest
    ensures Numerals(x, [x, x, ' '] + rest) == "2 " + rest
    ensures Numerals(x, [x, x, x, ' '] + rest) == "3 " + rest
  {
    NumeralOne(x, rest);
    NumeralTwo(x, rest);
    NumeralThree(x, rest);
  }

  lemma NumeralOne(x: char, rest: string)
    requires x !in rest && x != ' '
    ensures Numerals(x, [x, ' '] + rest) == "1 " + rest
  {
    var s := [x, ' '] + rest;
    SkipNotPrefix(s, [x, x, x, ' '], "3 ", 1);
    assert s[1..] == [' '] + rest;
    PassThrough([' '] + rest, [x, x, x, ' '], "3 ");
    assert [x] + ([' '] + rest) == s;
    SkipNotPrefix(s, [x, x, ' '], "2 ", 1);
    PassThrough([' '] + rest, [x, x, ' '], "2 ");
    ReplaceHead([x, ' '], rest, "1 ");
    PassThrough(rest, [x, ' '], "1 ");
  }

  lemma NumeralTwo(x: char, rest: string)
    requires x !in rest && x != ' ' && x != '2'
    ensures Numerals(x, [x, x, ' '] + rest) == "2 " + rest
  {
    var s := [x, x, ' '] + rest;
    SkipNotPrefix(s, [x, x, x, ' '], "3 ", 2);
    assert s[1..] == [x, ' '] + rest;
    SkipNotPrefix(s[1..], [x, x, x, ' '], "3 ", 1);
    assert s[1..][1..] == [' '] + rest;
    PassThrough([' '] + rest, [x, x, x, ' '], "3 ");
    assert Replace(s[1..], [x, x, x, ' '], "3 ") == s[1..];
    assert [x] + s[1..] == s;
    assert Replace(s, [x, x, x, ' '], "3 ") == s;
    ReplaceHead([x, x, ' '], rest, "2 ");
    PassThrough(rest, [x, x, ' '], "2 ");
    PassThrough("2 " + rest, [x, ' '], "1 ");
  }

  lemma NumeralThree(x: char, rest: string)
    requires x !in rest && x != ' ' && x != '3'
    ensures Numerals(x, [x, x, x, ' '] + rest) == "3 " + rest
  {
    ReplaceHead([x, x, x, ' '], rest, "3 ");
    PassThrough(rest, [x, x, x, ' '], "3 ");
    PassThrough("3 " + rest, [x, x, ' '], "2 ");
    PassThrough("3 " + rest, [x, ' '], "1 ");
  }

  /** Replacing steps over a first character where the pattern does not
      start. */
  lemma SkipNotPrefix(s: string, pat: string, rep: string, k: nat)
    requires k < |pat| && k < |s| && s[k] != pat[k]
    ensures Replace(s, pat, rep) == [s[0]] + Replace(s[1..], pat, rep)
  {
    if |s| >= |pat| {
      assert s[..|pat|][k] != pat[k];
    }
  }

  /** Text where no word-final numeral letter is followed by a space is
      unchanged by the conversion. */
  lemma RomanToArabicUnnumbered(text: string)
    requires !Contains(text, "I ") && !Contains(text, "i ")
    ensures RomanToArabic(text) == text
  {
    NumeralsAbsent('I', text);
    NumeralsAbsent('i', text);
  }

  lemma NumeralsAbsent(x: char, text: string)
    requires !Contains(text, [x, ' '])
    ensures Numerals(x, text) == text
  {
    assert !Contains(text, [x, x, x, ' ']) by {
      if k: nat :| k <= |text| && OccursAt(text, [x, x, x, ' '], k) {
        assert text[k + 2..k + 4] == text[k..k + 4][2..];
        assert OccursAt(text, [x, ' '], k + 2);
      }
    }
    assert !Contains(text, [x, x, ' ']) by {
      if k: nat :| k <= |text| && OccursAt(text, [x, x, ' '], k) {
        assert text[k + 1..k + 3] == text[k..k + 3][1..];
        assert OccursAt(text, [x, ' '], k + 1);
      }
    }
    ReplaceAbsent(text, [x, x, x, ' '], "3 ");
    ReplaceAbsent(text, [x, x, ' '], "2 ");
    ReplaceAbsent(text, [x, ' '], "1 ");
  }

  /** The flaw: a word that merely ends in `i` is rewritten too, so
      `p + "i " + rest` loses its `i` to a `1`. */
  lemma RomanToArabicInsideWord(p: string, rest: string)
    requires 'i' !in p && 'I' !in p && 'i' !in rest && 'I' !in rest
    ensures RomanToArabic(p + "i " + rest) == p + "1 " + rest
  {
    var t := "i " + rest;
    assert p + "i " + rest == p + t;
    NumeralsPassOver('I', p + t);
    ReplaceNoStart(p, t, "iii ", "3 ");
    ReplaceNoStart(p, Replace(t, "iii ", "3 "), "ii ", "2 ");
    ReplaceNoStart(p, Replace(Replace(t, "iii ", "3 "), "ii ", "2 "), "i ", "1 ");
    NumeralOne('i', rest);
    assert p + "1 " + rest == p + ("1 " + rest);
  }

  /** Replacing passes over a prefix that holds no first character of the
      pattern. */
  lemma {:induction false} ReplaceNoStart(p: string, t: string, pat: string, rep: string)
    requires |pat| > 0 && pat[0] !in p
    ensures Replace(p + t, pat, rep) == p + Replace(t, pat, rep)
    decreases |p|
  {
    if p != [] {
      var r := Replace(t, pat, rep);
      ReplaceSkip(p[0], p[1..] + t, pat, rep);
      ReplaceNoStart(p[1..], t, pat, rep);
      calc {
        Replace(p + t, pat, rep);
        { assert p + t == [p[0]] + (p[1..] + t); }
        Replace([p[0]] + (p[1..] + t), pat, rep);
        [p[0]] + Replace(p[1..] + t, pat, rep);
        [p[0]] + (p[1..] + r);
        { assert p == [p[0]] + p[1..]; }
        p + r;
      }
    } else {
      assert p + t == t;
    }
  }

  /** The Dutch name of Malachi loses its last letter: `"maleachi 3"` becomes
      `"maleach1 3"`. */
  lemma MaleachiRewritten()
    ensures RomanToArabic("maleachi 3") == "maleach1 3"
  {
    assert "maleachi 3" == "maleach" + "i " + "3";
    assert "maleach1 3" == "maleach" + "1 " + "3";
    RomanToArabicInsideWord("maleach", "3");
  }

  /** The numeral that starts `s`, if any: its length and its replacement. */
  function RomanNumeralAt(s: string): (r: Option<(nat, string)>)
    ensures r.Some? ==> 0 < r.value.0 <= |s|
  {
    if StartsWith(s, "III ") || StartsWith(s, "iii ") then Some((4, "3 "))
    else if StartsWith(s, "II ") || StartsWith(s, "ii ") then Some((3, "2 "))
    else if StartsWith(s, "I ") || StartsWith(s, "i ") then Some((2, "1 "))
    else None
  }

  /** The numerals replaced only where they form a whole word: at the start
      of the text or after a space. */
  function RomanToArabicWords(text: string): string {
    RomanWords(text, true)
  }

  function RomanWords(s: string, atWordStart: bool): (r: string)
    decreases |s|
  {
    if s == [] then []
    else if atWordStart && RomanNumeralAt(s).Some? then
      var (n, rep) := RomanNumeralAt(s).value;
      rep + RomanWords(s[n..], true)
    else [s[0]] + RomanWords(s[1..], s[0] == ' ')
  }

  /** No word starts with `i` or `I`. */
  predicate NoRomanWordStart(s: string, atWordStart: bool) {
    (atWordStart && s != [] ==> s[0] != 'i' && s[0] != 'I')
    && forall j :: 0 < j < |s| && s[j - 1] == ' ' ==> s[j] != 'i' && s[j] != 'I'
  }

  /** Text in which no word starts with a numeral letter is unchanged. */
  lemma {:induction false} RomanWordsUnchanged(s: string, atWordStart: bool)
    requires NoRomanWordStart(s, atWordStart)
    ensures RomanWords(s, atWordStart) == s
    decreases |s|
  {
    if s != [] {
      assert !(atWordStart && RomanNumeralAt(s).Some?);
      assert NoRomanWordStart(s[1..], s[0] == ' ') by {
        forall j | 0 < j < |s[1..]| && s[1..][j - 1] == ' ' ensures s[1..][j] != 'i' && s[1..][j] != 'I' {
          assert s[1..][j] == s[j + 1] && s[j] == s[1..][j - 1];
        }
      }
      RomanWordsUnchanged(s[1..], s[0] == ' ');
    }
  }

  /** A leading numeral word becomes its number. */
  lemma RomanWordsNumbered(rest: string)
    requires NoRomanWordStart(rest, true)
    ensures RomanToArabicWords("i " + rest) == "1 " + rest
    ensures RomanToArabicWords("ii " + rest) == "2 " + rest
    ensures RomanToArabicWords("iii " + rest) == "3 " + rest
  {
    RomanWordsUnchanged(rest, true);
    assert ("i " + rest)[2..] == rest;
    assert ("ii " + rest)[3..] == rest;
    assert ("iii " + rest)[4..] == rest;
    assert ("i " + rest)[..2] == "i ";
    assert ("ii " + rest)[..3] == "ii ";
    assert ("iii " + rest)[..4] == "iii ";
    assert !StartsWith("i " + rest, "ii ") && !StartsWith("i " + rest, "iii ") by {
      assert ("i " + rest)[1] == ' ';
    }
    assert !StartsWith("ii " + rest, "iii ") by {
      assert ("ii " + rest)[2] == ' ';
    }
  }

  /** The corrected conversion keeps `"maleachi 3"`. */
  lemma MaleachiKept()
    ensures RomanToArabicWords("maleachi 3") == "maleachi 3"
  {
    var s := "maleachi 3";
    assert NoRomanWordStart(s, true) by {
      assert s[0] == 'm';
      forall j | 0 < j < |s| && s[j - 1] == ' ' ensures s[j] != 'i' && s[j] != 'I' {
        assert j == 9;
      }
    }
    RomanWordsUnchanged(s, true);
  }

  // ---------------------------------------------------------------------------
  // Fuzzy scoring

  /** `idx` places the characters of `q`, in order, at positions of `t`. */
  ghost predicate Embeds(q: string, t: string, idx: seq<nat>) {
    && |idx| == |q|
    && (forall k :: 0 <= k < |idx| ==> idx[k] < |t| && t[idx[k]] == q[k])
    && (forall j, k :: 0 <= j < k < |idx| ==> idx[j] < idx[k])
  }

  /** The characters of `q` occur in `t` in the same order. */
  ghost predicate IsSubsequence(q: string, t: string) {
    exists idx :: Embeds(q, t, idx)
  }

  function Shift(idx: seq<nat>): (r: seq<nat>)
    ensures |r| == |idx| && forall k :: 0 <= k < |idx| ==> r[k] == idx[k] + 1
  {
    seq(|idx|, k requires 0 <= k < |idx| => idx[k] + 1)
  }

  function Unshift(idx: seq<nat>): (r: seq<nat>)
    requires forall k :: 0 <= k < |idx| ==> idx[k] >= 1
    ensures |r| == |idx| && forall k :: 0 <= k < |idx| ==> r[k] + 1 == idx[k]
  {
    seq(|idx|, k requires 0 <= k < |idx| => idx[k] - 1)
  }

  /** A word found inside another is a subsequence of it. */
  lemma ContainsSubsequence(t: string, q: string)
    requires Contains(t, q)
    ensures IsSubsequence(q, t)
  {
    var i: nat :| i <= |t| && OccursAt(t, q, i);
    var idx := seq(|q|, k requires 0 <= k < |q| => i + k);
    forall k | 0 <= k < |q| ensures t[idx[k]] == q[k] {
      assert t[i..i + |q|][k] == q[k];
    }
    assert Embeds(q, t, idx);
  }

  /** The scan of `character_fuzzy_score`: each query character is sought
      from where the last one was found; `run` counts the matches since the
      last skipped text character, and a match scores `2 + run`. */
  function CharScan(t: string, q: string, run: nat): (r: Option<nat>)
    ensures r.Some? && q != [] ==> r.value >= 2
    decreases |t|
  {
    if q == [] then Some(0)
    else if t == [] then None
    else if t[0] == q[0] then
      match CharScan(t[1..], q[1..], run + 1)
      case None => None
      case Some(rest) => Some(rest + 2 + run)
    else CharScan(t[1..], q, 0)
  }

  /** A successful scan has found the query in order. */
  lemma {:induction false} ScanEmbeds(t: string, q: string, run: nat)
    requires CharScan(t, q, run).Some?
    ensures IsSubsequence(q, t)
    decreases |t|
  {
    if q == [] {
      assert Embeds(q, t, []);
    } else if t[0] == q[0] {
      ScanEmbeds(t[1..], q[1..], run + 1);
      var idx :| Embeds(q[1..], t[1..], idx);
      var found := [0] + Shift(idx);
      forall k | 0 < k < |found| ensures found[k] < |t| && t[found[k]] == q[k] {
        assert t[found[k]] == t[1..][idx[k - 1]];
      }
      assert Embeds(q, t, found);
    } else {
      ScanEmbeds(t[1..], q, 0);
      var idx :| Embeds(q, t[1..], idx);
      var found := Shift(idx);
      forall k | 0 <= k < |found| ensures found[k] < |t| && t[found[k]] == q[k] {
        assert t[found[k]] == t[1..][idx[k]];
      }
      assert Embeds(q, t, found);
    }
  }

  /** The greedy scan never misses a query that occurs in order. */
  lemma {:induction false} EmbedsScan(t: string, q: string, run: nat)
    requires IsSubsequence(q, t)
    ensures CharScan(t, q, run).Some?
    decreases |t|
  {
    if q != [] {
      var idx :| Embeds(q, t, idx);
      assert idx[0] < |t|;
      if t[0] == q[0] {
        var later := Unshift(idx[1..]);
        forall k | 0 <= k < |later| ensures later[k] < |t[1..]| && t[1..][later[k]] == q[1..][k] {
          assert idx[0] < idx[k + 1];
        }
        assert Embeds(q[1..], t[1..], later);
        EmbedsScan(t[1..], q[1..], run + 1);
      } else {
        forall k | 0 <= k < |idx| ensures idx[k] >= 1 {
          if k > 0 {
            assert idx[0] < idx[k];
          }
        }
        var later := Unshift(idx);
        forall k | 0 <= k < |later| ensures later[k] < |t[1..]| && t[1..][later[k]] == q[k] {
        }
        assert Embeds(q, t[1..], later);
        EmbedsScan(t[1..], q, 0);
      }
    }
  }

  /** `character_fuzzy_score`: the scan's score, half as much again for a
      word in its own position, and 0 when some character is missing. */
  function CharacterScore(t: string, q: string, positional: bool): nat {
    match CharScan(t, q, 0)
    case None => 0
    case Some(score) => if positional then score * 3 / 2 else score
  }

  /** For a non-empty query the character score is positive exactly when
      the query occurs in order in the text. */
  lemma CharacterScorePositive(t: string, q: string, positional: bool)
    requires q != []
    ensures CharacterScore(t, q, positional) > 0 <==> IsSubsequence(q, t)
  {
    if CharScan(t, q, 0).Some? {
      ScanEmbeds(t, q, 0);
    }
    if IsSubsequence(q, t) {
      EmbedsScan(t, q, 0);
    }
  }

  /** `score_word_match`: an exact word scores 100 (80 out of position), a
      prefix 50 (30) and a contained word 20 (10) plus a share of the byte
      length ratio; anything else falls back to the character scan. */
  function ScoreWord(tw: string, qw: string, positional: bool): nat {
    if tw == qw then (if positional then 100 else 80)
    else if StartsWith(tw, qw) then (if positional then 50 else 30) + Ratio(qw, tw) / 2
    else if Contains(tw, qw) then (if positional then 20 else 10) + Ratio(qw, tw) / 4
    else CharacterScore(tw, qw, positional)
  }

  /** The query word's share of the text word's length in bytes, as a
      percentage (0 for an empty text word, which never reaches it). */
  function Ratio(qw: string, tw: string): nat {
    if tw == [] then 0
    else
      var bytes := Percent.ByteLen(tw);
      assert bytes > 0;
      var scaled: nat := Percent.ByteLen(qw) * 100;
      DivIsNat(scaled, bytes);
      scaled / bytes
  }

  /** A word scores exactly when its characters occur in order in the text
      word. */
  lemma ScoreWordPositive(tw: string, qw: string, positional: bool)
    ensures ScoreWord(tw, qw, positional) > 0 <==> IsSubsequence(qw, tw)
  {
    if qw == [] {
      assert Embeds(qw, tw, []);
    } else {
      if StartsWith(tw, qw) {
        assert OccursAt(tw, qw, 0);
      }
      if Contains(tw, qw) {
        ContainsSubsequence(tw, qw);
      } else {
        CharacterScorePositive(tw, qw, positional);
      }
    }
  }

  /** A word in its own position never scores less than elsewhere. */
  lemma PositionalAtLeast(tw: string, qw: string)
    ensures ScoreWord(tw, qw, true) >= ScoreWord(tw, qw, false)
  {
  }

  /** An exact word outranks any longer word that contains it. */
  lemma ExactOutranksPartial(tw: string, qw: string, positional: bool)
    requires tw != qw && Contains(tw, qw)
    ensures ScoreWord(qw, qw, positional) > ScoreWord(tw, qw, positional)
  {
    var i: nat :| i <= |tw| && OccursAt(tw, qw, i);
    var before, after := tw[..i], tw[i + |qw|..];
    assert tw == before + qw + after;
    Percent.ByteLenConcat(before, qw);
    Percent.ByteLenConcat(before + qw, after);
    assert tw != [];
    if StartsWith(tw, qw) {
      var rest := tw[|qw|..];
      assert tw == qw + rest;
      Percent.ByteLenConcat(qw, rest);
      assert rest != [];
      assert Percent.ByteLen(rest) > 0;
      PercentBelow(Percent.ByteLen(qw), Percent.ByteLen(tw));
    } else {
      PercentAtMost(Percent.ByteLen(qw), Percent.ByteLen(tw));
    }
  }

  /** The best score any of the first `n` text words gives the query word
      with index `qi`. */
  function BestScore(tws: seq<string>, qw: string, qi: nat, n: nat): (r: nat)
    requires n <= |tws|
    ensures forall ti :: 0 <= ti < n ==> ScoreWord(tws[ti], qw, ti == qi) <= r
    ensures n == 0 ==> r == 0
    ensures n > 0 ==> exists ti :: 0 <= ti < n && r == ScoreWord(tws[ti], qw, ti == qi)
  {
    if n == 0 then 0 else Max(BestScore(tws, qw, qi, n - 1), ScoreWord(tws[n - 1], qw, n - 1 == qi))
  }

  /** A query word scores only when it occurs, in order, in some text word. */
  lemma BestScorePositive(tws: seq<string>, qw: string, qi: nat)
    ensures BestScore(tws, qw, qi, |tws|) > 0
        <==> exists ti :: 0 <= ti < |tws| && IsSubsequence(qw, tws[ti])
  {
    if exists ti :: 0 <= ti < |tws| && IsSubsequence(qw, tws[ti]) {
      var ti :| 0 <= ti < |tws| && IsSubsequence(qw, tws[ti]);
      ScoreWordPositive(tws[ti], qw, ti == qi);
    } else {
      forall ti | 0 <= ti < |tws| ensures ScoreWord(tws[ti], qw, ti == qi) == 0 {
        ScoreWordPositive(tws[ti], qw, ti == qi);
      }
    }
  }

  /** The best score of each query word against the text words. */
  function Bests(tws: seq<string>, qws: seq<string>): (r: seq<nat>)
    ensures |r| == |qws| && forall qi :: 0 <= qi < |qws| ==> r[qi] == BestScore(tws, qws[qi], qi, |tws|)
  {
    seq(|qws|, qi requires 0 <= qi < |qws| => BestScore(tws, qws[qi], qi, |tws|))
  }

  /** The sum of the word scores, or nothing as soon as one of them is 0. */
  function SumFound(bs: seq<nat>): (r: Option<nat>)
    ensures r.Some? <==> forall i :: 0 <= i < |bs| ==> bs[i] > 0
    ensures r.Some? ==> r.value >= |bs|
  {
    if bs == [] then Some(0)
    else if bs[0] == 0 then None
    else
      match SumFound(bs[1..])
      case None => None
      case Some(rest) => Some(bs[0] + rest)
  }

  /** Scores of at least `m` each sum to at least `m` per score. */
  lemma {:induction false} SumFoundAtLeast(bs: seq<nat>, m: nat)
    requires m > 0 && forall i :: 0 <= i < |bs| ==> bs[i] >= m
    ensures SumFound(bs).Some? && SumFound(bs).value >= m * |bs|
  {
    if bs != [] {
      SumFoundAtLeast(bs[1..], m);
      assert m * |bs| == m + m * |bs[1..]|;
    }
  }

  /** `calculate_fuzzy_score`: the summed best word scores, plus 50 when the
      word counts agree and 100 when the texts are equal; 0 when the query
      has no words or one of them is not found. */
  function CalculateScore(text: string, query: string): (r: nat)
    ensures query == [] ==> r == 0
    ensures r > 0 ==> |SplitWhitespace(query)| > 0
  {
    var qws := SplitWhitespace(query);
    var tws := SplitWhitespace(text);
    if query == [] || qws == [] then 0
    else
      match SumFound(Bests(tws, qws))
      case None => 0
      case Some(sum) =>
        sum + (if |qws| == |tws| then 50 else 0) + (if text == query then 100 else 0)
  }

  /** Every query word occurs, in order, inside some text word. */
  ghost predicate EveryWordOccurs(tws: seq<string>, qws: seq<string>) {
    forall qi :: 0 <= qi < |qws| ==> exists ti :: 0 <= ti < |tws| && IsSubsequence(qws[qi], tws[ti])
  }

  /** A text scores exactly when the query has words and every one of them
      occurs, in order, inside some word of the text. */
  lemma CalculatePositive(text: string, query: string)
    ensures CalculateScore(text, query) > 0
        <==> |SplitWhitespace(query)| > 0 && EveryWordOccurs(SplitWhitespace(text), SplitWhitespace(query))
  {
    var qws := SplitWhitespace(query);
    var tws := SplitWhitespace(text);
    CalculateFound(text, query);
    BestsPositive(tws, qws);
  }

  lemma CalculateFound(text: string, query: string)
    ensures CalculateScore(text, query) > 0
        <==> |SplitWhitespace(query)| > 0 && SumFound(Bests(SplitWhitespace(text), SplitWhitespace(query))).Some?
  {
    if query == [] {
      assert SplitWhitespace(query) == [];
    }
  }

  lemma BestsPositive(tws: seq<string>, qws: seq<string>)
    ensures SumFound(Bests(tws, qws)).Some? <==> EveryWordOccurs(tws, qws)
  {
    var bs := Bests(tws, qws);
    forall qi | 0 <= qi < |qws|
      ensures bs[qi] > 0 <==> exists ti :: 0 <= ti < |tws| && IsSubsequence(qws[qi], tws[ti])
    {
      BestScorePositive(tws, qws[qi], qi);
    }
  }

  /** Every word of a text matched against itself in its own position
      scores 100. */
  lemma SelfBests(ws: seq<string>)
    ensures forall i :: 0 <= i < |ws| ==> Bests(ws, ws)[i] >= 100
  {
    forall i | 0 <= i < |ws| ensures Bests(ws, ws)[i] >= 100 {
      assert ScoreWord(ws[i], ws[i], i == i) == 100;
    }
  }

  /** A text searched for itself gets every word's full score and both
      bonuses. */
  lemma ExactTextScore(text: string)
    requires |SplitWhitespace(text)| > 0
    ensures CalculateScore(text, text) >= 100 * |SplitWhitespace(text)| + 150
  {
    var ws := SplitWhitespace(text);
    SelfBests(ws);
    SumFoundAtLeast(Bests(ws, ws), 100);
  }

  /** The seven text and query forms `fuzzy_score` compares: the normalised
      ones and their numeral conversions, with the Roman numerals converted
      as written. */
  function Candidates(text: string, query: string): seq<(string, string)> {
    var t := Normalize(text);
    var q := Normalize(query);
    Forms(t, q, ArabicToRoman(t), RomanToArabic(t), ArabicToRoman(q), RomanToArabic(q))
  }

  /** The same forms with the Roman numerals converted only as whole words. */
  function CandidatesIntended(text: string, query: string): seq<(string, string)> {
    var t := Normalize(text);
    var q := Normalize(query);
    Forms(t, q, ArabicToRoman(t), RomanToArabicWords(t), ArabicToRoman(q), RomanToArabicWords(q))
  }

  /** The seven pairs, given each side's two conversions. */
  function Forms(t: string, q: string, tRoman: string, tArabic: string, qRoman: string, qArabic: string)
    : seq<(string, string)>
  {
    [(t, q), (tRoman, q), (tArabic, q), (t, qRoman), (t, qArabic), (tRoman, qArabic), (tArabic, qRoman)]
  }

  function MaxScore(pairs: seq<(string, string)>): (r: nat)
    ensures forall p :: p in pairs ==> CalculateScore(p.0, p.1) <= r
    ensures pairs != [] ==> exists p :: p in pairs && CalculateScore(p.0, p.1) == r
  {
    if pairs == [] then 0
    else
      var rest := MaxScore(pairs[1..]);
      assert forall p :: p in pairs ==> p == pairs[0] || p in pairs[1..];
      Max(CalculateScore(pairs[0].0, pairs[0].1), rest)
  }

  /** `fuzzy_score`: the best score over the seven forms; 0 for an empty
      query. */
  function FuzzyScore(text: string, query: string): (r: nat)
    ensures query == [] ==> r == 0
    ensures query != [] ==> forall p :: p in Candidates(text, query) ==> CalculateScore(p.0, p.1) <= r
    ensures query != [] ==> exists p :: p in Candidates(text, query) && CalculateScore(p.0, p.1) == r
  {
    if query == [] then 0 else MaxScore(Candidates(text, query))
  }

  /** `fuzzy_score` with the corrected numeral conversion. */
  function FuzzyScoreIntended(text: string, query: string): (r: nat)
    ensures query == [] ==> r == 0
    ensures query != [] ==> forall p :: p in CandidatesIntended(text, query) ==> CalculateScore(p.0, p.1) <= r
    ensures query != [] ==> exists p :: p in CandidatesIntended(text, query) && CalculateScore(p.0, p.1) == r
  {
    if query == [] then 0 else MaxScore(CandidatesIntended(text, query))
  }

  /** Search ignores case and accents in the text and in the query. */
  lemma FuzzyIgnoresCase(text: string, query: string)
    ensures FuzzyScore(ToLower(text), query) == FuzzyScore(text, query)
    ensures FuzzyScore(text, ToLower(query)) == FuzzyScore(text, query)
  {
    NormalizeIgnoresCase(text);
    NormalizeIgnoresCase(query);
  }

  /** A query whose normalised words all occur in order inside words of the
      normalised text always scores. */
  lemma FuzzyFinds(text: string, query: string)
    requires |SplitWhitespace(Normalize(query))| > 0
    requires EveryWordOccurs(SplitWhitespace(Normalize(text)), SplitWhitespace(Normalize(query)))
    ensures FuzzyScore(text, query) > 0
  {
    CalculatePositive(Normalize(text), Normalize(query));
    assert (Normalize(text), Normalize(query)) in Candidates(text, query);
  }

  /** Search ignores case and accents in the text and in the query with the
      corrected conversion too. */
  lemma FuzzyIntendedIgnoresCase(text: string, query: string)
    ensures FuzzyScoreIntended(ToLower(text), query) == FuzzyScoreIntended(text, query)
    ensures FuzzyScoreIntended(text, ToLower(query)) == FuzzyScoreIntended(text, query)
  {
    NormalizeIgnoresCase(text);
    NormalizeIgnoresCase(query);
  }

  /** The corrected search finds what the plain normalised comparison
      finds. */
  lemma FuzzyIntendedFinds(text: string, query: string)
    requires |SplitWhitespace(Normalize(query))| > 0
    requires EveryWordOccurs(SplitWhitespace(Normalize(text)), SplitWhitespace(Normalize(query)))
    ensures FuzzyScoreIntended(text, query) > 0
  {
    CalculatePositive(Normalize(text), Normalize(query));
    assert (Normalize(text), Normalize(query)) in CandidatesIntended(text, query);
  }

  /** A query character that no text character equals cannot be embedded. */
  lemma NotSubsequence(q: string, t: string, k: nat)
    requires k < |q| && q[k] !in t
    ensures !IsSubsequence(q, t)
  {
    forall idx ensures !Embeds(q, t, idx) {
      if |idx| == |q| && idx[k] < |t| {
        assert t[idx[k]] in t;
      }
    }
  }

  /** Text without `"1 "`, `"2 "` or `"3 "` is left as it is. */
  lemma ArabicToRomanAbsent(text: string)
    requires !Contains(text, "1 ") && !Contains(text, "2 ") && !Contains(text, "3 ")
    ensures ArabicToRoman(text) == text
  {
    ReplaceAbsent(text, "1 ", "i ");
    ReplaceAbsent(text, "2 ", "ii ");
    ReplaceAbsent(text, "3 ", "iii ");
  }

  /** A digit that occurs only at the very end of a text is never followed
      by a space there. */
  lemma FinalDigitAlone(p: string, d: char, c: char)
    requires d !in p && c !in p + [d]
    ensures !Contains(p + [d], [d, ' '])
    ensures !Contains(p + [d], [c, ' '])
  {
    var s := p + [d];
    forall k: nat | k <= |s| ensures !OccursAt(s, [d, ' '], k) && !OccursAt(s, [c, ' '], k) {
      if k + 2 <= |s| {
        assert s[k..k + 2][0] == s[k];
        assert s[k] in p by {
          assert s[k] == p[k];
        }
        assert s[k] in s;
      }
    }
  }

  /** A single word that does not start with a numeral letter has no word
      that does. */
  lemma OneWordNoRomanStart(w: string)
    requires ' ' !in w && (w != [] ==> w[0] != 'i' && w[0] != 'I')
    ensures NoRomanWordStart(w, true)
  {
  }

  lemma SelfSubsequence(w: string)
    ensures IsSubsequence(w, w)
  {
    assert OccursAt(w, w, 0) by {
      assert w[0..|w|] == w;
    }
    ContainsSubsequence(w, w);
  }

  /** A two-word text whose first word is the query scores. */
  lemma FirstWordScores(w: string, rest: string)
    requires IsWord(w) && IsWord(rest)
    ensures CalculateScore(w + " " + rest, w) > 0
  {
    SplitWhitespaceJoin([w, rest]);
    assert Join([w, rest], " ") == w + " " + rest;
    SplitWhitespaceOfWord(w);
    SelfSubsequence(w);
    CalculatePositive(w + " " + rest, w);
  }

  /** A one-word query with a character neither word of a two-word text
      has does not score. */
  lemma TwoWordsMiss(w1: string, w2: string, q: string, k: nat)
    requires IsWord(w1) && IsWord(w2) && IsWord(q)
    requires k < |q| && q[k] !in w1 && q[k] !in w2
    ensures CalculateScore(w1 + " " + w2, q) == 0
  {
    SplitWhitespaceJoin([w1, w2]);
    assert Join([w1, w2], " ") == w1 + " " + w2;
    SplitWhitespaceOfWord(q);
    NotSubsequence(q, w1, k);
    NotSubsequence(q, w2, k);
    CalculatePositive(w1 + " " + w2, q);
  }

  /** In `p + "i " + d` the only space follows the `i`, so no digit is
      followed by a space. */
  lemma NoDigitBeforeSpace(p: string, d: string, c: char)
    requires ' ' !in p && ' ' !in d && c != 'i'
    ensures !Contains(p + "i " + d, [c, ' '])
  {
    var s := p + "i " + d;
    forall k: nat | k <= |s| ensures !OccursAt(s, [c, ' '], k) {
      if k + 2 <= |s| {
        ShortSlice(s, k);
        if k == |p| {
          assert s[k] == 'i';
        } else if k + 1 < |p| {
          assert s[k + 1] == p[k + 1];
        } else if k + 1 == |p| {
          assert s[k + 1] == 'i';
        } else {
          assert s[k + 1] == d[k + 1 - |p| - 2];
        }
      }
    }
  }

  lemma ShortSlice(s: string, k: nat)
    requires k + 2 <= |s|
    ensures s[k..k + 2] == [s[k], s[k + 1]]
  {
  }

  /** A text without spaces has no digit followed by a space. */
  lemma NoSpaceAbsent(s: string, c: char)
    requires ' ' !in s
    ensures !Contains(s, [c, ' '])
  {
    forall k: nat | k <= |s| ensures !OccursAt(s, [c, ' '], k) {
      if k + 2 <= |s| {
        ShortSlice(s, k);
      }
    }
  }

  /** In `p + "i " + d` the two words start with the first letters of `p`
      and `d`. */
  lemma TwoWordsNoRomanStart(p: string, d: string)
    requires p != [] && d != [] && ' ' !in p && ' ' !in d
    requires p[0] != 'i' && p[0] != 'I' && d[0] != 'i' && d[0] != 'I'
    ensures NoRomanWordStart(p + "i " + d, true)
  {
    var s := p + "i " + d;
    forall j | 0 < j < |s| ensures s[j - 1] == ' ' ==> s[j] != 'i' && s[j] != 'I' {
      if j - 1 < |p| {
        assert s[j - 1] == p[j - 1] && p[j - 1] in p;
      } else if j - 1 == |p| {
        assert s[j - 1] == 'i';
      } else if j - 1 == |p| + 1 {
        assert s[j] == d[0];
      } else {
        assert s[j - 1] == d[j - 1 - |p| - 2] && d[j - 1 - |p| - 2] in d;
      }
    }
  }

  /** The conditions under which a word ending in `i` meets a query that
      spells the `i` as `1`. */
  predicate InsideWordCase(text: string, query: string, p: string, d: string) {
    && Normalize(text) == p + "i " + d && Normalize(query) == p + "1"
    && p != [] && NoWhitespace(p) && 'i' !in p && 'I' !in p && '1' !in p
    && d != [] && NoWhitespace(d) && 'i' !in d && 'I' !in d && '1' !in d
  }

  /** The flaw of the as-written conversion reaches the search: when the
      normalised text has a word ending in `i` before a second word, a
      query spelling that `i` as `1` finds the text, and with whole-word
      conversion it finds nothing. */
  lemma NumeralInsideWordSearch(text: string, query: string, p: string, d: string)
    requires InsideWordCase(text, query, p, d)
    ensures FuzzyScore(text, query) > 0
    ensures FuzzyScoreIntended(text, query) == 0
  {
    InsideWordWritten(text, query, p, d);
    InsideWordIntended(text, query, p, d);
  }

  /** As written, the text becomes `p + "1 " + d`, whose first word is the
      query. */
  lemma InsideWordWritten(text: string, query: string, p: string, d: string)
    requires InsideWordCase(text, query, p, d)
    ensures FuzzyScore(text, query) > 0
  {
    var q := p + "1";
    assert IsWhitespace(' ');
    assert IsWord(q);
    RomanToArabicInsideWord(p, d);
    assert p + "1 " + d == q + " " + d;
    FirstWordScores(q, d);
    assert (q + " " + d, q) in Candidates(text, query);
  }

  /** Corrected, every form is the normalised pair itself, which misses. */
  lemma InsideWordIntended(text: string, query: string, p: string, d: string)
    requires InsideWordCase(text, query, p, d)
    ensures FuzzyScoreIntended(text, query) == 0
  {
    InsideWordForms(p, d);
    IntendedFormsFixed(text, query);
    InsideWordMiss(p, d);
  }

  /** The word `p + "1"` is not spelled out in `p + "i " + d`: its `1`
      occurs in neither word. */
  lemma InsideWordMiss(p: string, d: string)
    requires p != [] && NoWhitespace(p) && '1' !in p
    requires d != [] && NoWhitespace(d) && '1' !in d
    ensures CalculateScore(p + "i " + d, p + "1") == 0
  {
    var q := p + "1";
    assert IsWhitespace(' ');
    assert IsWord(q) && IsWord(p + "i");
    assert p + "i " + d == (p + "i") + " " + d;
    TwoWordsMiss(p + "i", d, q, |p|);
  }

  /** When neither conversion changes the normalised text or query, every
      form is the normalised pair. */
  lemma IntendedFormsFixed(text: string, query: string)
    requires ArabicToRoman(Normalize(text)) == Normalize(text)
    requires RomanToArabicWords(Normalize(text)) == Normalize(text)
    requires ArabicToRoman(Normalize(query)) == Normalize(query)
    requires RomanToArabicWords(Normalize(query)) == Normalize(query)
    ensures forall pr :: pr in CandidatesIntended(text, query) ==> pr == (Normalize(text), Normalize(query))
  {
  }

  /** Neither conversion touches `p + "i " + d` or `p + "1"`. */
  lemma InsideWordForms(p: string, d: string)
    requires p != [] && NoWhitespace(p) && 'i' !in p && 'I' !in p
    requires d != [] && NoWhitespace(d) && 'i' !in d && 'I' !in d
    ensures ArabicToRoman(p + "i " + d) == p + "i " + d
    ensures RomanToArabicWords(p + "i " + d) == p + "i " + d
    ensures ArabicToRoman(p + "1") == p + "1"
    ensures RomanToArabicWords(p + "1") == p + "1"
  {
    var t := p + "i " + d;
    var q := p + "1";
    assert ' ' !in p && ' ' !in d && ' ' !in q by {
      assert IsWhitespace(' ');
    }
    NoDigitBeforeSpace(p, d, '1');
    NoDigitBeforeSpace(p, d, '2');
    NoDigitBeforeSpace(p, d, '3');
    ArabicToRomanAbsent(t);
    TwoWordsNoRomanStart(p, d);
    RomanWordsUnchanged(t, true);
    NoSpaceAbsent(q, '1');
    NoSpaceAbsent(q, '2');
    NoSpaceAbsent(q, '3');
    ArabicToRomanAbsent(q);
    OneWordNoRomanStart(q);
    RomanWordsUnchanged(q, true);
  }

  /** The Dutch name of Malachi: the query `"maleach1"` finds chapter
      `"Maleachi 3"` only through the as-written conversion. */
  lemma MaleachiSearch()
    ensures FuzzyScore("Maleachi 3", "maleach1") > 0
    ensures FuzzyScoreIntended("Maleachi 3", "maleach1") == 0
  {
    MaleachiNormal();
    assert "maleachi 3" == "maleach" + "i " + "3";
    assert "maleach1" == "maleach" + "1";
    NumeralInsideWordSearch("Maleachi 3", "maleach1", "maleach", "3");
  }

  lemma MaleachiNormal()
    ensures Normalize("Maleachi 3") == "maleachi 3"
    ensures Normalize("maleach1") == "maleach1"
  {
  }
}
