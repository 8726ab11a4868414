/** Reading a book and chapter back out of a `/Book/Chapter` path
    (site/src/utils/url_helpers.rs). The percent decoder is a parameter; the
    lemmas that need it to behave ask for `InvertsEncode`. */
module UrlHelpers {
  import opened Wrappers
  import opened Strings
  import opened Percent
  import opened BibleCore

  /** The `/`-separated segments after the leading slashes. */
  function Segments(pathname: string): (r: seq<string>)
    ensures |r| >= 1
  {
    Split(TrimStartMatches(pathname, '/'), '/')
  }

  /** `parse_book_chapter_from_url`, as written: the first segment is
      percent-decoded, and only when decoding fails are its underscores turned
      into spaces. */
  function ParseBookChapterFromUrl(pathname: string, decode: string -> Option<string>): (r: Option<(string, nat)>)
    ensures r.Some? <==> |Segments(pathname)| == 2 && ParseU32(Segments(pathname)[1]).Some?
    ensures r.Some? ==> r.value.1 == ParseU32(Segments(pathname)[1]).value
    ensures r.Some? && decode(Segments(pathname)[0]).Some? ==> r.value.0 == decode(Segments(pathname)[0]).value
    ensures r.Some? && decode(Segments(pathname)[0]).None? ==> r.value.0 == ReplaceChar(Segments(pathname)[0], '_', ' ')
  {
    var parts := Segments(pathname);
    if |parts| == 2 then
      var book := match decode(parts[0]) case Some(d) => d case None => ReplaceChar(parts[0], '_', ' ');
      match ParseU32(parts[1])
      case Some(n) => Some((book, n))
      case None => None
    else None
  }

  /** `is_valid_chapter_path`: the parse succeeds. Whether it does never depends
      on the decoder. */
  function IsValidChapterPath(pathname: string, decode: string -> Option<string>): (r: bool)
    ensures r <==> |Segments(pathname)| == 2 && ParseU32(Segments(pathname)[1]).Some?
  {
    ParseBookChapterFromUrl(pathname, decode).Some?
  }

  /** A path made of a slash, a segment, a slash and a segment splits into those
      two segments. */
  lemma TwoSegments(a: string, b: string)
    requires a != [] && '/' !in a && '/' !in b
    ensures Segments("/" + a + "/" + b) == [a, b]
  {
    var p := "/" + a + "/" + b;
    var t := a + "/" + b;
    assert p[1..] == t && t[0] == a[0] != '/';
    assert TrimStartMatches(p, '/') == t;
    SplitConcat(a, '/', b);
    SplitNoSep(b, '/');
  }

  /** Every path the URL builder makes for a named chapter parses back to that
      chapter's book and number. */
  lemma ParseToPath(c: Chapter, decode: string -> Option<string>)
    requires InvertsEncode(decode)
    requires PathBook(c.name) != "" && c.chapter < U32_LIMIT
    ensures ParseBookChapterFromUrl(ToPath(c), decode) == Some((PathBook(c.name), c.chapter))
  {
    var e := Encode(PathBook(c.name));
    EncodeHasNoSeparators(PathBook(c.name));
    ParseNatToString(c.chapter);
    NatToStringNoWhitespace(c.chapter);
    assert '/' !in NatToString(c.chapter) by {
      assert AllDigits(NatToString(c.chapter));
    }
    TwoSegments(e, NatToString(c.chapter));
  }

  /** A two-segment path parses as its chapter segment does. */
  lemma ParseTwoSegments(a: string, b: string, decode: string -> Option<string>)
    requires a != [] && '/' !in a && '/' !in b
    ensures ParseBookChapterFromUrl("/" + a + "/" + b, decode).Some? <==> ParseU32(b).Some?
    ensures ParseU32(b).Some? && decode(a).Some? ==>
      ParseBookChapterFromUrl("/" + a + "/" + b, decode) == Some((decode(a).value, ParseU32(b).value))
  {
    TwoSegments(a, b);
  }

  lemma ParseThree()
    ensures ParseU32("3") == Some(3)
  {
    ParseNatToString(3);
    assert NatToString(3) == "3";
  }

  /** The shapes the source rejects: a single segment, a non-number chapter,
      a bare slash and the empty path. */
  lemma InvalidPaths(decode: string -> Option<string>)
    ensures ParseBookChapterFromUrl("/Genesis", decode) == None
    ensures ParseBookChapterFromUrl("/Genesis/invalid", decode) == None
    ensures ParseBookChapterFromUrl("/", decode) == None
    ensures ParseBookChapterFromUrl("", decode) == None
  {
    SingleSegmentPath(decode);
    NonNumericChapterPath(decode);
    assert TrimStartMatches("/", '/') == "";
  }

  lemma SingleSegmentPath(decode: string -> Option<string>)
    ensures ParseBookChapterFromUrl("/Genesis", decode) == None
  {
    assert TrimStartMatches("/Genesis", '/') == "Genesis";
    SplitNoSep("Genesis", '/');
  }

  lemma NonNumericChapterPath(decode: string -> Option<string>)
    ensures ParseBookChapterFromUrl("/Genesis/invalid", decode) == None
  {
    assert ParseU32("invalid") == None by {
      assert !IsDigit("invalid"[0]);
    }
    assert "/Genesis/invalid" == "/" + "Genesis" + "/" + "invalid";
    TwoSegments("Genesis", "invalid");
  }

  /** Both readings of a two-segment path whose segments decode and parse. */
  lemma ParseDecodedSegments(a: string, b: string, d: string, n: nat, decode: string -> Option<string>)
    requires a != [] && '/' !in a && '/' !in b
    requires decode(a) == Some(d) && ParseU32(b) == Some(n)
    ensures ParseBookChapterFromUrl("/" + a + "/" + b, decode) == Some((d, n))
    ensures ParseBookChapterIntended("/" + a + "/" + b, decode) == Some((ReplaceChar(d, '_', ' '), n))
  {
    TwoSegments(a, b);
  }

  /** A decoder that inverts `Encode` returns strings of unreserved characters
      unchanged. */
  lemma DecodeUnreserved(s: string, decode: string -> Option<string>)
    requires InvertsEncode(decode)
    requires forall i :: 0 <= i < |s| ==> IsUnreserved(s[i])
    ensures decode(s) == Some(s)
  {
    assert Encode(s) == s;
  }

  lemma EncodeSpace()
    ensures Encode(" ") == "%20"
  {
    assert Utf8(' ') == [32];
    assert Encode(" ") == EncodeChar(' ') + Encode("");
  }

  /** Two unreserved words joined by a space encode with `%20` between them. */
  lemma EncodeSpaced(x: string, y: string)
    requires forall i :: 0 <= i < |x| ==> IsUnreserved(x[i])
    requires forall i :: 0 <= i < |y| ==> IsUnreserved(y[i])
    ensures Encode(x + " " + y) == x + "%20" + y
  {
    EncodeSpace();
    EncodeConcat(x + " ", y);
    EncodeConcat(x, " ");
  }

  lemma EncodedTimothy()
    ensures Encode("1 Timothy") == "1%20Timothy"
  {
    EncodeSpaced("1", "Timothy");
    TimothySpellings();
  }

  lemma TimothySpellings()
    ensures "1" + " " + "Timothy" == "1 Timothy"
    ensures "1" + "%20" + "Timothy" == "1%20Timothy"
  {
  }

  lemma EncodedSpacePathWith(decode: string -> Option<string>)
    requires decode("1%20Timothy") == Some("1 Timothy")
    ensures ParseBookChapterFromUrl("/1%20Timothy/3", decode) == Some(("1 Timothy", 3))
  {
    ParseThree();
    assert "/1%20Timothy/3" == "/" + "1%20Timothy" + "/" + "3";
    ParseDecodedSegments("1%20Timothy", "3", "1 Timothy", 3, decode);
  }

  /** The encoded form of a spaced book name parses to the spaced name. */
  lemma EncodedSpacePath(decode: string -> Option<string>)
    requires InvertsEncode(decode)
    ensures ParseBookChapterFromUrl("/1%20Timothy/3", decode) == Some(("1 Timothy", 3))
  {
    EncodedTimothy();
    EncodedSpacePathWith(decode);
  }

  lemma UnderscorePathWith(decode: string -> Option<string>)
    requires decode("1_Timothy") == Some("1_Timothy")
    ensures ParseBookChapterFromUrl("/1_Timothy/3", decode) == Some(("1_Timothy", 3))
  {
    ParseThree();
    assert "/1_Timothy/3" == "/" + "1_Timothy" + "/" + "3";
    ParseDecodedSegments("1_Timothy", "3", "1_Timothy", 3, decode);
  }

  lemma UnderscorePathIntendedWith(decode: string -> Option<string>)
    requires decode("1_Timothy") == Some("1_Timothy")
    ensures ParseBookChapterIntended("/1_Timothy/3", decode) == Some(("1 Timothy", 3))
  {
    ParseThree();
    assert "/1_Timothy/3" == "/" + "1_Timothy" + "/" + "3";
    ParseDecodedSegments("1_Timothy", "3", "1_Timothy", 3, decode);
    UnderscoreToSpace();
  }

  lemma UnderscoreToSpace()
    ensures ReplaceChar("1_Timothy", '_', ' ') == "1 Timothy"
  {
  }

  /** As written, an underscore spelling decodes successfully (every character
      is unreserved), so the underscore is kept: `/1_Timothy/3` gives
      `1_Timothy`, not the `1 Timothy` the module's own test expects. */
  lemma UnderscorePathKeepsUnderscore(decode: string -> Option<string>)
    requires InvertsEncode(decode)
    ensures ParseBookChapterFromUrl("/1_Timothy/3", decode) == Some(("1_Timothy", 3))
    ensures ParseBookChapterFromUrl("/1_Timothy/3", decode) != Some(("1 Timothy", 3))
  {
    DecodeUnreserved("1_Timothy", decode);
    UnderscorePathWith(decode);
    UnderscoreDiffers();
  }

  lemma UnderscoreDiffers()
    ensures ("1_Timothy", 3) != ("1 Timothy", 3)
  {
    assert "1_Timothy"[1] != "1 Timothy"[1];
  }

  /** The evidently intended parse: underscores stand for spaces whether or not
      the segment needed decoding. */
  function ParseBookChapterIntended(pathname: string, decode: string -> Option<string>): (r: Option<(string, nat)>)
    ensures r.Some? <==> ParseBookChapterFromUrl(pathname, decode).Some?
    ensures r.Some? ==> '_' !in r.value.0
    ensures r.Some? ==> r.value.1 == ParseBookChapterFromUrl(pathname, decode).value.1
  {
    var parts := Segments(pathname);
    if |parts| == 2 then
      var book := ReplaceChar(decode(parts[0]).GetOr(parts[0]), '_', ' ');
      match ParseU32(parts[1])
      case Some(n) => Some((book, n))
      case None => None
    else None
  }

  /** A book name written with underscores for spaces parses to the spaced
      name under the intended reading. */
  lemma UnderscorePathIntended(book: string, n: nat, decode: string -> Option<string>)
    requires InvertsEncode(decode)
    requires book != [] && n < U32_LIMIT
    requires forall i :: 0 <= i < |book| ==> (IsUnreserved(book[i]) || book[i] == ' ') && book[i] != '_'
    ensures ParseBookChapterIntended("/" + ReplaceChar(book, ' ', '_') + "/" + NatToString(n), decode) == Some((book, n))
  {
    var u := ReplaceChar(book, ' ', '_');
    DecodeUnreserved(u, decode);
    assert ReplaceChar(u, '_', ' ') == book;
    assert '/' !in u by {
      assert forall i :: 0 <= i < |u| ==> IsUnreserved(u[i]);
    }
    NumberSegment(n);
    ParseDecodedSegments(u, NatToString(n), u, n, decode);
  }

  /** The percent-encoded spelling of a book without underscores parses to the
      book under the intended reading too. */
  lemma EncodedPathIntended(book: string, n: nat, decode: string -> Option<string>)
    requires InvertsEncode(decode)
    requires book != [] && n < U32_LIMIT && '_' !in book
    ensures ParseBookChapterIntended("/" + Encode(book) + "/" + NatToString(n), decode) == Some((book, n))
  {
    var e := Encode(book);
    assert ReplaceChar(book, '_', ' ') == book;
    assert e != [] && '/' !in e && decode(e) == Some(book) by {
      EncodeHasNoSeparators(book);
    }
    NumberSegment(n);
    ParseDecodedSegments(e, NatToString(n), book, n, decode);
  }

  lemma NumberSegment(n: nat)
    requires n < U32_LIMIT
    ensures ParseU32(NatToString(n)) == Some(n) && '/' !in NatToString(n)
  {
    ParseNatToString(n);
    assert AllDigits(NatToString(n));
  }

  /** The corrected parse accepts the module's test example. */
  lemma UnderscorePathFixed(decode: string -> Option<string>)
    requires InvertsEncode(decode)
    ensures ParseBookChapterIntended("/1_Timothy/3", decode) == Some(("1 Timothy", 3))
  {
    DecodeUnreserved("1_Timothy", decode);
    UnderscorePathIntendedWith(decode);
  }
}
